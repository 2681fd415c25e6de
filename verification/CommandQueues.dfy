// The queues of lib/pg.js on the ring buffers themselves: one cache shared by
// all sockets and one pending queue for each.
module CommandQueues {
  import opened Prelude
  import opened RingBuffer
  import opened Commands

  // A command object for this ticket: the oldest of the cache, else a new one.
  function Taken(s: State, ticket: Ticket): (State, nat)
    requires s.cache != [] ==> s.cache[0] < |s.commands|
  {
    if s.cache != [] then
      (s.(cache := s.cache[1..], commands := s.commands[s.cache[0] := ticket]), s.cache[0])
    else (s.(commands := s.commands + [ticket]), |s.commands|)
  }

  lemma IssueSteps(s: State, socket: Socket, ticket: Ticket)
    requires Bounded(s) && (s.cache != [] ==> s.cache[0] < |s.commands|)
    ensures var (taken, id) := Taken(s, ticket);
      && Queue(taken, socket) == Queue(s, socket) && |Queue(s, socket)| <= CAPACITY
      && Issue(s, socket, ticket)
      == taken.(pending := taken.pending[socket := PushTo(Queue(taken, socket), id)],
                issued := taken.issued[socket := Log(taken.issued, socket) + [ticket]])
  {
  }

  // The oldest command of a socket leaves its queue.
  function Shifted(s: State, socket: Socket): (State, nat)
    requires Queue(s, socket) != []
  {
    (s.(pending := s.pending[socket := Queue(s, socket)[1..]]), Queue(s, socket)[0])
  }

  lemma SettleSteps(s: State, socket: Socket)
    requires Bounded(s) && Queue(s, socket) != [] && Queue(s, socket)[0] < |s.commands|
    ensures var (shifted, id) := Shifted(s, socket);
      && id < |shifted.commands| && |shifted.cache| <= CAPACITY
      && Settle(s, socket)
      == shifted.(cache := PushTo(shifted.cache, id),
                  settled := shifted.settled[socket := Log(shifted.settled, socket) + [shifted.commands[id]]])
  {
  }

  class Queues {
    var commands: seq<Ticket>
    const commandCache: RingBuffer<nat>
    const pending: seq<RingBuffer<nat>>
    ghost var issued: map<Socket, seq<Ticket>>
    ghost var settled: map<Socket, seq<Ticket>>

    // The cache and every pending queue, by number.
    ghost function Ring(i: nat): RingBuffer<nat>
      requires i <= |pending|
    {
      if i < |pending| then pending[i] else commandCache
    }

    // No two queues share a slot.
    ghost predicate Apart()
    {
      forall i, j :: 0 <= i < j <= |pending| ==> Ring(i) != Ring(j) && Ring(i).rb != Ring(j).rb
    }

    ghost predicate AllValid()
      reads set i | 0 <= i <= |pending| :: Ring(i)
      reads set i | 0 <= i <= |pending| :: Ring(i).rb
    {
      forall i :: 0 <= i <= |pending| ==> Ring(i).Valid()
    }

    ghost function Contents(): State
      reads this
      reads set i | 0 <= i <= |pending| :: Ring(i)
      reads set i | 0 <= i <= |pending| :: Ring(i).rb
    {
      assert commandCache == Ring(|pending|);
      State(commands, map i: nat | i < |pending| :: Ring(i).contents, commandCache.contents, issued, settled)
    }

    constructor (sockets: nat)
      ensures Apart() && AllValid() && |pending| == sockets
      ensures commands == [] && issued == map[] && settled == map[]
      ensures forall i :: 0 <= i <= sockets ==> Ring(i).contents == []
    {
      var cache := new RingBuffer<nat>();
      var rings: seq<RingBuffer<nat>> := [];
      while |rings| < sockets
        invariant |rings| <= sockets && cache.Valid() && cache.contents == [] && fresh(cache) && fresh(cache.rb)
        invariant forall i :: 0 <= i < |rings| ==>
          fresh(rings[i]) && fresh(rings[i].rb) && rings[i].Valid() && rings[i].contents == [] &&
          rings[i] != cache && rings[i].rb != cache.rb
        invariant forall i, j :: 0 <= i < j < |rings| ==> rings[i] != rings[j] && rings[i].rb != rings[j].rb
      {
        var ring := new RingBuffer<nat>();
        rings := rings + [ring];
      }
      commands, commandCache, pending := [], cache, rings;
      issued, settled := map[], map[];
    }

    method GetCommand(ticket: Ticket) returns (id: nat)
      requires Apart() && AllValid()
      requires commandCache.contents != [] ==> commandCache.contents[0] < |commands|
      modifies this`commands, commandCache
      ensures AllValid()
      ensures (Contents(), id) == Taken(old(Contents()), ticket)
    {
      ghost var n := |pending|;
      assert commandCache == Ring(n) && commandCache.Valid();
      if commandCache.length > 0 {
        var cached := commandCache.Shift();
        id := cached.value;
        commands := commands[id := ticket];
      } else {
        id := |commands|;
        commands := commands + [ticket];
      }
      assert Ring(n).Valid();
      forall i | 0 <= i < n ensures Ring(i).Valid() && Ring(i).contents == old(Ring(i).contents) {
      }
      assert Contents().pending == old(Contents()).pending;
    }

    method Enqueue(socket: Socket, id: nat, ghost ticket: Ticket)
      requires Apart() && AllValid() && socket < |pending|
      modifies this`issued, pending[socket], pending[socket].rb
      ensures AllValid()
      ensures var was := old(Contents());
        |Queue(was, socket)| <= CAPACITY &&
        Contents() == was.(pending := was.pending[socket := PushTo(Queue(was, socket), id)],
                           issued := was.issued[socket := Log(was.issued, socket) + [ticket]])
    {
      ghost var n := |pending|;
      assert Ring(socket).Valid() && Ring(n) == commandCache;
      pending[socket].Push(id);
      assert Ring(socket).Valid();
      forall i | 0 <= i <= n && i != socket
        ensures Ring(i).Valid() && Ring(i).contents == old(Ring(i).contents)
      {
      }
      ghost var pushed := Contents();
      assert AllValid();
      hide AllValid, Log;
      issued := issued[socket := Log(issued, socket) + [ticket]];
      assert Contents() == pushed.(issued := issued);
    }

    method Dequeue(socket: Socket) returns (id: nat)
      requires Apart() && AllValid() && socket < |pending| && Queue(Contents(), socket) != []
      modifies pending[socket]
      ensures AllValid() && (Contents(), id) == Shifted(old(Contents()), socket)
    {
      ghost var n := |pending|;
      assert Ring(socket).Valid() && Ring(n) == commandCache;
      ghost var was := Contents();
      var shifted := pending[socket].Shift();
      id := shifted.value;
      assert Ring(socket).Valid();
      forall i | 0 <= i <= n && i != socket
        ensures Ring(i).Valid() && Ring(i).contents == old(Ring(i).contents)
      {
      }
      assert Contents().pending == was.pending[socket := Queue(was, socket)[1..]];
    }

    method ToCache(id: nat, ghost socket: Socket, ghost ticket: Ticket)
      requires Apart() && AllValid()
      modifies this`settled, commandCache, commandCache.rb
      ensures AllValid()
      ensures var was := old(Contents());
        && |was.cache| <= CAPACITY
        && Contents() == was.(cache := PushTo(was.cache, id),
                              settled := was.settled[socket := Log(was.settled, socket) + [ticket]])
    {
      ghost var n := |pending|;
      assert Ring(n).Valid() && Ring(n) == commandCache;
      commandCache.Push(id);
      assert Ring(n).Valid();
      forall i | 0 <= i < n ensures Ring(i).Valid() && Ring(i).contents == old(Ring(i).contents) {
      }
      ghost var pushed := Contents();
      assert AllValid();
      hide AllValid, Log;
      settled := settled[socket := Log(settled, socket) + [ticket]];
      assert Contents() == pushed.(settled := settled);
    }

    // A query is issued on a socket.
    method Submit(socket: Socket, ticket: Ticket)
      requires Apart() && AllValid() && socket < |pending|
      requires Bounded(Contents()) && (Contents().cache != [] ==> Contents().cache[0] < |commands|)
      modifies this, commandCache, pending[socket], pending[socket].rb
      ensures AllValid() && Contents() == Issue(old(Contents()), socket, ticket)
    {
      assert commandCache == Ring(|pending|) && pending[socket] == Ring(socket);
      IssueSteps(Contents(), socket, ticket);
      hide AllValid, Apart, Taken, Issue;
      var id := GetCommand(ticket);
      Enqueue(socket, id, ticket);
    }

    // The server completes the oldest command of a socket. Without one, the
    // shift is not guarded against: it leaves the queue invalid and gives what the
    // slot held before. A stale command is settled and cached once more; an empty
    // slot throws.
    method OnComplete(socket: Socket) returns (ticket: Option<Ticket>)
      requires Apart() && AllValid() && socket < |pending| && Bounded(Contents())
      requires Queue(Contents(), socket) != [] ==> Queue(Contents(), socket)[0] < |commands|
      modifies this`settled, commandCache, commandCache.rb, pending[socket]
      ensures pending[socket].rb.Length == CAPACITY && old(pending[socket].head) < CAPACITY
      ensures Queue(old(Contents()), socket) != [] ==>
        && AllValid() && Contents() == Settle(old(Contents()), socket)
        && ticket == Some(commands[Queue(old(Contents()), socket)[0]])
      ensures Queue(old(Contents()), socket) == [] ==> pending[socket].length == -1 && !AllValid()
      ensures Queue(old(Contents()), socket) == [] ==>
        match old(pending[socket].rb[pending[socket].head])
        case None => ticket == None && commandCache.contents == old(commandCache.contents)
        case Some(stale) =>
          && ticket == (if stale < |commands| then Some(commands[stale]) else None)
          && |old(commandCache.contents)| <= CAPACITY
          && commandCache.contents == PushTo(old(commandCache.contents), stale)
    {
      assert pending[socket] == Ring(socket) && pending[socket].Valid();
      if pending[socket].length > 0 {
        var completed := CompleteOldest(socket);
        return Some(completed);
      }
      assert commandCache == Ring(|pending|) && pending[socket] == Ring(socket);
      assert commandCache.Valid() && pending[socket].Valid();
      ticket := None;
      var stale := pending[socket].Shift();
      if stale.Some? {
        if stale.value < |commands| {
          ticket := Some(commands[stale.value]);
        }
        commandCache.Push(stale.value);
      }
      assert !Ring(socket).Valid();
    }

    // An error from the server rejects the oldest command, if there is one.
    method OnErrorResponse(socket: Socket) returns (ticket: Option<Ticket>)
      requires Apart() && AllValid() && socket < |pending| && Bounded(Contents())
      requires Queue(Contents(), socket) != [] ==> Queue(Contents(), socket)[0] < |commands|
      modifies this`settled, commandCache, commandCache.rb, pending[socket]
      ensures AllValid()
      ensures Queue(old(Contents()), socket) == [] ==> ticket == None && Contents() == old(Contents())
      ensures Queue(old(Contents()), socket) != [] ==>
        && Contents() == Settle(old(Contents()), socket)
        && ticket == Some(commands[Queue(old(Contents()), socket)[0]])
    {
      assert pending[socket] == Ring(socket) && pending[socket].Valid();
      if pending[socket].length == 0 {
        return None;
      }
      var rejected := CompleteOldest(socket);
      return Some(rejected);
    }

    method CompleteOldest(socket: Socket) returns (ticket: Ticket)
      requires Apart() && AllValid() && socket < |pending|
      requires Bounded(Contents()) && Queue(Contents(), socket) != []
      requires Queue(Contents(), socket)[0] < |commands|
      modifies this`settled, commandCache, commandCache.rb, pending[socket]
      ensures AllValid() && Contents() == Settle(old(Contents()), socket)
      ensures ticket == commands[Queue(old(Contents()), socket)[0]]
    {
      assert commandCache == Ring(|pending|) && pending[socket] == Ring(socket);
      SettleSteps(Contents(), socket);
      hide AllValid, Apart, Shifted, Settle;
      var id := Dequeue(socket);
      ticket := commands[id];
      ToCache(id, socket, ticket);
    }
  }
}
