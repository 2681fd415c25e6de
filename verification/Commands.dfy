// The commands of lib/pg.js: every query takes a command object from the shared
// cache or a new one, waits in the queue of its socket, and is settled by the
// completions of the server in order.
module Commands {
  import opened RingBuffer

  type Socket = nat
  type Ticket = nat

  // Commands by identity, each with the ticket of the promise that settling it
  // resolves; the queues hold identities. Issued and settled are the tickets of
  // each socket so far.
  datatype State = State(
    commands: seq<Ticket>,
    pending: map<Socket, seq<nat>>,
    cache: seq<nat>,
    issued: map<Socket, seq<Ticket>>,
    settled: map<Socket, seq<Ticket>>)

  function Queue(s: State, socket: Socket): seq<nat>
  {
    if socket in s.pending then s.pending[socket] else []
  }

  function Log(log: map<Socket, seq<Ticket>>, socket: Socket): seq<Ticket>
  {
    if socket in log then log[socket] else []
  }

  predicate Bounded(s: State)
  {
    |s.cache| <= CAPACITY && forall socket :: socket in s.pending ==> |s.pending[socket]| <= CAPACITY
  }

  // getCommand, and the push onto the pending queue of the socket.
  function Issue(s: State, socket: Socket, ticket: Ticket): State
    requires Bounded(s)
    requires s.cache != [] ==> s.cache[0] < |s.commands|
  {
    var reused := s.cache != [];
    var id := if reused then s.cache[0] else |s.commands|;
    s.(commands := if reused then s.commands[id := ticket] else s.commands + [ticket],
       cache := if reused then s.cache[1..] else s.cache,
       pending := s.pending[socket := PushTo(Queue(s, socket), id)],
       issued := s.issued[socket := Log(s.issued, socket) + [ticket]])
  }

  // A completion or an error from the server: the oldest pending command is
  // settled and goes to the cache.
  function Settle(s: State, socket: Socket): State
    requires Bounded(s) && Queue(s, socket) != [] && Queue(s, socket)[0] < |s.commands|
  {
    var id := Queue(s, socket)[0];
    s.(pending := s.pending[socket := Queue(s, socket)[1..]],
       settled := s.settled[socket := Log(s.settled, socket) + [s.commands[id]]],
       cache := PushTo(s.cache, id))
  }

  // ---- Where commands are ----

  datatype Place = InCache(i: nat) | InQueue(socket: Socket, i: nat)

  predicate IsPlace(s: State, p: Place)
  {
    match p
    case InCache(i) => i < |s.cache|
    case InQueue(socket, i) => i < |Queue(s, socket)|
  }

  function IdAt(s: State, p: Place): nat
    requires IsPlace(s, p)
  {
    match p
    case InCache(i) => s.cache[i]
    case InQueue(socket, i) => Queue(s, socket)[i]
  }

  // No command is in two places: twice in the cache, in two queues, twice in
  // one, or both in a queue and in the cache.
  ghost predicate NoSharing(s: State)
  {
    && (forall p :: IsPlace(s, p) ==> IdAt(s, p) < |s.commands|)
    && (forall p, q :: IsPlace(s, p) && IsPlace(s, q) && IdAt(s, p) == IdAt(s, q) ==> p == q)
  }

  ghost predicate IsFree(s: State, id: nat)
  {
    id < |s.commands| && forall p :: IsPlace(s, p) ==> IdAt(s, p) != id
  }

  function DropCached(s: State): State
    requires s.cache != []
  {
    s.(cache := s.cache[1..])
  }

  function DropQueued(s: State, socket: Socket): State
    requires Queue(s, socket) != []
  {
    s.(pending := s.pending[socket := Queue(s, socket)[1..]])
  }

  lemma DropCachedFrees(s: State)
    requires NoSharing(s) && s.cache != []
    ensures NoSharing(DropCached(s)) && IsFree(DropCached(s), s.cache[0])
    ensures forall id :: IsFree(s, id) ==> IsFree(DropCached(s), id)
  {
    var s' := DropCached(s);
    assert IsPlace(s, InCache(0));
    forall p | IsPlace(s', p)
      ensures var q := if p.InCache? then InCache(p.i + 1) else p;
        IsPlace(s, q) && IdAt(s, q) == IdAt(s', p)
    {
    }
  }

  lemma DropQueuedFrees(s: State, socket: Socket)
    requires NoSharing(s) && Queue(s, socket) != []
    ensures NoSharing(DropQueued(s, socket)) && IsFree(DropQueued(s, socket), Queue(s, socket)[0])
    ensures forall id :: IsFree(s, id) ==> IsFree(DropQueued(s, socket), id)
  {
    var s' := DropQueued(s, socket);
    assert IsPlace(s, InQueue(socket, 0));
    forall p | IsPlace(s', p)
      ensures var q := if p.InQueue? && p.socket == socket then InQueue(socket, p.i + 1) else p;
        IsPlace(s, q) && IdAt(s, q) == IdAt(s', p)
    {
    }
  }

  function AddCached(s: State, id: nat): State
  {
    s.(cache := s.cache + [id])
  }

  function AddQueued(s: State, socket: Socket, id: nat): State
  {
    s.(pending := s.pending[socket := Queue(s, socket) + [id]])
  }

  lemma AddCachedKeeps(s: State, id: nat)
    requires NoSharing(s) && IsFree(s, id)
    ensures NoSharing(AddCached(s, id))
  {
    var s' := AddCached(s, id);
    forall p | IsPlace(s', p) ensures p == InCache(|s.cache|) || (IsPlace(s, p) && IdAt(s, p) == IdAt(s', p)) {
    }
  }

  lemma AddQueuedKeeps(s: State, socket: Socket, id: nat)
    requires NoSharing(s) && IsFree(s, id)
    ensures NoSharing(AddQueued(s, socket, id))
  {
    var s' := AddQueued(s, socket, id);
    forall p | IsPlace(s', p)
      ensures p == InQueue(socket, |Queue(s, socket)|) || (IsPlace(s, p) && IdAt(s, p) == IdAt(s', p))
    {
    }
  }

  // Only where the commands are matters.
  lemma SamePlaces(s: State, s': State)
    requires NoSharing(s) && s'.cache == s.cache && s'.pending == s.pending && |s'.commands| >= |s.commands|
    ensures NoSharing(s')
    ensures forall id :: IsFree(s, id) ==> IsFree(s', id)
    ensures forall id :: |s.commands| <= id < |s'.commands| ==> IsFree(s', id)
  {
    forall p | IsPlace(s', p) ensures IsPlace(s, p) && IdAt(s, p) == IdAt(s', p) {
    }
  }

  lemma IssueKeepsSharing(s: State, socket: Socket, ticket: Ticket)
    requires Bounded(s) && NoSharing(s) && (s.cache != [] ==> s.cache[0] < |s.commands|)
    ensures NoSharing(Issue(s, socket, ticket))
  {
    hide NoSharing, IsFree;
    var reused := s.cache != [];
    var id := if reused then s.cache[0] else |s.commands|;
    var taken := if reused then DropCached(s) else s;
    if reused {
      DropCachedFrees(s);
    }
    var written := taken.(commands := Issue(s, socket, ticket).commands);
    SamePlaces(taken, written);
    var full := |Queue(s, socket)| == CAPACITY;
    var room := if full then DropQueued(written, socket) else written;
    if full {
      DropQueuedFrees(written, socket);
    }
    AddQueuedKeeps(room, socket, id);
    SamePlaces(AddQueued(room, socket, id), Issue(s, socket, ticket));
  }

  lemma SettleKeepsSharing(s: State, socket: Socket)
    requires Bounded(s) && NoSharing(s) && Queue(s, socket) != [] && Queue(s, socket)[0] < |s.commands|
    ensures NoSharing(Settle(s, socket))
  {
    hide NoSharing, IsFree;
    var id := Queue(s, socket)[0];
    var taken := DropQueued(s, socket);
    DropQueuedFrees(s, socket);
    var full := |s.cache| == CAPACITY;
    var room := if full then DropCached(taken) else taken;
    if full {
      DropCachedFrees(taken);
    }
    AddCachedKeeps(room, id);
    SamePlaces(AddCached(room, id), Settle(s, socket));
  }

  // ---- Order ----

  // The tickets waiting on a socket, in order.
  function Waiting(s: State, socket: Socket): (tickets: seq<Ticket>)
    requires forall i :: 0 <= i < |Queue(s, socket)| ==> Queue(s, socket)[i] < |s.commands|
    ensures |tickets| == |Queue(s, socket)|
  {
    seq(|Queue(s, socket)|, i requires 0 <= i < |Queue(s, socket)| => s.commands[Queue(s, socket)[i]])
  }

  lemma QueueInRange(s: State, socket: Socket)
    requires NoSharing(s)
    ensures forall i :: 0 <= i < |Queue(s, socket)| ==> Queue(s, socket)[i] < |s.commands|
  {
    forall i | 0 <= i < |Queue(s, socket)| ensures Queue(s, socket)[i] < |s.commands| {
      assert IsPlace(s, InQueue(socket, i)) && IdAt(s, InQueue(socket, i)) == Queue(s, socket)[i];
    }
  }

  // Every ticket issued on the socket is settled or waits, in the order issued.
  ghost predicate InOrder(s: State, socket: Socket)
  {
    && (forall i :: 0 <= i < |Queue(s, socket)| ==> Queue(s, socket)[i] < |s.commands|)
    && Log(s.issued, socket) == Log(s.settled, socket) + Waiting(s, socket)
  }

  ghost predicate Inv(s: State)
  {
    Bounded(s) && NoSharing(s)
  }

  const START: State := State([], map[], [], map[], map[])

  lemma StartInv()
    ensures Inv(START) && forall socket :: InOrder(START, socket)
  {
  }

  // The command that issuing takes is in no queue, so no waiting ticket is
  // overwritten.
  lemma IssueKeepsTickets(s: State, socket: Socket, ticket: Ticket, other: Socket, i: nat)
    requires Bounded(s) && NoSharing(s) && i < |Queue(s, other)|
    requires s.cache != [] ==> s.cache[0] < |s.commands|
    ensures Queue(s, other)[i] < |s.commands| <= |Issue(s, socket, ticket).commands|
    ensures Issue(s, socket, ticket).commands[Queue(s, other)[i]] == s.commands[Queue(s, other)[i]]
  {
    QueueInRange(s, other);
    if s.cache != [] {
      assert IsPlace(s, InCache(0)) && IsPlace(s, InQueue(other, i));
      assert IdAt(s, InCache(0)) != IdAt(s, InQueue(other, i));
    }
  }

  lemma CachedInRange(s: State)
    requires NoSharing(s)
    ensures s.cache != [] ==> s.cache[0] < |s.commands|
  {
    if s.cache != [] {
      assert IsPlace(s, InCache(0)) && IdAt(s, InCache(0)) == s.cache[0];
    }
  }

  lemma IssueBounded(s: State, socket: Socket, ticket: Ticket)
    requires Bounded(s) && NoSharing(s) && (s.cache != [] ==> s.cache[0] < |s.commands|)
    ensures Bounded(Issue(s, socket, ticket))
  {
  }

  lemma OthersInOrder(s: State, socket: Socket, ticket: Ticket, other: Socket)
    requires Bounded(s) && NoSharing(s) && InOrder(s, other) && other != socket
    requires s.cache != [] ==> s.cache[0] < |s.commands|
    ensures InOrder(Issue(s, socket, ticket), other)
  {
    var s' := Issue(s, socket, ticket);
    forall i | 0 <= i < |Queue(s, other)|
      ensures s'.commands[Queue(s, other)[i]] == s.commands[Queue(s, other)[i]]
    {
      IssueKeepsTickets(s, socket, ticket, other, i);
    }
    hide NoSharing, Bounded;
    assert Waiting(s', other) == Waiting(s, other);
  }

  lemma IssueAppends(s: State, socket: Socket, ticket: Ticket) returns (id: nat)
    requires Bounded(s) && |Queue(s, socket)| < CAPACITY
    requires s.cache != [] ==> s.cache[0] < |s.commands|
    ensures var s' := Issue(s, socket, ticket);
      && Queue(s', socket) == Queue(s, socket) + [id] && id < |s'.commands| && s'.commands[id] == ticket
      && Log(s'.issued, socket) == Log(s.issued, socket) + [ticket]
      && Log(s'.settled, socket) == Log(s.settled, socket)
  {
    id := if s.cache != [] then s.cache[0] else |s.commands|;
  }

  lemma RoomInOrder(s: State, socket: Socket, ticket: Ticket)
    requires Bounded(s) && NoSharing(s) && InOrder(s, socket) && |Queue(s, socket)| < CAPACITY
    requires s.cache != [] ==> s.cache[0] < |s.commands|
    ensures InOrder(Issue(s, socket, ticket), socket)
  {
    hide Issue, NoSharing, Bounded, Queue, Log;
    var s' := Issue(s, socket, ticket);
    var queue, waiting := Queue(s, socket), Waiting(s, socket);
    forall i | 0 <= i < |queue| ensures queue[i] < |s'.commands| && s'.commands[queue[i]] == s.commands[queue[i]] {
      IssueKeepsTickets(s, socket, ticket, socket, i);
    }
    var id := IssueAppends(s, socket, ticket);
    assert Waiting(s', socket) == waiting + [ticket];
    assert Log(s.settled, socket) + waiting + [ticket] == Log(s.settled, socket) + (waiting + [ticket]);
  }

  lemma FullNotInOrder(s: State, socket: Socket, ticket: Ticket)
    requires Bounded(s) && InOrder(s, socket) && |Queue(s, socket)| == CAPACITY
    requires s.cache != [] ==> s.cache[0] < |s.commands|
    ensures !InOrder(Issue(s, socket, ticket), socket)
  {
    var s' := Issue(s, socket, ticket);
    hide Bounded;
    assert |Log(s'.issued, socket)| == |Log(s'.settled, socket)| + |Queue(s', socket)| + 1;
  }

  // Issuing keeps the order of its socket exactly when the queue has room for
  // one more, and that of every other socket.
  lemma IssueInOrderExactly(s: State, socket: Socket, ticket: Ticket, other: Socket)
    requires Inv(s) && InOrder(s, other) && (s.cache != [] ==> s.cache[0] < |s.commands|)
    ensures InOrder(Issue(s, socket, ticket), other) <==> other != socket || |Queue(s, socket)| < 65536
  {
    assert |Queue(s, socket)| <= CAPACITY;
    hide InOrder, NoSharing, Bounded, Queue, Issue;
    if other != socket {
      OthersInOrder(s, socket, ticket, other);
    } else if |Queue(s, socket)| < CAPACITY {
      RoomInOrder(s, socket, ticket);
    } else {
      FullNotInOrder(s, socket, ticket);
    }
  }

  lemma IssueInv(s: State, socket: Socket, ticket: Ticket)
    requires Inv(s)
    ensures (s.cache != [] ==> s.cache[0] < |s.commands|) && Inv(Issue(s, socket, ticket))
  {
    CachedInRange(s);
    IssueKeepsSharing(s, socket, ticket);
    IssueBounded(s, socket, ticket);
  }

  lemma SettleInv(s: State, socket: Socket)
    requires Inv(s) && Queue(s, socket) != []
    ensures Queue(s, socket)[0] < |s.commands| && Inv(Settle(s, socket))
  {
    QueueInRange(s, socket);
    SettleKeepsSharing(s, socket);
    hide NoSharing;
  }

  // ---- What a full queue drops ----

  // The tickets of a log at these places.
  function Pick(log: seq<Ticket>, places: seq<nat>): (tickets: seq<Ticket>)
    requires forall i :: 0 <= i < |places| ==> places[i] < |log|
    ensures |tickets| == |places|
  {
    seq(|places|, i requires 0 <= i < |places| => log[places[i]])
  }

  predicate Rising(places: seq<nat>, limit: nat)
  {
    && (forall i :: 0 <= i < |places| ==> places[i] < limit)
    && (forall i, j :: 0 <= i < j < |places| ==> places[i] < places[j])
  }

  // The settled and the waiting tickets of the socket are, in order, the issued
  // ones at the places that are kept.
  ghost predicate Ordered(s: State, socket: Socket, kept: seq<nat>)
  {
    && (forall i :: 0 <= i < |Queue(s, socket)| ==> Queue(s, socket)[i] < |s.commands|)
    && Rising(kept, |Log(s.issued, socket)|)
    && Log(s.settled, socket) + Waiting(s, socket) == Pick(Log(s.issued, socket), kept)
  }

  function Without(places: seq<nat>, i: nat): seq<nat>
    requires i < |places|
  {
    places[..i] + places[i + 1..]
  }

  // The kept places after issuing one more: a full queue drops the oldest ticket
  // that waits.
  function KeptAfterIssue(s: State, socket: Socket, kept: seq<nat>): seq<nat>
    requires |Log(s.settled, socket)| + |Queue(s, socket)| == |kept|
  {
    var place := |Log(s.issued, socket)|;
    if |Queue(s, socket)| == CAPACITY then Without(kept, |Log(s.settled, socket)|) + [place] else kept + [place]
  }

  lemma OrderedSize(s: State, socket: Socket, kept: seq<nat>)
    requires Ordered(s, socket, kept)
    ensures |Log(s.settled, socket)| + |Queue(s, socket)| == |kept|
  {
    hide Queue, Log, Rising;
  }

  // The queue and the logs of the socket after issuing.
  lemma IssueQueue(s: State, socket: Socket, ticket: Ticket) returns (id: nat)
    requires Bounded(s) && (s.cache != [] ==> s.cache[0] < |s.commands|)
    ensures var s' := Issue(s, socket, ticket);
      && |Queue(s, socket)| <= CAPACITY && Queue(s', socket) == PushTo(Queue(s, socket), id)
      && id < |s'.commands| && s'.commands[id] == ticket
      && Log(s'.issued, socket) == Log(s.issued, socket) + [ticket]
      && Log(s'.settled, socket) == Log(s.settled, socket)
  {
    id := if s.cache != [] then s.cache[0] else |s.commands|;
  }

  lemma WaitingAfterIssue(s: State, socket: Socket, ticket: Ticket)
    requires Bounded(s) && NoSharing(s) && (s.cache != [] ==> s.cache[0] < |s.commands|)
    requires forall i :: 0 <= i < |Queue(s, socket)| ==> Queue(s, socket)[i] < |s.commands|
    ensures var s' := Issue(s, socket, ticket);
      && (forall i :: 0 <= i < |Queue(s', socket)| ==> Queue(s', socket)[i] < |s'.commands|)
      && |Queue(s, socket)| <= CAPACITY
      && Waiting(s', socket) == PushTo(Waiting(s, socket), ticket)
  {
    hide Issue, NoSharing, Bounded, Queue, Log;
    var s', queue := Issue(s, socket, ticket), Queue(s, socket);
    forall i | 0 <= i < |queue| ensures queue[i] < |s'.commands| && s'.commands[queue[i]] == s.commands[queue[i]] {
      IssueKeepsTickets(s, socket, ticket, socket, i);
    }
    var id := IssueQueue(s, socket, ticket);
    assert Waiting(s', socket) == PushTo(Waiting(s, socket), ticket);
  }

  lemma PickSnoc(log: seq<Ticket>, places: seq<nat>, ticket: Ticket)
    requires Rising(places, |log|)
    ensures Rising(places + [|log|], |log + [ticket]|)
    ensures Pick(log + [ticket], places + [|log|]) == Pick(log, places) + [ticket]
  {
  }

  lemma PickWithout(log: seq<Ticket>, places: seq<nat>, i: nat)
    requires Rising(places, |log|) && i < |places|
    ensures Rising(Without(places, i), |log|)
    ensures Pick(log, Without(places, i)) == Pick(log, places)[..i] + Pick(log, places)[i + 1..]
  {
  }

  lemma PickRoom(log: seq<Ticket>, places: seq<nat>, settled: seq<Ticket>, waiting: seq<Ticket>, ticket: Ticket)
    requires Rising(places, |log|) && settled + waiting == Pick(log, places)
    ensures Rising(places + [|log|], |log + [ticket]|)
    ensures settled + (waiting + [ticket]) == Pick(log + [ticket], places + [|log|])
  {
    PickSnoc(log, places, ticket);
    hide Pick, Rising;
    assert settled + waiting + [ticket] == settled + (waiting + [ticket]);
  }

  lemma PickFull(log: seq<Ticket>, places: seq<nat>, settled: seq<Ticket>, waiting: seq<Ticket>, ticket: Ticket)
    requires Rising(places, |log|) && settled + waiting == Pick(log, places) && waiting != []
    ensures |settled| < |places|
    ensures var kept := Without(places, |settled|);
      Rising(kept + [|log|], |log + [ticket]|) &&
      settled + (waiting[1..] + [ticket]) == Pick(log + [ticket], kept + [|log|])
  {
    PickWithout(log, places, |settled|);
    hide Pick, Rising, Without;
    assert (settled + waiting)[..|settled|] == settled && (settled + waiting)[|settled| + 1..] == waiting[1..];
    PickRoom(log, Without(places, |settled|), settled, waiting[1..], ticket);
  }

  lemma IssueOrdered(s: State, socket: Socket, ticket: Ticket, kept: seq<nat>)
    requires Inv(s) && Ordered(s, socket, kept) && (s.cache != [] ==> s.cache[0] < |s.commands|)
    ensures |Log(s.settled, socket)| + |Queue(s, socket)| == |kept|
    ensures Ordered(Issue(s, socket, ticket), socket, KeptAfterIssue(s, socket, kept))
  {
    OrderedSize(s, socket, kept);
    WaitingAfterIssue(s, socket, ticket);
    var id := IssueQueue(s, socket, ticket);
    hide Issue, NoSharing, Bounded, Queue, Log, Rising, Pick, Without, Waiting;
    if |Queue(s, socket)| == CAPACITY {
      PickFull(Log(s.issued, socket), kept, Log(s.settled, socket), Waiting(s, socket), ticket);
    } else {
      PickRoom(Log(s.issued, socket), kept, Log(s.settled, socket), Waiting(s, socket), ticket);
    }
  }

  // Issuing leaves the queue and the logs of every other socket as they were.
  lemma OthersUntouched(s: State, socket: Socket, ticket: Ticket, other: Socket)
    requires Bounded(s) && other != socket && (s.cache != [] ==> s.cache[0] < |s.commands|)
    ensures var s' := Issue(s, socket, ticket);
      && Queue(s', other) == Queue(s, other) && Log(s'.issued, other) == Log(s.issued, other)
      && Log(s'.settled, other) == Log(s.settled, other) && |s'.commands| >= |s.commands|
  {
  }

  lemma OthersOrdered(s: State, socket: Socket, ticket: Ticket, other: Socket, kept: seq<nat>)
    requires Inv(s) && Ordered(s, other, kept) && other != socket && (s.cache != [] ==> s.cache[0] < |s.commands|)
    ensures Ordered(Issue(s, socket, ticket), other, kept)
  {
    var s' := Issue(s, socket, ticket);
    OthersUntouched(s, socket, ticket, other);
    hide Issue, NoSharing, Bounded, Queue, Log, Rising, Pick;
    forall i | 0 <= i < |Queue(s, other)|
      ensures s'.commands[Queue(s, other)[i]] == s.commands[Queue(s, other)[i]]
    {
      IssueKeepsTickets(s, socket, ticket, other, i);
    }
    assert Waiting(s', other) == Waiting(s, other);
  }

  // What settling changes and what it leaves.
  lemma SettleParts(s: State, socket: Socket, other: Socket)
    requires Bounded(s) && Queue(s, socket) != [] && Queue(s, socket)[0] < |s.commands|
    ensures var s', same := Settle(s, socket), other == socket;
      && s'.commands == s.commands && Log(s'.issued, other) == Log(s.issued, other)
      && Queue(s', other) == (if same then Queue(s, other)[1..] else Queue(s, other))
      && Log(s'.settled, other)
      == Log(s.settled, other) + if same then [s.commands[Queue(s, socket)[0]]] else []
  {
  }

  // A completion settles the oldest ticket that waits.
  lemma SettleOrdered(s: State, socket: Socket, other: Socket, kept: seq<nat>)
    requires Inv(s) && Ordered(s, other, kept) && Queue(s, socket) != [] && Queue(s, socket)[0] < |s.commands|
    ensures Ordered(Settle(s, socket), other, kept)
    ensures other == socket ==>
      && |Log(s.settled, socket)| < |kept| && kept[|Log(s.settled, socket)|] < |Log(s.issued, socket)|
      && Log(Settle(s, socket).settled, socket)
      == Log(s.settled, socket) + [Log(s.issued, socket)[kept[|Log(s.settled, socket)|]]]
  {
    OrderedSize(s, other, kept);
    SettleParts(s, socket, other);
    var s' := Settle(s, socket);
    hide Settle, Bounded, NoSharing, Queue, Log;
    if other == socket {
      OldestSettled(s, socket, kept);
      var settled, waiting := Log(s.settled, socket), Waiting(s, socket);
      hide Rising, Pick;
      assert Waiting(s', socket) == waiting[1..];
      assert settled + waiting == settled + [waiting[0]] + waiting[1..];
    } else {
      hide Rising, Pick;
      assert Waiting(s', other) == Waiting(s, other);
    }
  }

  lemma OldestSettled(s: State, socket: Socket, kept: seq<nat>)
    requires Ordered(s, socket, kept) && Queue(s, socket) != []
    ensures |Log(s.settled, socket)| < |kept| && kept[|Log(s.settled, socket)|] < |Log(s.issued, socket)|
    ensures s.commands[Queue(s, socket)[0]] == Log(s.issued, socket)[kept[|Log(s.settled, socket)|]]
  {
    hide Queue, Log;
    var settled, waiting := Log(s.settled, socket), Waiting(s, socket);
    assert |settled + waiting| == |kept| && (settled + waiting)[|settled|] == waiting[0];
  }

  // ---- Runs ----

  datatype Action = DoIssue(socket: Socket, ticket: Ticket) | DoSettle(socket: Socket)

  // Issuing is always possible; the server completes only what waits.
  predicate Enabled(s: State, a: Action)
  {
    match a
    case DoIssue(socket, _) => Bounded(s) && (s.cache != [] ==> s.cache[0] < |s.commands|)
    case DoSettle(socket) => Bounded(s) && Queue(s, socket) != [] && Queue(s, socket)[0] < |s.commands|
  }

  function Apply(s: State, a: Action): State
    requires Enabled(s, a)
  {
    match a
    case DoIssue(socket, ticket) => Issue(s, socket, ticket)
    case DoSettle(socket) => Settle(s, socket)
  }

  ghost predicate IsRun(states: seq<State>, actions: seq<Action>)
  {
    && |states| == |actions| + 1
    && states[0] == START
    && forall i :: 0 <= i < |actions| ==>
         Enabled(states[i], actions[i]) && states[i + 1] == Apply(states[i], actions[i])
  }

  lemma {:induction false} RunInv(states: seq<State>, actions: seq<Action>, i: nat)
    requires IsRun(states, actions) && i < |states|
    ensures Inv(states[i])
  {
    if i == 0 {
      StartInv();
    } else {
      var s, a := states[i - 1], actions[i - 1];
      RunInv(states, actions, i - 1);
      assert states[i] == Apply(s, a);
      hide Inv, Bounded, IsRun;
      match a
      case DoIssue(socket, ticket) => IssueInv(s, socket, ticket);
      case DoSettle(socket) => SettleInv(s, socket);
    }
  }

  // The places of the issued tickets of the socket that have not been dropped
  // by the i-th state of a run.
  function Kept(states: seq<State>, actions: seq<Action>, i: nat, socket: Socket): (kept: seq<nat>)
    requires i < |states| && i <= |actions|
  {
    if i == 0 then []
    else
      var kept := Kept(states, actions, i - 1, socket);
      var s := states[i - 1];
      if actions[i - 1].DoIssue? && actions[i - 1].socket == socket &&
         |Log(s.settled, socket)| + |Queue(s, socket)| == |kept|
      then KeptAfterIssue(s, socket, kept)
      else kept
  }

  // Over every run, whatever the sockets interleave and however often queues
  // overflow: settled and waiting are the issued tickets without the dropped.
  lemma {:induction false} RunOrdered(states: seq<State>, actions: seq<Action>, i: nat, socket: Socket)
    requires IsRun(states, actions) && i < |states|
    ensures Ordered(states[i], socket, Kept(states, actions, i, socket))
  {
    if i > 0 {
      var s, a := states[i - 1], actions[i - 1];
      var kept := Kept(states, actions, i - 1, socket);
      RunInv(states, actions, i - 1);
      RunOrdered(states, actions, i - 1, socket);
      assert states[i] == Apply(s, a) && Enabled(s, a);
      hide Inv, Bounded, IsRun, Ordered, KeptAfterIssue;
      match a
      case DoIssue(other, ticket) =>
        if other == socket {
          IssueOrdered(s, socket, ticket, kept);
        } else {
          OthersOrdered(s, other, ticket, socket, kept);
        }
      case DoSettle(other) => SettleOrdered(s, other, socket, kept);
    }
  }

  // The i-th action of the run issues on a full queue of the socket.
  predicate Overflows(states: seq<State>, actions: seq<Action>, i: nat, socket: Socket)
    requires i < |actions| && i < |states|
  {
    actions[i].DoIssue? && actions[i].socket == socket && |Queue(states[i], socket)| == 65536
  }

  // How many tickets have been dropped.
  function Drops(states: seq<State>, actions: seq<Action>, i: nat, socket: Socket): nat
    requires i <= |actions| && i < |states|
  {
    if i == 0 then 0
    else Drops(states, actions, i - 1, socket) + if Overflows(states, actions, i - 1, socket) then 1 else 0
  }

  // One action issues or drops as many tickets as it adds to the kept ones.
  lemma ActionCounted(s: State, a: Action, socket: Socket, kept: seq<nat>)
    requires Enabled(s, a) && |Log(s.settled, socket)| + |Queue(s, socket)| == |kept|
    ensures var issues := a.DoIssue? && a.socket == socket;
      && |Log(Apply(s, a).issued, socket)| == |Log(s.issued, socket)| + (if issues then 1 else 0)
      && (issues ==>
            |KeptAfterIssue(s, socket, kept)| == |kept| + (if |Queue(s, socket)| == CAPACITY then 0 else 1))
  {
    hide Bounded;
  }

  lemma {:induction false} DropsCounted(states: seq<State>, actions: seq<Action>, i: nat, socket: Socket)
    requires IsRun(states, actions) && i < |states|
    ensures |Kept(states, actions, i, socket)| + Drops(states, actions, i, socket) == |Log(states[i].issued, socket)|
  {
    if i > 0 {
      var s := states[i - 1];
      DropsCounted(states, actions, i - 1, socket);
      RunOrdered(states, actions, i - 1, socket);
      assert states[i] == Apply(s, actions[i - 1]) && Enabled(s, actions[i - 1]);
      hide IsRun, Ordered, NoSharing, Enabled, Apply, KeptAfterIssue, Queue, Log;
      OrderedSize(s, socket, Kept(states, actions, i - 1, socket));
      ActionCounted(s, actions[i - 1], socket, Kept(states, actions, i - 1, socket));
    }
  }

  lemma {:induction false} NoDrops(states: seq<State>, actions: seq<Action>, i: nat, socket: Socket)
    requires i <= |actions| && i < |states|
    ensures Drops(states, actions, i, socket) == 0 <==>
            forall j :: 0 <= j < i ==> !Overflows(states, actions, j, socket)
  {
    hide Overflows;
    if i > 0 {
      NoDrops(states, actions, i - 1, socket);
    }
  }

  lemma {:induction false} RisingBound(places: seq<nat>, limit: nat, i: nat)
    requires Rising(places, limit) && i < |places|
    ensures i <= places[i] && places[i] + |places| - i <= limit
    decreases |places| - i
  {
    RisingFront(places, limit, i);
    if i + 1 < |places| {
      RisingBound(places, limit, i + 1);
    }
  }

  lemma {:induction false} RisingFront(places: seq<nat>, limit: nat, i: nat)
    requires Rising(places, limit) && i < |places|
    ensures i <= places[i]
  {
    if i > 0 {
      RisingFront(places, limit, i - 1);
    }
  }

  // With every place kept, nothing is left out.
  lemma PickAll(log: seq<Ticket>, places: seq<nat>)
    requires Rising(places, |log|) && |places| == |log|
    ensures Pick(log, places) == log
  {
    forall i | 0 <= i < |places| ensures places[i] == i {
      RisingBound(places, |log|, i);
    }
  }

  // Over every run the order of a socket is kept exactly when nothing was issued
  // on a full queue of it.
  lemma OrderKeptExactly(states: seq<State>, actions: seq<Action>, i: nat, socket: Socket)
    requires IsRun(states, actions) && i < |states|
    ensures InOrder(states[i], socket) <==>
            forall j :: 0 <= j < i ==> !Overflows(states, actions, j, socket)
  {
    var kept := Kept(states, actions, i, socket);
    RunOrdered(states, actions, i, socket);
    DropsCounted(states, actions, i, socket);
    NoDrops(states, actions, i, socket);
    hide IsRun, Kept, Drops, Overflows, Queue, Log, Rising;
    if |kept| == |Log(states[i].issued, socket)| {
      PickAll(Log(states[i].issued, socket), kept);
    }
  }

  // The k-th completion of a socket settles its k-th command, as long as nothing
  // was issued on a full queue of it; and no command is in two places at once.
  lemma SettledInOrder(states: seq<State>, actions: seq<Action>, i: nat, socket: Socket)
    requires IsRun(states, actions) && i < |states|
    ensures (forall j :: 0 <= j < i ==> !Overflows(states, actions, j, socket)) ==>
      Log(states[i].settled, socket) <= Log(states[i].issued, socket)
    ensures NoSharing(states[i])
  {
    RunInv(states, actions, i);
    OrderKeptExactly(states, actions, i, socket);
    hide IsRun, Overflows;
  }

  // A ticket that has been dropped stays dropped.
  lemma {:induction false} StaysDropped(states: seq<State>, actions: seq<Action>, i: nat, j: nat, socket: Socket,
                                        place: nat)
    requires IsRun(states, actions) && i <= j < |states|
    requires place < |Log(states[i].issued, socket)| && place !in Kept(states, actions, i, socket)
    ensures place < |Log(states[j].issued, socket)| && place !in Kept(states, actions, j, socket)
    decreases j
  {
    hide *;
    RunStep(states, actions, j);
    if i < j {
      StaysDropped(states, actions, i, j - 1, socket, place);
      StillDropped(states[j - 1], actions[j - 1], socket, Kept(states, actions, j - 1, socket), place);
      KeptStep(states, actions, j, socket);
    }
  }

  lemma RunStep(states: seq<State>, actions: seq<Action>, j: nat)
    requires IsRun(states, actions) && j < |states|
    ensures |states| == |actions| + 1
    ensures j > 0 ==> Enabled(states[j - 1], actions[j - 1]) && states[j] == Apply(states[j - 1], actions[j - 1])
  {
    hide Enabled, Apply;
  }

  lemma KeptStep(states: seq<State>, actions: seq<Action>, j: nat, socket: Socket)
    requires 0 < j < |states| && j <= |actions|
    ensures var before, kept := Kept(states, actions, j - 1, socket), Kept(states, actions, j, socket);
      var s := states[j - 1];
      kept == before || (|Log(s.settled, socket)| + |Queue(s, socket)| == |before| &&
                         kept == KeptAfterIssue(s, socket, before))
  {
    hide KeptAfterIssue, Queue, Log;
  }

  // Only kept tickets are settled, in order: one that a full queue has dropped is
  // never among them.
  lemma DroppedNeverSettled(states: seq<State>, actions: seq<Action>, i: nat, j: nat, socket: Socket, place: nat)
    requires IsRun(states, actions) && i <= j < |states|
    requires place < |Log(states[i].issued, socket)| && place !in Kept(states, actions, i, socket)
    ensures var kept, settled := Kept(states, actions, j, socket), Log(states[j].settled, socket);
      && place < |Log(states[j].issued, socket)| && place !in kept
      && Rising(kept, |Log(states[j].issued, socket)|) && |settled| <= |kept|
      && settled == Pick(Log(states[j].issued, socket), kept)[..|settled|]
  {
    hide *;
    StaysDropped(states, actions, i, j, socket, place);
    OnlyKeptSettled(states, actions, j, socket);
  }

  lemma OnlyKeptSettled(states: seq<State>, actions: seq<Action>, j: nat, socket: Socket)
    requires IsRun(states, actions) && j < |states|
    ensures var kept, settled := Kept(states, actions, j, socket), Log(states[j].settled, socket);
      && Rising(kept, |Log(states[j].issued, socket)|) && |settled| <= |kept|
      && settled == Pick(Log(states[j].issued, socket), kept)[..|settled|]
  {
    RunOrdered(states, actions, j, socket);
    hide IsRun, Kept, Queue, Log, Pick;
    OrderedSize(states[j], socket, Kept(states, actions, j, socket));
    var settled, waiting := Log(states[j].settled, socket), Waiting(states[j], socket);
    assert (settled + waiting)[..|settled|] == settled;
  }

  lemma StillDropped(s: State, a: Action, socket: Socket, kept: seq<nat>, place: nat)
    requires Enabled(s, a) && place < |Log(s.issued, socket)| && place !in kept
    ensures place < |Log(Apply(s, a).issued, socket)|
    ensures |Log(s.settled, socket)| + |Queue(s, socket)| == |kept| ==> place !in KeptAfterIssue(s, socket, kept)
  {
  }

  // ---- No command is lost ----

  // A command is made exactly when a query is issued with an empty cache. Else
  // the command that was cached first is used again.
  lemma CommandsReused(states: seq<State>, actions: seq<Action>, i: nat)
    requires IsRun(states, actions) && i < |actions|
    ensures var (s, s') := (states[i], states[i + 1]);
      if actions[i].DoIssue? then
        var queue := Queue(s', actions[i].socket);
        && queue != [] && queue[|queue| - 1] < |s'.commands|
        && s'.commands[queue[|queue| - 1]] == actions[i].ticket
        && if s.cache == [] then |s'.commands| == |s.commands| + 1 && s'.cache == []
           else |s'.commands| == |s.commands| && s.cache == [queue[|queue| - 1]] + s'.cache
      else
        && s'.commands == s.commands && s'.cache != []
        && Queue(s, actions[i].socket) == [s'.cache[|s'.cache| - 1]] + Queue(s', actions[i].socket)
  {
    var s, a := states[i], actions[i];
    assert states[i + 1] == Apply(s, a) && Enabled(s, a);
    hide IsRun;
    if a.DoIssue? {
      assert s.cache != [] ==> s.cache == [s.cache[0]] + s.cache[1..];
    } else {
      var queue := Queue(s, a.socket);
      assert queue == [queue[0]] + queue[1..];
    }
  }

  ghost predicate IsSomewhere(s: State, id: nat)
  {
    exists p :: IsPlace(s, p) && IdAt(s, p) == id
  }

  ghost predicate AllSomewhere(s: State)
  {
    forall id :: 0 <= id < |s.commands| ==> IsSomewhere(s, id)
  }

  // The action drops nothing: the queue that it adds to has room.
  predicate HasRoom(s: State, a: Action)
  {
    match a
    case DoIssue(socket, _) => |Queue(s, socket)| < 65536
    case DoSettle(_) => |s.cache| < 65536
  }

  // Where a place of a command has gone.
  function PlaceAfter(s: State, a: Action, p: Place): Place
    requires Enabled(s, a) && IsPlace(s, p)
  {
    match p
    case InCache(i) =>
      if !a.DoIssue? then p else if i > 0 then InCache(i - 1) else InQueue(a.socket, |Queue(s, a.socket)|)
    case InQueue(socket, i) =>
      if a.DoIssue? || socket != a.socket then p else if i > 0 then InQueue(socket, i - 1) else InCache(|s.cache|)
  }

  lemma PlaceKept(s: State, a: Action, p: Place)
    requires Enabled(s, a) && HasRoom(s, a) && IsPlace(s, p)
    ensures var (s', q) := (Apply(s, a), PlaceAfter(s, a, p)); IsPlace(s', q) && IdAt(s', q) == IdAt(s, p)
  {
  }

  lemma StepLosesNone(s: State, a: Action)
    requires Enabled(s, a) && HasRoom(s, a) && AllSomewhere(s)
    ensures AllSomewhere(Apply(s, a))
  {
    var s' := Apply(s, a);
    hide Bounded;
    forall id | 0 <= id < |s'.commands| ensures IsSomewhere(s', id) {
      if id < |s.commands| {
        assert IsSomewhere(s, id);
        var p :| IsPlace(s, p) && IdAt(s, p) == id;
        PlaceKept(s, a, p);
      } else {
        NewIsQueued(s, a);
        assert IsPlace(s', InQueue(a.socket, |Queue(s, a.socket)|));
      }
    }
  }

  lemma NewIsQueued(s: State, a: Action)
    requires Enabled(s, a) && HasRoom(s, a) && |Apply(s, a).commands| > |s.commands|
    ensures a.DoIssue? && |Apply(s, a).commands| == |s.commands| + 1
    ensures Queue(Apply(s, a), a.socket) == Queue(s, a.socket) + [|s.commands|]
  {
  }

  // Over every run in which no queue overflows every command that was ever made
  // is in the cache or in the queue of a socket, and in one place only.
  lemma {:induction false} NoneLost(states: seq<State>, actions: seq<Action>, i: nat)
    requires IsRun(states, actions) && i < |states|
    requires forall j :: 0 <= j < i ==> HasRoom(states[j], actions[j])
    ensures AllSomewhere(states[i]) && NoSharing(states[i])
  {
    RunInv(states, actions, i);
    if i > 0 {
      NoneLost(states, actions, i - 1);
      assert states[i] == Apply(states[i - 1], actions[i - 1]) && Enabled(states[i - 1], actions[i - 1]);
      hide IsRun, Enabled, Apply, HasRoom, AllSomewhere, NoSharing;
      StepLosesNone(states[i - 1], actions[i - 1]);
    }
  }

  // ---- A run that overflows ----

  // Issuing that many commands on socket 0.
  lemma {:induction false} FillingRun(n: nat) returns (states: seq<State>, actions: seq<Action>)
    requires n <= CAPACITY + 1
    ensures IsRun(states, actions) && |actions| == n
    ensures forall i :: 0 <= i < n ==> actions[i].DoIssue? && actions[i].socket == 0
    ensures |Queue(states[n], 0)| == if n <= CAPACITY then n else CAPACITY
    ensures n > CAPACITY ==> Overflows(states, actions, CAPACITY, 0)
  {
    if n == 0 {
      states, actions := [START], [];
    } else {
      states, actions := FillingRun(n - 1);
      var s, before := states[n - 1], actions;
      RunInv(states, actions, n - 1);
      CachedInRange(s);
      var id := IssueQueue(s, 0, n);
      RunSnoc(states, actions, DoIssue(0, n));
      hide NoSharing, Bounded, Issue, Queue, IsRun;
      states, actions := states + [Issue(s, 0, n)], actions + [DoIssue(0, n)];
      assert forall i :: 0 <= i < n - 1 ==> actions[i] == before[i];
    }
  }

  lemma RunSnoc(states: seq<State>, actions: seq<Action>, a: Action)
    requires IsRun(states, actions) && Enabled(states[|actions|], a)
    ensures IsRun(states + [Apply(states[|actions|], a)], actions + [a])
  {
    hide Apply, Enabled;
    var longer, more := states + [Apply(states[|actions|], a)], actions + [a];
    forall i | 0 <= i < |more| ensures Enabled(longer[i], more[i]) && longer[i + 1] == Apply(longer[i], more[i]) {
      if i < |actions| {
        assert longer[i] == states[i] && longer[i + 1] == states[i + 1] && more[i] == actions[i];
      }
    }
  }

  // A queue can be filled, and then one more command is lost.
  lemma QueueOverflows() returns (states: seq<State>, actions: seq<Action>)
    ensures IsRun(states, actions) && |actions| == 65537
    ensures !InOrder(states[65537], 0)
  {
    states, actions := FillingRun(CAPACITY + 1);
    OrderKeptExactly(states, actions, CAPACITY + 1, 0);
    hide *;
  }
}
