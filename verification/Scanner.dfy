// The worklist of lib/parse.js: platform sets propagated over the import graph.
module Scanner {
  import opened Prelude
  import opened Guards
  import opened GuardTheorems
  import opened Paths

  // What reading and parsing a file gives.
  datatype Source = Unreadable | Parsed(tree: Node)

  // The files there are, and the root that bare specifiers are relative to.
  datatype World = World(sources: map<string, Source>, root: string)

  type PlatformMap = map<string, set<Platform>>

  datatype Report = Report(bindings: PlatformMap, libs: set<string>)

  // ---- The import graph ----

  predicate IsParsed(w: World, file: string)
  {
    file in w.sources && w.sources[file].Parsed?
  }

  // The file holds this event under guards that admit platform p.
  predicate Admits(w: World, file: string, p: Platform, event: Event)
  {
    IsParsed(w, file) && Reports(Sites(w.sources[file].tree), PLATFORMS, p, event)
  }

  ghost predicate Edge(w: World, p: Platform, from: string, to: string)
  {
    to in w.sources && exists specifier ::
      Admits(w, from, p, Import(specifier)) && Locate(specifier, from, w.root) == to
  }

  ghost predicate IsChain(w: World, p: Platform, chain: seq<string>)
  {
    chain != [] && forall i :: 0 <= i < |chain| - 1 ==> Edge(w, p, chain[i], chain[i + 1])
  }

  // Some chain of imports, every one admitting p, leads from the entry to the file.
  ghost predicate Reached(w: World, entry: string, p: Platform, file: string)
  {
    exists chain :: IsChain(w, p, chain) && chain[0] == entry && chain[|chain| - 1] == file
  }

  lemma EntryReached(w: World, entry: string, p: Platform)
    ensures Reached(w, entry, p, entry)
  {
    assert IsChain(w, p, [entry]);
  }

  lemma ReachedStep(w: World, entry: string, p: Platform, from: string, to: string)
    requires Reached(w, entry, p, from) && Edge(w, p, from, to)
    ensures Reached(w, entry, p, to)
  {
    hide Edge;
    var chain :| IsChain(w, p, chain) && chain[0] == entry && chain[|chain| - 1] == from;
    var longer := chain + [to];
    forall i | 0 <= i < |longer| - 1 ensures Edge(w, p, longer[i], longer[i + 1]) {
      assert i < |chain| - 1 ==> Edge(w, p, chain[i], chain[i + 1]);
    }
    assert IsChain(w, p, longer) && longer[0] == entry && longer[|longer| - 1] == to;
  }

  // ---- Merging ----

  predicate Has(m: PlatformMap, key: string, p: Platform)
  {
    key in m && p in m[key]
  }

  lemma SubsetSize(a: set<Platform>, b: set<Platform>)
    requires a <= b
    ensures |a| <= |b| && (|a| == |b| ==> a == b)
  {
    assert b == a + (b - a);
    assert |b| == |a| + |b - a|;
  }

  // No key is kept without a platform.
  predicate NonEmpty(m: PlatformMap)
  {
    forall key :: key in m ==> m[key] != {}
  }

  // The merge of lib/parse.js: union the platforms into the entry and say
  // whether it grew.
  method Merge(m: PlatformMap, key: string, platforms: set<Platform>) returns (merged: PlatformMap, grew: bool)
    ensures merged.Keys == m.Keys + {key}
    ensures forall k, p :: Has(merged, k, p) <==> Has(m, k, p) || (k == key && p in platforms)
    ensures grew <==> key !in m || !(platforms <= m[key])
    ensures !grew ==> merged == m
    ensures NonEmpty(m) && platforms != {} ==> NonEmpty(merged)
  {
    if key !in m {
      return m[key := platforms], true;
    }
    var current := m[key];
    var union := current + platforms;
    SubsetSize(current, union);
    assert platforms <= current <==> union == current;
    if |union| == |current| {
      return m, false;
    }
    return m[key := union], true;
  }

  // ---- One file ----

  // One of the first n events of a file is this one, under guards that admit p.
  predicate AdmitsBefore(found: seq<Found>, n: nat, p: Platform, event: Event)
    requires n <= |found|
  {
    exists i :: 0 <= i < n && found[i].event == event && p in Guarded(PLATFORMS, found[i].path)
  }

  lemma AdmitsNext(found: seq<Found>, n: nat, p: Platform, event: Event)
    requires n < |found|
    ensures AdmitsBefore(found, n + 1, p, event) <==>
      AdmitsBefore(found, n, p, event) || (found[n].event == event && p in Guarded(PLATFORMS, found[n].path))
  {
    hide Guarded;
  }

  method RecordBindings(w: World, file: string, platforms: set<Platform>, bindings: PlatformMap)
    returns (recorded: PlatformMap)
    requires IsParsed(w, file) && NonEmpty(bindings)
    ensures forall name, p :: Has(recorded, name, p) <==>
      Has(bindings, name, p) || (p in platforms && Admits(w, file, p, Load(name)))
    ensures NonEmpty(recorded)
  {
    hide Guarded, NonEmpty, Sites;
    var found := Sites(w.sources[file].tree);
    recorded := bindings;
    for k := 0 to |found|
      invariant forall name, p :: Has(recorded, name, p) <==>
        Has(bindings, name, p) || (p in platforms && AdmitsBefore(found, k, p, Load(name)))
      invariant NonEmpty(recorded)
    {
      ghost var before := recorded;
      if found[k].event.Load? {
        var narrowed := NarrowAlong(platforms, found[k].path);
        GuardedIntersects(platforms, found[k].path);
        if narrowed != {} {
          var grew;
          recorded, grew := Merge(recorded, found[k].event.name, narrowed);
        }
      }
      hide AdmitsBefore;
      forall name, p
        ensures Has(recorded, name, p) <==>
          Has(bindings, name, p) || (p in platforms && AdmitsBefore(found, k + 1, p, Load(name)))
      {
        AdmitsNext(found, k, p, Load(name));
        var narrowed := Guarded(platforms, found[k].path);
        if found[k].event.Load? && narrowed != {} {
          assert Has(recorded, name, p) <==>
            (Has(before, name, p) || (name == found[k].event.name && p in narrowed));
        } else {
          assert recorded == before && (found[k].event.Load? ==> p !in narrowed);
        }
      }
    }
  }

  // A file to scan, on the platforms it was known to be reached on when queued.
  datatype Item = Item(file: string, platforms: set<Platform>)

  function Count(queue: seq<Item>, file: string): nat
  {
    if queue == [] then 0
    else Count(queue[..|queue| - 1], file) + if queue[|queue| - 1].file == file then 1 else 0
  }

  function Size(m: PlatformMap, key: string): nat
  {
    if key in m then |m[key]| else 0
  }

  ghost predicate Pending(queue: seq<Item>, file: string, p: Platform)
  {
    exists i :: 0 <= i < |queue| && queue[i].file == file && p in queue[i].platforms
  }

  // The queue holds only what is already recorded as reached.
  ghost predicate IsSnapshot(queue: seq<Item>, reached: PlatformMap)
  {
    && (forall i :: 0 <= i < |queue| ==> queue[i].platforms != {})
    && (forall i, p :: 0 <= i < |queue| && p in queue[i].platforms ==> Has(reached, queue[i].file, p))
  }

  // The pairs of a file and a platform that are still to be reached.
  function Missing(w: World, entry: string, reached: PlatformMap): set<(string, Platform)>
  {
    set file, p | file in w.sources.Keys + {entry} && p in PLATFORMS && !Has(reached, file, p) :: (file, p)
  }

  // One of the first n events of the file imports this one under guards that admit p.
  ghost predicate EdgeBefore(w: World, found: seq<Found>, n: nat, p: Platform, from: string, to: string)
    requires n <= |found|
  {
    to in w.sources && exists specifier ::
      AdmitsBefore(found, n, p, Import(specifier)) && Locate(specifier, from, w.root) == to
  }

  lemma EdgeNext(w: World, found: seq<Found>, n: nat, p: Platform, from: string, to: string)
    requires n < |found|
    ensures EdgeBefore(w, found, n + 1, p, from, to) <==>
      || EdgeBefore(w, found, n, p, from, to)
      || (to in w.sources && found[n].event.Import? && p in Guarded(PLATFORMS, found[n].path) &&
          Locate(found[n].event.specifier, from, w.root) == to)
  {
    hide Guarded, Locate, AdmitsBefore;
    forall specifier {
      AdmitsNext(found, n, p, Import(specifier));
    }
    if to in w.sources && found[n].event.Import? && p in Guarded(PLATFORMS, found[n].path) &&
       Locate(found[n].event.specifier, from, w.root) == to {
      AdmitsNext(found, n, p, Import(found[n].event.specifier));
    }
  }

  lemma EdgeWhole(w: World, p: Platform, from: string, to: string)
    requires IsParsed(w, from)
    ensures var found := Sites(w.sources[from].tree);
      EdgeBefore(w, found, |found|, p, from, to) <==> Edge(w, p, from, to)
  {
    hide Guarded, Locate, Sites;
    var found := Sites(w.sources[from].tree);
    forall specifier
      ensures AdmitsBefore(found, |found|, p, Import(specifier)) <==> Admits(w, from, p, Import(specifier))
    {
    }
  }

  type Targets = set<(string, Platform)>

  function On(file: string, platforms: set<Platform>): Targets
  {
    set p | p in platforms :: (file, p)
  }

  // What following the imports of a file adds: targets to reach, libraries to
  // report, and for every target that is new on a platform an item to scan.
  ghost predicate ReachesTargets(targets: Targets, reached: PlatformMap, reached': PlatformMap)
  {
    forall g, p :: Has(reached', g, p) <==> Has(reached, g, p) || (g, p) in targets
  }

  ghost predicate ReportsLibs(w: World, entry: string, targets: Targets, libs: PlatformMap, libs': PlatformMap)
  {
    forall key :: key in libs' <==>
      key in libs || exists t :: t in targets && t.0 != entry && KeyOf(t.0, w.root) == key
  }

  ghost predicate QueuesNew(reached: PlatformMap, queue: seq<Item>, reached': PlatformMap, queue': seq<Item>)
  {
    && queue <= queue'
    && IsSnapshot(queue', reached')
    && (forall g, p :: Has(reached, g, p) ==> Has(reached', g, p))
    && (forall g, p :: Has(reached', g, p) ==> Has(reached, g, p) || Pending(queue', g, p))
    && (forall g :: Count(queue', g) + Size(reached, g) <= Count(queue, g) + Size(reached', g))
    && (queue' == queue ==> reached' == reached)
    && (queue' != queue ==> exists g, p :: Has(reached', g, p) && !Has(reached, g, p))
  }

  lemma ReachTarget(targets: Targets, reached: PlatformMap, mid: PlatformMap, reached': PlatformMap,
                    dep: string, narrowed: set<Platform>)
    requires ReachesTargets(targets, reached, mid)
    requires forall k, p :: Has(reached', k, p) <==> Has(mid, k, p) || (k == dep && p in narrowed)
    ensures ReachesTargets(targets + On(dep, narrowed), reached, reached')
  {
    hide Has;
  }

  lemma ReportLib(w: World, entry: string, targets: Targets, libs: PlatformMap, mid: PlatformMap, libs': PlatformMap,
                  dep: string, narrowed: set<Platform>)
    requires ReportsLibs(w, entry, targets, libs, mid) && narrowed != {}
    requires if dep == entry then libs' == mid else libs'.Keys == mid.Keys + {KeyOf(dep, w.root)}
    ensures ReportsLibs(w, entry, targets + On(dep, narrowed), libs, libs')
  {
    hide KeyOf;
    var p :| p in narrowed;
    assert (dep, p) in On(dep, narrowed);
    forall t | t in On(dep, narrowed) ensures t.0 == dep {
    }
  }

  lemma QueueNew(reached: PlatformMap, queue: seq<Item>, mid: PlatformMap, midQueue: seq<Item>,
                 reached': PlatformMap, queue': seq<Item>, dep: string, narrowed: set<Platform>)
    requires QueuesNew(reached, queue, mid, midQueue)
    requires reached'.Keys == mid.Keys + {dep}
    requires forall k, p :: Has(reached', k, p) <==> Has(mid, k, p) || (k == dep && p in narrowed)
    requires queue' ==
      if dep !in mid || !(narrowed <= mid[dep]) then midQueue + [Item(dep, reached'[dep])] else midQueue
    requires dep in mid && narrowed <= mid[dep] ==> reached' == mid
    requires narrowed != {}
    ensures QueuesNew(reached, queue, reached', queue')
  {
    if dep !in mid || !(narrowed <= mid[dep]) {
      var added :| added in narrowed && !Has(mid, dep, added);
      var item := Item(dep, reached'[dep]);
      QueuePending(reached, mid, midQueue, reached', item);
      QueueSnapshot(mid, midQueue, reached', item);
      hide Pending, IsSnapshot;
      forall g ensures Count(queue', g) + Size(reached, g) <= Count(queue, g) + Size(reached', g) {
        CountSnoc(midQueue, item, g);
        Grows(mid, reached', dep, added, g);
      }
      hide Count, Size;
      assert Has(reached', dep, added) && !Has(reached, dep, added);
    }
  }

  // What the new item adds is pending in it.
  lemma QueuePending(reached: PlatformMap, mid: PlatformMap, midQueue: seq<Item>, reached': PlatformMap, item: Item)
    requires forall g, p :: Has(mid, g, p) ==> Has(reached, g, p) || Pending(midQueue, g, p)
    requires forall g, p :: Has(reached', g, p) ==>
      Has(mid, g, p) || (g == item.file && p in item.platforms)
    ensures forall g, p :: Has(reached', g, p) ==> Has(reached, g, p) || Pending(midQueue + [item], g, p)
  {
    var queue := midQueue + [item];
    forall g, p | Has(reached', g, p) ensures Has(reached, g, p) || Pending(queue, g, p) {
      if Has(mid, g, p) && !Has(reached, g, p) {
        var i :| 0 <= i < |midQueue| && midQueue[i].file == g && p in midQueue[i].platforms;
        assert queue[i] == midQueue[i];
      } else if !Has(mid, g, p) {
        assert queue[|midQueue|] == item;
      }
    }
  }

  lemma QueueSnapshot(mid: PlatformMap, midQueue: seq<Item>, reached': PlatformMap, item: Item)
    requires IsSnapshot(midQueue, mid) && item.platforms != {}
    requires forall g, p :: Has(mid, g, p) ==> Has(reached', g, p)
    requires forall p :: p in item.platforms ==> Has(reached', item.file, p)
    ensures IsSnapshot(midQueue + [item], reached')
  {
    var queue := midQueue + [item];
    forall i, p | 0 <= i < |queue| && p in queue[i].platforms ensures Has(reached', queue[i].file, p) {
      if i < |midQueue| {
        assert Has(mid, midQueue[i].file, p);
      }
    }
  }

  lemma CountSnoc(queue: seq<Item>, item: Item, file: string)
    ensures Count(queue + [item], file) == Count(queue, file) + if item.file == file then 1 else 0
  {
    assert (queue + [item])[..|queue|] == queue;
  }

  lemma Grows(m: PlatformMap, m': PlatformMap, dep: string, added: Platform, g: string)
    requires forall k, p :: Has(m, k, p) ==> Has(m', k, p)
    requires m'.Keys == m.Keys + {dep}
    requires Has(m', dep, added) && !Has(m, dep, added)
    ensures Size(m', g) >= Size(m, g) + if g == dep then 1 else 0
  {
    if g in m {
      forall p | p in m[g] ensures p in m'[g] {
        assert Has(m, g, p);
      }
      SubsetSize(m[g], m'[g]);
    } else if g == dep {
      SubsetSize({added}, m'[g]);
    }
  }

  lemma NextTargets(w: World, item: Item, found: seq<Found>, k: nat, targets: Targets, targets': Targets)
    requires k < |found|
    requires forall g, p :: (g, p) in targets <==> p in item.platforms && EdgeBefore(w, found, k, p, item.file, g)
    requires targets' == targets +
      if found[k].event.Import? && Locate(found[k].event.specifier, item.file, w.root) in w.sources then
        On(Locate(found[k].event.specifier, item.file, w.root), Guarded(item.platforms, found[k].path))
      else {}
    ensures forall g, p :: (g, p) in targets' <==> p in item.platforms && EdgeBefore(w, found, k + 1, p, item.file, g)
  {
    hide Guarded, Locate, EdgeBefore;
    GuardedIntersects(item.platforms, found[k].path);
    forall g, p
      ensures (g, p) in targets' <==> p in item.platforms && EdgeBefore(w, found, k + 1, p, item.file, g)
    {
      EdgeNext(w, found, k, p, item.file, g);
    }
  }

  method FollowImports(w: World, entry: string, item: Item, reached: PlatformMap, libs: PlatformMap, queue: seq<Item>)
    returns (reached': PlatformMap, libs': PlatformMap, queue': seq<Item>, ghost targets: Targets)
    requires IsParsed(w, item.file) && IsSnapshot(queue, reached)
    ensures forall g, p :: (g, p) in targets <==> p in item.platforms && Edge(w, p, item.file, g)
    ensures forall t :: t in targets ==> t.0 in w.sources
    ensures ReachesTargets(targets, reached, reached')
    ensures ReportsLibs(w, entry, targets, libs, libs')
    ensures QueuesNew(reached, queue, reached', queue')
  {
    hide Guarded, Locate, KeyOf, EdgeBefore, Edge, Sites, ReachesTargets, ReportsLibs, QueuesNew;
    var file, platforms := item.file, item.platforms;
    var found := Sites(w.sources[file].tree);
    reached', libs', queue', targets := reached, libs, queue, {};
    NothingFollowed(w, entry, item, found, reached, libs, queue);
    for k := 0 to |found|
      invariant forall g, p :: (g, p) in targets <==> p in platforms && EdgeBefore(w, found, k, p, file, g)
      invariant ReachesTargets(targets, reached, reached')
      invariant ReportsLibs(w, entry, targets, libs, libs')
      invariant QueuesNew(reached, queue, reached', queue')
    {
      ghost var before := targets;
      if found[k].event.Import? {
        var narrowed := NarrowAlong(platforms, found[k].path);
        var dep := Locate(found[k].event.specifier, file, w.root);
        if narrowed != {} && dep in w.sources {
          ghost var libs0, reached0, queue0 := libs', reached', queue';
          var grew;
          if dep != entry {
            libs', grew := Merge(libs', KeyOf(dep, w.root), narrowed);
          }
          ReportLib(w, entry, targets, libs, libs0, libs', dep, narrowed);
          reached', grew := Merge(reached', dep, narrowed);
          ReachTarget(targets, reached, reached0, reached', dep, narrowed);
          if grew {
            queue' := queue' + [Item(dep, reached'[dep])];
          }
          QueueNew(reached, queue, reached0, queue0, reached', queue', dep, narrowed);
          targets := targets + On(dep, narrowed);
        }
      }
      NextTargets(w, item, found, k, before, targets);
    }
    forall g, p
      ensures EdgeBefore(w, found, |found|, p, file, g) <==> Edge(w, p, file, g)
      ensures Edge(w, p, file, g) ==> g in w.sources
    {
      EdgeWhole(w, p, file, g);
      EdgeToFile(w, p, file, g);
    }
    forall t | t in targets ensures t.0 in w.sources {
      assert (t.0, t.1) in targets;
    }
  }

  lemma EdgeToFile(w: World, p: Platform, from: string, to: string)
    ensures Edge(w, p, from, to) ==> to in w.sources
  {
  }

  lemma NothingFollowed(w: World, entry: string, item: Item, found: seq<Found>,
                        reached: PlatformMap, libs: PlatformMap, queue: seq<Item>)
    requires IsSnapshot(queue, reached)
    ensures forall g, p :: !EdgeBefore(w, found, 0, p, item.file, g)
    ensures ReachesTargets({}, reached, reached)
    ensures ReportsLibs(w, entry, {}, libs, libs)
    ensures QueuesNew(reached, queue, reached, queue)
  {
  }

  // ---- The worklist ----

  // The file reaches everything that its imports reach, and its loads are recorded.
  ghost predicate Closed(w: World, entry: string, file: string, p: Platform,
                         reached: PlatformMap, libs: PlatformMap, bindings: PlatformMap)
  {
    && IsParsed(w, file)
    && (forall g :: Edge(w, p, file, g) ==> Has(reached, g, p) && (g != entry ==> KeyOf(g, w.root) in libs))
    && (forall name :: Admits(w, file, p, Load(name)) ==> Has(bindings, name, p))
  }

  ghost predicate IsLib(w: World, entry: string, reached: PlatformMap, key: string)
  {
    exists file, p :: Has(reached, file, p) && file != entry && KeyOf(file, w.root) == key
  }

  ghost predicate IsLoaded(w: World, reached: PlatformMap, p: Platform, name: string)
  {
    exists file :: Has(reached, file, p) && Admits(w, file, p, Load(name))
  }

  // Everything recorded is there by some chain of imports.
  ghost predicate Sound(w: World, entry: string, reached: PlatformMap, libs: PlatformMap, bindings: PlatformMap)
  {
    && (forall file, p :: Has(reached, file, p) ==> Reached(w, entry, p, file))
    && (forall key :: key in libs ==> IsLib(w, entry, reached, key))
    && (forall name, p :: Has(bindings, name, p) ==> IsLoaded(w, reached, p, name))
  }

  // What is not closed yet waits in the queue.
  ghost predicate Complete(w: World, entry: string, reached: PlatformMap, libs: PlatformMap, bindings: PlatformMap,
                           queue: seq<Item>)
  {
    && (forall p :: Has(reached, entry, p))
    && (forall file, p :: Has(reached, file, p) ==>
          Pending(queue, file, p) || Closed(w, entry, file, p, reached, libs, bindings))
  }

  // A file is scanned at most once for each platform it is reached on, and the
  // entry, reached on all of them from the start, is scanned once.
  ghost predicate Counted(entry: string, reached: PlatformMap, queue: seq<Item>, scans: multiset<string>)
  {
    forall file :: scans[file] + Count(queue, file) + (if file == entry then 2 else 0) <= Size(reached, file)
  }

  lemma SoundStep(w: World, entry: string, item: Item, targets: Targets,
                  reached: PlatformMap, libs: PlatformMap, bindings: PlatformMap,
                  reached': PlatformMap, libs': PlatformMap, bindings': PlatformMap)
    requires Sound(w, entry, reached, libs, bindings)
    requires forall p :: p in item.platforms ==> Has(reached, item.file, p)
    requires forall g, p :: (g, p) in targets <==> p in item.platforms && Edge(w, p, item.file, g)
    requires ReachesTargets(targets, reached, reached') && ReportsLibs(w, entry, targets, libs, libs')
    requires forall name, p :: Has(bindings', name, p) <==>
      Has(bindings, name, p) || (p in item.platforms && Admits(w, item.file, p, Load(name)))
    ensures Sound(w, entry, reached', libs', bindings')
  {
    hide Edge, Reached, KeyOf, Admits, Has, IsLib, IsLoaded, ReportsLibs;
    forall file, p | Has(reached', file, p) ensures Reached(w, entry, p, file) {
      if !Has(reached, file, p) {
        assert (file, p) in targets;
        ReachedStep(w, entry, p, item.file, file);
      }
    }
    forall key | key in libs' ensures IsLib(w, entry, reached', key) {
      LibStep(w, entry, targets, reached, libs, reached', libs', key);
    }
    forall name, p | Has(bindings', name, p) ensures IsLoaded(w, reached', p, name) {
      LoadedStep(w, item.file, targets, reached, reached', p, name);
    }
  }

  lemma LibStep(w: World, entry: string, targets: Targets, reached: PlatformMap, libs: PlatformMap,
                reached': PlatformMap, libs': PlatformMap, key: string)
    requires key in libs ==> IsLib(w, entry, reached, key)
    requires ReachesTargets(targets, reached, reached') && ReportsLibs(w, entry, targets, libs, libs')
    ensures key in libs' ==> IsLib(w, entry, reached', key)
  {
    hide KeyOf, Has;
    if key in libs {
      var file, p :| Has(reached, file, p) && file != entry && KeyOf(file, w.root) == key;
      assert Has(reached', file, p);
    } else if key in libs' {
      var t :| t in targets && t.0 != entry && KeyOf(t.0, w.root) == key;
      assert (t.0, t.1) in targets;
      assert Has(reached', t.0, t.1);
    }
  }

  lemma LoadedStep(w: World, file: string, targets: Targets, reached: PlatformMap, reached': PlatformMap,
                   p: Platform, name: string)
    requires IsLoaded(w, reached, p, name) || (Has(reached, file, p) && Admits(w, file, p, Load(name)))
    requires ReachesTargets(targets, reached, reached')
    ensures IsLoaded(w, reached', p, name)
  {
    hide Admits, Has;
    var loader :| Has(reached, loader, p) && Admits(w, loader, p, Load(name));
    assert Has(reached', loader, p);
  }

  lemma CompleteStep(w: World, entry: string, item: Item, targets: Targets,
                     reached: PlatformMap, libs: PlatformMap, bindings: PlatformMap, queue: seq<Item>,
                     reached': PlatformMap, libs': PlatformMap, bindings': PlatformMap, queue': seq<Item>)
    requires Complete(w, entry, reached, libs, bindings, [item] + queue) && IsParsed(w, item.file)
    requires forall g, p :: (g, p) in targets <==> p in item.platforms && Edge(w, p, item.file, g)
    requires ReachesTargets(targets, reached, reached') && ReportsLibs(w, entry, targets, libs, libs')
    requires QueuesNew(reached, queue, reached', queue')
    requires forall name, p :: Has(bindings', name, p) <==>
      Has(bindings, name, p) || (p in item.platforms && Admits(w, item.file, p, Load(name)))
    ensures Complete(w, entry, reached', libs', bindings', queue')
  {
    hide Edge, KeyOf, Admits, Has;
    forall file, p | Has(reached', file, p)
      ensures Pending(queue', file, p) || Closed(w, entry, file, p, reached', libs', bindings')
    {
      if Has(reached, file, p) {
        if file == item.file && p in item.platforms {
          forall g | Edge(w, p, file, g) ensures Has(reached', g, p) && (g != entry ==> KeyOf(g, w.root) in libs') {
            assert (g, p) in targets;
          }
        } else if Pending([item] + queue, file, p) {
          var i :| 0 <= i < |[item] + queue| && ([item] + queue)[i].file == file && p in ([item] + queue)[i].platforms;
          assert queue'[i - 1] == queue[i - 1];
        } else {
          assert Closed(w, entry, file, p, reached, libs, bindings);
        }
      }
    }
  }

  lemma CountedStep(entry: string, item: Item, reached: PlatformMap, queue: seq<Item>,
                    reached': PlatformMap, queue': seq<Item>, scans: multiset<string>)
    requires Counted(entry, reached, [item] + queue, scans)
    requires QueuesNew(reached, queue, reached', queue')
    ensures Counted(entry, reached', queue', scans + multiset{item.file})
  {
    forall file
      ensures (scans + multiset{item.file})[file] + Count(queue', file) + (if file == entry then 2 else 0)
           <= Size(reached', file)
    {
      CountFront(item, queue, file);
    }
  }

  lemma {:induction false} CountFront(item: Item, queue: seq<Item>, file: string)
    ensures Count([item] + queue, file) == Count(queue, file) + if item.file == file then 1 else 0
  {
    if queue == [] {
      assert [item] + queue == [item];
      assert [item][..0] == [];
    } else {
      assert ([item] + queue)[..|queue|] == [item] + queue[..|queue| - 1];
      CountFront(item, queue[..|queue| - 1], file);
    }
  }

  // With nothing left in the queue, what a chain of imports leads to is recorded.
  lemma {:induction false} ChainCovered(w: World, entry: string, p: Platform, chain: seq<string>,
                                        reached: PlatformMap, libs: PlatformMap, bindings: PlatformMap)
    requires Complete(w, entry, reached, libs, bindings, [])
    requires IsChain(w, p, chain) && chain[0] == entry
    ensures var file := chain[|chain| - 1];
      && Has(reached, file, p)
      && Closed(w, entry, file, p, reached, libs, bindings)
      && (file != entry ==> KeyOf(file, w.root) in libs)
  {
    hide Edge, KeyOf, Admits, Has;
    if |chain| > 1 {
      var before := chain[..|chain| - 1];
      assert forall i :: 0 <= i < |before| - 1 ==> Edge(w, p, chain[i], chain[i + 1]);
      ChainCovered(w, entry, p, before, reached, libs, bindings);
      assert Edge(w, p, chain[|chain| - 2], chain[|chain| - 1]);
    }
    assert !Pending([], chain[|chain| - 1], p);
  }

  lemma AtMostThree(platforms: set<Platform>)
    ensures |platforms| <= 3
  {
    EveryPlatform(platforms);
    SubsetSize(platforms, PLATFORMS);
  }

  lemma ScansBounded(entry: string, reached: PlatformMap, queue: seq<Item>, scans: multiset<string>)
    requires Counted(entry, reached, queue, scans)
    ensures forall file :: scans[file] + Count(queue, file) <= if file == entry then 1 else 3
  {
    forall file ensures scans[file] + Count(queue, file) <= if file == entry then 1 else 3 {
      assert scans[file] + Count(queue, file) + (if file == entry then 2 else 0) <= Size(reached, file);
      if file in reached {
        AtMostThree(reached[file]);
      }
    }
  }

  lemma ParseStarts(w: World, entry: string)
    ensures var queue, reached := [Item(entry, PLATFORMS)], map[entry := PLATFORMS];
      && IsSnapshot(queue, reached)
      && Sound(w, entry, reached, map[], map[])
      && Complete(w, entry, reached, map[], map[], queue)
      && Counted(entry, reached, queue, multiset{})
      && NonEmpty(map[])
  {
    var item := Item(entry, PLATFORMS);
    var queue, reached := [item], map[entry := PLATFORMS];
    forall p ensures Has(reached, entry, p) && Pending(queue, entry, p) && Reached(w, entry, p, entry) {
      EveryPlatform({p});
      assert queue[0] == item;
      EntryReached(w, entry, p);
    }
    assert |PLATFORMS| == 3;
    assert [item] + [] == queue;
    forall file ensures Count(queue, file) == if file == entry then 1 else 0 {
      CountFront(item, [], file);
    }
  }

  lemma SnapshotFront(item: Item, rest: seq<Item>, reached: PlatformMap)
    requires IsSnapshot([item] + rest, reached)
    ensures item.platforms != {} && forall p :: p in item.platforms ==> Has(reached, item.file, p)
    ensures IsSnapshot(rest, reached)
  {
    var queue := [item] + rest;
    assert queue[0] == item;
    assert forall i :: 0 <= i < |rest| ==> rest[i] == queue[i + 1];
  }

  lemma SnapshotKept(reached: PlatformMap, queue: seq<Item>, reached': PlatformMap, queue': seq<Item>)
    requires QueuesNew(reached, queue, reached', queue')
    ensures IsSnapshot(queue', reached')
  {
  }

  lemma MissingShrinks(w: World, entry: string, targets: Targets,
                       reached: PlatformMap, queue: seq<Item>, reached': PlatformMap, queue': seq<Item>)
    requires forall t :: t in targets ==> t.0 in w.sources
    requires ReachesTargets(targets, reached, reached') && QueuesNew(reached, queue, reached', queue')
    ensures queue' == queue ==> Missing(w, entry, reached') == Missing(w, entry, reached)
    ensures queue' != queue ==> Missing(w, entry, reached') < Missing(w, entry, reached)
  {
    if queue' != queue {
      var g, p :| Has(reached', g, p) && !Has(reached, g, p);
      assert (g, p) in targets;
      EveryPlatform({p});
      assert (g, p) in Missing(w, entry, reached) && (g, p) !in Missing(w, entry, reached');
    }
  }

  lemma ItemReached(w: World, entry: string, item: Item, reached: PlatformMap, libs: PlatformMap, bindings: PlatformMap)
    requires item.platforms != {} && forall p :: p in item.platforms ==> Has(reached, item.file, p)
    requires Sound(w, entry, reached, libs, bindings)
    ensures exists p :: Reached(w, entry, p, item.file)
  {
    var p :| p in item.platforms;
    assert Has(reached, item.file, p);
  }

  lemma ReachedCovered(w: World, entry: string, reached: PlatformMap, libs: PlatformMap, bindings: PlatformMap,
                       file: string, p: Platform)
    requires Complete(w, entry, reached, libs, bindings, []) && Reached(w, entry, p, file)
    ensures Has(reached, file, p) && Closed(w, entry, file, p, reached, libs, bindings)
    ensures file != entry ==> KeyOf(file, w.root) in libs
  {
    hide Complete, Closed, Edge, KeyOf, Has;
    var chain :| IsChain(w, p, chain) && chain[0] == entry && chain[|chain| - 1] == file;
    ChainCovered(w, entry, p, chain, reached, libs, bindings);
  }

  lemma LibsExact(w: World, entry: string, reached: PlatformMap, libs: PlatformMap, bindings: PlatformMap, key: string)
    requires Sound(w, entry, reached, libs, bindings)
    requires Complete(w, entry, reached, libs, bindings, [])
    ensures key in libs <==> exists file, p :: Reached(w, entry, p, file) && file != entry && IsKey(key, file, w.root)
  {
    hide Complete, Closed, Reached, KeyOf, IsKey, Has, IsLoaded;
    if key in libs {
      assert IsLib(w, entry, reached, key);
      var file, p :| Has(reached, file, p) && file != entry && KeyOf(file, w.root) == key;
      assert Reached(w, entry, p, file);
      KeyExactly(key, file, w.root);
    }
    if file, p :| Reached(w, entry, p, file) && file != entry && IsKey(key, file, w.root) {
      KeyExactly(key, file, w.root);
      ReachedCovered(w, entry, reached, libs, bindings, file, p);
    }
  }

  lemma BindingsExact(w: World, entry: string, reached: PlatformMap, libs: PlatformMap, bindings: PlatformMap,
                      name: string, p: Platform)
    requires Sound(w, entry, reached, libs, bindings)
    requires Complete(w, entry, reached, libs, bindings, [])
    ensures Has(bindings, name, p) <==>
      exists file :: Reached(w, entry, p, file) && Admits(w, file, p, Load(name))
  {
    hide Complete, Reached, Admits, Has, IsLib;
    if Has(bindings, name, p) {
      assert IsLoaded(w, reached, p, name);
      var file :| Has(reached, file, p) && Admits(w, file, p, Load(name));
      assert Reached(w, entry, p, file);
    }
    if file :| Reached(w, entry, p, file) && Admits(w, file, p, Load(name)) {
      ReachedCovered(w, entry, reached, libs, bindings, file, p);
    }
  }

  lemma ParseEnds(w: World, entry: string, reached: PlatformMap, libs: PlatformMap, bindings: PlatformMap)
    requires Sound(w, entry, reached, libs, bindings) && NonEmpty(bindings)
    requires Complete(w, entry, reached, libs, bindings, [])
    ensures Exact(w, entry, Report(bindings, libs.Keys))
  {
    hide Sound, Complete, Reached, Edge, IsKey, Admits, Has, NonEmpty;
    forall file, p | Reached(w, entry, p, file) ensures IsParsed(w, file) {
      ReachedCovered(w, entry, reached, libs, bindings, file, p);
    }
    forall name, p
      ensures Has(bindings, name, p) <==> exists file :: Reached(w, entry, p, file) && Admits(w, file, p, Load(name))
    {
      BindingsExact(w, entry, reached, libs, bindings, name, p);
    }
    forall key
      ensures key in libs.Keys <==>
        exists file, p :: Reached(w, entry, p, file) && file != entry && IsKey(key, file, w.root)
    {
      LibsExact(w, entry, reached, libs, bindings, key);
    }
  }

  // The path of the program that is scanned.
  function EntryPath(fileName: string, root: string): string
  {
    NormalizeImport(if fileName != "" && fileName[0] == '/' then fileName else root + "/" + fileName)
  }

  // parse of lib/parse.js: it fails exactly when a file that can be reached on
  // some platform cannot be read or parsed; otherwise the bindings and the
  // libraries it reports are exactly those that chains of imports reach.
  method Parse(sources: map<string, Source>, fileName: string, rootDirectory: string)
    returns (result: Result<Report, string>, ghost scans: multiset<string>)
    ensures var w := World(sources, NormalizeImport(rootDirectory));
      var entry := EntryPath(fileName, w.root);
      && (result.Err? ==> exists p :: Reached(w, entry, p, result.error) && !IsParsed(w, result.error))
      && (result.Ok? ==> Exact(w, entry, result.value))
    ensures var entry := EntryPath(fileName, NormalizeImport(rootDirectory));
      forall file :: scans[file] <= if file == entry then 1 else 3
  {
    hide Sound, Complete, Counted, Reached, Edge, Admits, IsParsed, IsSnapshot, QueuesNew, ReachesTargets,
      ReportsLibs, Count, Missing, Exact, NonEmpty, NormalizeImport;
    var root := NormalizeImportPath(rootDirectory);
    var entry := NormalizeImportPath(if fileName != "" && fileName[0] == '/' then fileName else root + "/" + fileName);
    var w := World(sources, root);
    var libs: PlatformMap := map[];
    var bindings: PlatformMap := map[];
    var queue := [Item(entry, PLATFORMS)];
    var reached: PlatformMap := map[entry := PLATFORMS];
    scans := multiset{};
    ParseStarts(w, entry);
    while queue != []
      invariant IsSnapshot(queue, reached) && NonEmpty(bindings)
      invariant Sound(w, entry, reached, libs, bindings)
      invariant Complete(w, entry, reached, libs, bindings, queue)
      invariant Counted(entry, reached, queue, scans)
      decreases Missing(w, entry, reached), |queue|
    {
      var item := queue[0];
      var rest := queue[1..];
      assert queue == [item] + rest;
      SnapshotFront(item, rest, reached);
      ScansBounded(entry, reached, queue, scans);
      forall file {
        CountFront(item, rest, file);
      }
      ghost var before := scans;
      scans := scans + multiset{item.file};
      if !IsParsed(w, item.file) {
        ItemReached(w, entry, item, reached, libs, bindings);
        return Err(item.file), scans;
      }
      var bindings' := RecordBindings(w, item.file, item.platforms, bindings);
      var reached', libs', queue';
      ghost var targets;
      reached', libs', queue', targets := FollowImports(w, entry, item, reached, libs, rest);
      SoundStep(w, entry, item, targets, reached, libs, bindings, reached', libs', bindings');
      CompleteStep(w, entry, item, targets, reached, libs, bindings, rest, reached', libs', bindings', queue');
      CountedStep(entry, item, reached, rest, reached', queue', before);
      MissingShrinks(w, entry, targets, reached, rest, reached', queue');
      SnapshotKept(reached, rest, reached', queue');
      reached, libs, bindings, queue := reached', libs', bindings', queue';
    }
    ScansBounded(entry, reached, queue, scans);
    ParseEnds(w, entry, reached, libs, bindings);
    result := Ok(Report(bindings, libs.Keys));
  }

  // The report holds what chains of imports reach, and every file on them is parsed.
  ghost predicate Exact(w: World, entry: string, report: Report)
  {
    && (forall file, p :: Reached(w, entry, p, file) ==> IsParsed(w, file))
    && (forall name, p :: Has(report.bindings, name, p) <==>
          exists file :: Reached(w, entry, p, file) && Admits(w, file, p, Load(name)))
    && NonEmpty(report.bindings)
    && (forall key :: key in report.libs <==>
          exists file, p :: Reached(w, entry, p, file) && file != entry && IsKey(key, file, w.root))
  }
}
