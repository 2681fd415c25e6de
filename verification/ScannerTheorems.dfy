// What a report of lib/parse.js means for the runs of the program it describes.
module ScannerTheorems {
  import opened Guards
  import opened GuardTheorems
  import opened Lookup
  import opened Paths
  import opened PathTheorems
  import opened Scanner

  // A run on platform p in this directory may import one file from the other,
  // where the loader looks it up.
  ghost predicate MayImport(w: World, cwd: string, p: Platform, from: string, to: string)
  {
    IsParsed(w, from) && to in w.sources && exists specifier ::
      MayRun(w.sources[from].tree, p, Import(specifier)) && LoadPath(specifier, cwd) == to
  }

  ghost predicate IsVisit(w: World, cwd: string, p: Platform, files: seq<string>)
  {
    files != [] && forall i :: 0 <= i < |files| - 1 ==> MayImport(w, cwd, p, files[i], files[i + 1])
  }

  // A run of the program on platform p may come to the file.
  ghost predicate MayVisit(w: World, cwd: string, entry: string, p: Platform, file: string)
  {
    exists files :: IsVisit(w, cwd, p, files) && files[0] == entry && files[|files| - 1] == file
  }

  // No file tests an inherited member of the global object.
  ghost predicate NoInheritedGuards(w: World)
  {
    forall file :: IsParsed(w, file) ==> !HasInheritedGuards(w.sources[file].tree)
  }

  predicate Holds(tree: Node, event: Event)
  {
    exists i :: 0 <= i < |Sites(tree)| && Sites(tree)[i].event == event
  }

  // The root, the current directory and every file are named from the root of
  // the file system.
  ghost predicate AllAbsolute(w: World, cwd: string)
  {
    IsAbsolute(w.root) && IsAbsolute(cwd) && forall file :: file in w.sources ==> IsAbsolute(file)
  }

  // Every import of the program means one file to the scanner and the loader.
  ghost predicate SameLookups(w: World, cwd: string)
  {
    forall file, specifier :: IsParsed(w, file) && Holds(w.sources[file].tree, Import(specifier)) ==>
      SameLookup(specifier, file, w.root, cwd)
  }

  lemma RunHolds(tree: Node, p: Platform, event: Event)
    requires MayRun(tree, p, event)
    ensures Holds(tree, event)
  {
    hide MayRun, Sites, MayFollow;
    SitesAdequate(tree, p, event);
    var i :| 0 <= i < |Sites(tree)| && Sites(tree)[i].event == event && MayFollow(Sites(tree)[i].path, p);
  }

  lemma DirNameAbsolute(path: string)
    requires IsAbsolute(path)
    ensures IsAbsolute(DirName(path) + "/")
  {
    assert LastIndexOf(path, '/') >= 0;
  }

  lemma ImportIsEdge(w: World, cwd: string, p: Platform, from: string, to: string)
    requires NoInheritedGuards(w) && AllAbsolute(w, cwd) && SameLookups(w, cwd) && MayImport(w, cwd, p, from, to)
    ensures Edge(w, p, from, to)
  {
    hide MayRun, Locate, LoadPath, Reports, HasInheritedGuards, Holds, SameLookup;
    EveryPlatform({p});
    var specifier :| MayRun(w.sources[from].tree, p, Import(specifier)) && LoadPath(specifier, cwd) == to;
    RunHolds(w.sources[from].tree, p, Import(specifier));
    DirNameAbsolute(from);
    LookupsAgreeExactly(specifier, from, w.root, cwd);
    ScanSound(w.sources[from].tree, PLATFORMS, p, Import(specifier));
    assert Admits(w, from, p, Import(specifier));
  }

  lemma VisitIsReached(w: World, cwd: string, entry: string, p: Platform, file: string)
    requires NoInheritedGuards(w) && AllAbsolute(w, cwd) && SameLookups(w, cwd)
    requires MayVisit(w, cwd, entry, p, file)
    ensures Reached(w, entry, p, file)
  {
    hide NoInheritedGuards, AllAbsolute, SameLookups, MayImport, Edge;
    var files :| IsVisit(w, cwd, p, files) && files[0] == entry && files[|files| - 1] == file;
    forall i | 0 <= i < |files| - 1 ensures Edge(w, p, files[i], files[i + 1]) {
      ImportIsEdge(w, cwd, p, files[i], files[i + 1]);
    }
    assert IsChain(w, p, files);
  }

  // Whatever a run of the program on some platform visits and loads is in the
  // report, when the loader looks every import up where the scanner does: a
  // runtime built from the report has every library and, for that platform,
  // every binding the run asks for.
  lemma ReportCoversRuns(w: World, cwd: string, entry: string, report: Report, p: Platform, file: string, name: string)
    requires Exact(w, entry, report) && NoInheritedGuards(w) && AllAbsolute(w, cwd) && SameLookups(w, cwd)
    requires MayVisit(w, cwd, entry, p, file)
    ensures IsParsed(w, file)
    ensures file != entry ==> exists key :: key in report.libs && IsKey(key, file, w.root)
    ensures MayRun(w.sources[file].tree, p, Load(name)) ==> Has(report.bindings, name, p)
  {
    hide MayRun, Reached, MayVisit, IsKey, HasInheritedGuards, Reports, AllAbsolute, SameLookups;
    VisitIsReached(w, cwd, entry, p, file);
    KeyExactly(KeyOf(file, w.root), file, w.root);
    if MayRun(w.sources[file].tree, p, Load(name)) {
      EveryPlatform({p});
      ScanSound(w.sources[file].tree, PLATFORMS, p, Load(name));
      assert Admits(w, file, p, Load(name));
    }
  }

  // ---- Where the lookups differ ----

  // A program of one import and the file that the loader finds for it.
  function TwoFiles(specifier: string, importer: string, root: string, cwd: string, name: string): World
  {
    World(map[importer := Parsed(Site(Import(specifier))), LoadPath(specifier, cwd) := Parsed(Site(Load(name)))], root)
  }

  // Every import that the two look up differently is missed in some program:
  // what the file that the loader finds loads is not in the report.
  lemma OtherLookupMissed(specifier: string, importer: string, root: string, cwd: string, name: string, p: Platform,
                          report: Report)
    requires IsAbsolute(Base(specifier, importer, root) + "/") && IsAbsolute(cwd)
    requires !SameLookup(specifier, importer, root, cwd) && LoadPath(specifier, cwd) != importer
    requires Exact(TwoFiles(specifier, importer, root, cwd, name), importer, report)
    ensures var w, other := TwoFiles(specifier, importer, root, cwd, name), LoadPath(specifier, cwd);
      && MayVisit(w, cwd, importer, p, other) && MayRun(w.sources[other].tree, p, Load(name))
      && !Has(report.bindings, name, p)
  {
    hide Locate, LoadPath, SameLookup, Base;
    LookupsAgreeExactly(specifier, importer, root, cwd);
    var w, other := TwoFiles(specifier, importer, root, cwd, name), LoadPath(specifier, cwd);
    assert MayRun(w.sources[importer].tree, p, Import(specifier));
    assert MayImport(w, cwd, p, importer, other);
    assert IsVisit(w, cwd, p, [importer, other]);
    if Has(report.bindings, name, p) {
      var file :| Reached(w, importer, p, file) && Admits(w, file, p, Load(name));
      AdmitsOnlyThere(w, p, importer, Load(name));
      var chain :| IsChain(w, p, chain) && chain[0] == importer && chain[|chain| - 1] == file;
      StaysAtImporter(specifier, importer, root, cwd, name, p, chain);
    }
  }

  // The importer holds its one import and nothing else.
  lemma AdmitsOnlyThere(w: World, p: Platform, file: string, event: Event)
    requires IsParsed(w, file) && w.sources[file].tree.Site? && w.sources[file].tree.event != event
    ensures !Admits(w, file, p, event)
  {
    assert |Sites(w.sources[file].tree)| == 1;
  }

  lemma {:induction false} StaysAtImporter(specifier: string, importer: string, root: string, cwd: string, name: string,
                                           p: Platform, chain: seq<string>)
    requires LoadPath(specifier, cwd) != Locate(specifier, importer, root) && LoadPath(specifier, cwd) != importer
    requires IsChain(TwoFiles(specifier, importer, root, cwd, name), p, chain) && chain[0] == importer
    ensures chain[|chain| - 1] == importer
    decreases |chain|
  {
    if |chain| > 1 {
      var w := TwoFiles(specifier, importer, root, cwd, name);
      hide Locate, LoadPath, Admits;
      assert Edge(w, p, chain[0], chain[1]);
      var s :| Admits(w, importer, p, Import(s)) && Locate(s, importer, root) == chain[1];
      if s != specifier {
        AdmitsOnlyThere(w, p, importer, Import(s));
      }
      assert chain[1] == importer;
      var rest := chain[1..];
      forall i | 0 <= i < |rest| - 1 ensures Edge(w, p, rest[i], rest[i + 1]) {
        assert Edge(w, p, chain[i + 1], chain[i + 2]);
      }
      StaysAtImporter(specifier, importer, root, cwd, name, p, rest);
    }
  }

  // The file /p/s/m imports ./u in the directory /p: the loader reads /p/u.
  lemma RelativeImportMissed(name: string, p: Platform, report: Report)
    requires Exact(TwoFiles("./u", "/p/s/m", "/p", "/p", name), "/p/s/m", report)
    ensures MayVisit(TwoFiles("./u", "/p/s/m", "/p", "/p", name), "/p", "/p/s/m", p, "/p/u")
    ensures MayRun(Site(Load(name)), p, Load(name)) && !Has(report.bindings, name, p)
  {
    SampleLookup();
    hide *;
    OtherLookupMissed("./u", "/p/s/m", "/p", "/p", name, p, report);
    LoadRuns(name, p);
  }

  lemma LoadRuns(name: string, p: Platform)
    ensures MayRun(Site(Load(name)), p, Load(name))
  {
  }

  lemma SampleLookup()
    ensures IsAbsolute(Base("./u", "/p/s/m", "/p") + "/") && IsAbsolute("/p")
    ensures LoadPath("./u", "/p") == "/p/u"
    ensures !SameLookup("./u", "/p/s/m", "/p", "/p")
  {
    hide *;
    SampleKinds();
    SampleDirName();
    SampleDirectories();
    SampleSpecifier();
    FromDirectory("/p", "./u");
    OtherDirectory("./u", "/p/s/m", "/p", "/p");
    SampleJoin();
    LoadPathIs("./u", "/p");
  }

  lemma SampleKinds()
    ensures IsRelative("./u") && !IsAbsolute("./u") && IsAbsolute("/p") && IsAbsolute("/p/") && IsAbsolute("/p/s/")
    ensures "/p" + "/" == "/p/" && "/p/s" + "/" == "/p/s/"
  {
  }

  lemma SampleJoin()
    ensures Above(["p"], 0) + ["u"] == ["p", "u"] && "/" + Join(["p", "u"]) == "/p/u"
  {
    assert ["p", "u"][..1] == ["p"];
  }

  lemma LoadPathIs(specifier: string, cwd: string)
    requires !IsAbsolute(specifier)
    ensures LoadPath(specifier, cwd) == NormalizeImport(cwd + "/" + specifier)
  {
  }

  // A relative specifier that does not climb is looked up elsewhere from any
  // other directory.
  lemma OtherDirectory(specifier: string, importer: string, root: string, cwd: string)
    requires IsRelative(specifier) && !IsAbsolute(specifier) && Ups(specifier) == 0
    requires Directory(DirName(importer)) != Directory(cwd)
    ensures !SameLookup(specifier, importer, root, cwd) && Base(specifier, importer, root) == DirName(importer)
  {
    hide Ups, Directory, DirName, IsRelative;
    assert Above(Directory(cwd), 0) == Directory(cwd);
    assert Above(Directory(DirName(importer)), 0) == Directory(DirName(importer));
  }

  lemma SampleDirName()
    ensures DirName("/p/s/m") == "/p/s"
  {
    var importer := "/p/s/m";
    assert importer[..5] == "/p/s/" && LastIndexOf("/p/s/", '/') == 4 && LastIndexOf(importer, '/') == 4;
  }

  lemma SampleDirectories()
    ensures Directory("/p") == ["p"] && Directory("/p/s") == ["p", "s"]
  {
    SplitSamples();
    hide Split;
    WalkOne([], "");
    WalkOne([], "p");
    WalkOne(["p"], "s");
    WalkConcat([], [""], ["p"]);
    WalkConcat([], ["", "p"], ["s"]);
    hide Walk;
    assert [""] + ["p"] == ["", "p"] && ["", "p"] + ["s"] == ["", "p", "s"] && ["p"] + ["s"] == ["p", "s"];
  }

  lemma SampleSpecifier()
    ensures Ups("./u") == 0 && Names("./u") == ["u"]
  {
    SplitSamples();
    hide Split;
    assert [".", "u"][..1] == ["."] && ["."][..0] == [] && ["u"][..0] == [];
    assert PushAll(true, [], ["."]) == [];
    assert Reduce(true, [".", "u"]) == ["u"];
  }

  lemma SplitSamples()
    ensures Split(SLASH, "/p") == ["", "p"] && Split(SLASH, "/p/s") == ["", "p", "s"]
    ensures Split(SLASH, "./u") == [".", "u"]
  {
    hide *;
    assert "" + "/" + "p" == "/p" && "/p" + "/" + "s" == "/p/s" && "." + "/" + "u" == "./u";
    assert [""] + ["p"] == ["", "p"] && ["", "p"] + ["s"] == ["", "p", "s"] && ["."] + ["u"] == [".", "u"];
    assert ['p'] == "p" && ['s'] == "s" && ['.'] == "." && ['u'] == "u";
    SplitEmpty(SLASH);
    SplitLetter('p');
    SplitLetter('s');
    SplitLetter('.');
    SplitLetter('u');
    SplitAt("", "p");
    SplitAt("/p", "s");
    SplitAt(".", "u");
  }

  // ---- What a report names ----

  // The scan starts from the file that its argument means from the root.
  lemma EntryExactly(fileName: string, root: string)
    requires IsAbsolute(root)
    ensures var entry := EntryPath(fileName, root);
      && IsFileName(entry)
      && Directory(entry) == Walk(if IsAbsolute(fileName) then [] else Directory(root), Split(SLASH, fileName))
  {
    hide Join, NormalizeImport, IsReduced, Walk, Split, IsFileName;
    if IsAbsolute(fileName) {
      WalkFound(fileName);
    } else {
      WalkFound(root + "/" + fileName);
      SplitAt(root, fileName);
      WalkConcat([], Split(SLASH, root), Split(SLASH, fileName));
    }
  }

  lemma LocatedName(specifier: string, importer: string, root: string)
    requires IsAbsolute(importer) && IsAbsolute(root)
    ensures IsFileName(Locate(specifier, importer, root))
  {
    hide NormalizeImport, IsFileName;
    DirNameAbsolute(importer);
    if IsAbsolute(specifier) {
      NormalizedName(specifier);
    } else {
      var base := Base(specifier, importer, root);
      NormalizedName(base + "/" + specifier);
    }
  }

  lemma {:induction false} ChainNames(w: World, p: Platform, chain: seq<string>, i: nat)
    requires IsChain(w, p, chain) && IsFileName(chain[0]) && IsAbsolute(w.root) && i < |chain|
    ensures IsFileName(chain[i])
  {
    hide NormalizeImport, Admits, Locate;
    if i > 0 {
      ChainNames(w, p, chain, i - 1);
      assert Edge(w, p, chain[i - 1], chain[i]);
      var specifier :|
        Admits(w, chain[i - 1], p, Import(specifier)) && Locate(specifier, chain[i - 1], w.root) == chain[i];
      LocatedName(specifier, chain[i - 1], w.root);
    }
  }

  lemma ReachedName(w: World, entry: string, p: Platform, file: string)
    requires Reached(w, entry, p, file) && IsFileName(entry) && IsAbsolute(w.root)
    ensures IsFileName(file)
  {
    hide IsFileName, Edge;
    var chain :| IsChain(w, p, chain) && chain[0] == entry && chain[|chain| - 1] == file;
    ChainNames(w, p, chain, |chain| - 1);
  }

  // Every library of a report, looked up by its name in any file, is a file that
  // the program reaches.
  lemma LibrariesFound(w: World, entry: string, report: Report, key: string, importer: string)
    requires Exact(w, entry, report) && IsAbsolute(w.root) && IsFileName(entry) && key in report.libs
    ensures var file := Locate(key, importer, w.root);
      file != entry && IsKey(key, file, w.root) && exists p :: Reached(w, entry, p, file)
  {
    hide NormalizeImport, IsFileName, IsKey, Locate, Reached;
    var file, p :| Reached(w, entry, p, file) && file != entry && IsKey(key, file, w.root);
    ReachedName(w, entry, p, file);
    KeyFindsFile(key, file, w.root, importer);
  }
}
