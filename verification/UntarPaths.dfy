// Where the files of an archive come to lie, and what the test of lib/untar.js
// for the first directory is worth.
module UntarPaths {
  import opened Prelude
  import opened ByteText
  import opened Lookup
  import opened Paths
  import opened PathTheorems
  import Untar

  function PathText(path: Bytes): (text: string)
    ensures |text| == |path|
  {
    seq(|path|, i requires 0 <= i < |path| => path[i] as int as char)
  }

  function Start(directory: seq<string>, path: Bytes): seq<string>
  {
    if IsAbsolute(PathText(path)) then [] else directory
  }

  // The place of a path for a process in this directory.
  function Place(directory: seq<string>, path: Bytes): seq<string>
  {
    Walk(Start(directory, path), Split(SLASH, PathText(path)))
  }

  predicate LiesUnder(directory: seq<string>, top: Bytes, path: Bytes)
  {
    Place(directory, top) <= Place(directory, path)
  }

  // The place of a path: up as often as it climbs, and down its names.
  function Resolved(directory: seq<string>, path: Bytes): seq<string>
  {
    Above(Start(directory, path), Ups(PathText(path))) + Names(PathText(path))
  }

  // A path lies under another exactly when its resolved names start with those of
  // the other.
  lemma LiesUnderExactly(directory: seq<string>, top: Bytes, path: Bytes)
    ensures LiesUnder(directory, top, path) <==> Resolved(directory, top) <= Resolved(directory, path)
  {
    hide Walk, Split, Ups, Names, Above;
    SpecifierWalk(Start(directory, top), PathText(top));
    SpecifierWalk(Start(directory, path), PathText(path));
  }

  // How many directories of a place a path below it leaves.
  function Left(place: seq<string>, rest: string): nat
  {
    if Ups(rest) <= |place| then Ups(rest) else |place|
  }

  lemma PathTextConcat(a: Bytes, b: Bytes)
    ensures PathText(a + b) == PathText(a) + PathText(b)
  {
  }

  // A file that an archive names below its first directory is accepted, and lies
  // under it exactly when the rest of its path does not climb, or names again
  // what it has left.
  lemma BelowTopExactly(directory: seq<string>, top: Bytes, rest: Bytes, h: Untar.Header)
    requires top != [] && h.path == top + [47] + rest
    ensures !Untar.Rejects(Some(top), h)
    ensures var place, text := Place(directory, top), PathText(rest);
      LiesUnder(directory, top, h.path) <==> place[|place| - Left(place, text)..] <= Names(text)
  {
    var place, text := Place(directory, top), PathText(rest);
    assert top <= h.path;
    hide *;
    PrefixAccepted(top, h);
    PlaceBelow(directory, top, rest);
    SpecifierWalk(place, text);
    AboveIs(place, text);
    PrefixAgain(place, Left(place, text), Names(text));
    UnderIs(directory, top, h.path);
  }

  lemma UnderIs(directory: seq<string>, top: Bytes, path: Bytes)
    ensures LiesUnder(directory, top, path) <==> Place(directory, top) <= Place(directory, path)
  {
  }

  lemma AboveIs(place: seq<string>, rest: string)
    ensures Left(place, rest) <= |place|
    ensures Above(place, Ups(rest)) == place[..|place| - Left(place, rest)]
  {
    hide Ups;
  }

  // Below a path, one walks on from its place.
  lemma PlaceBelow(directory: seq<string>, top: Bytes, rest: Bytes)
    requires top != []
    ensures Place(directory, top + [47] + rest) == Walk(Place(directory, top), Split(SLASH, PathText(rest)))
  {
    PathTextConcat(top + [47], rest);
    PathTextConcat(top, [47]);
    assert PathText([47]) == "/" && PathText(top)[0] == PathText(top + [47] + rest)[0];
    hide Walk, Split, PathText;
    SplitAt(PathText(top), PathText(rest));
    WalkConcat(Start(directory, top), Split(SLASH, PathText(top)), Split(SLASH, PathText(rest)));
  }

  lemma PrefixAgain(place: seq<string>, k: nat, names: seq<string>)
    requires k <= |place|
    ensures place <= place[..|place| - k] + names <==> place[|place| - k..] <= names
  {
    var front, back := place[..|place| - k], place[|place| - k..];
    assert place == front + back;
    if front + back <= front + names {
      assert (front + names)[|front|..][..k] == back;
      assert names == (front + names)[|front|..];
    }
  }

  // Directories are never tested.
  lemma DirectoriesNotTested(top: Option<Bytes>, h: Untar.Header)
    requires h.kind.Directory?
    ensures !Untar.Rejects(top, h)
  {
  }

  // After the directory a, the file a/../../x is accepted and leaves it, whatever
  // directory d the archive is extracted in.
  lemma ClimbingFileAccepted(d: string, mode: nat, size: nat)
    requires d != "" && d != "." && d != ".."
    ensures var h := Untar.Header([97, 47, 46, 46, 47, 46, 46, 47, 120], mode, size, Untar.File);
      && !Untar.Rejects(Some([97]), h) && Place([d], h.path) == ["x"] && Place([d], [97]) == [d, "a"]
      && !LiesUnder([d], [97], h.path)
  {
    hide *;
    SampleTexts();
    SampleSplits();
    SampleWalk(d);
    PlaceIs([d], [97]);
    PlaceIs([d], [97, 47, 46, 46, 47, 46, 46, 47, 120]);
    PrefixAccepted([97], Untar.Header([97, 47, 46, 46, 47, 46, 46, 47, 120], mode, size, Untar.File));
    NotUnder([d], [97], [97, 47, 46, 46, 47, 46, 46, 47, 120]);
  }

  lemma SampleTexts()
    ensures PathText([97]) == "a" && PathText([97, 47, 46, 46, 47, 46, 46, 47, 120]) == "a/../../x"
  {
  }

  lemma PlaceIs(directory: seq<string>, path: Bytes)
    requires path != [] && path[0] != 47
    ensures Place(directory, path) == Walk(directory, Split(SLASH, PathText(path)))
  {
    hide Walk, Split;
  }

  lemma PrefixAccepted(top: Bytes, h: Untar.Header)
    requires top <= h.path
    ensures !Untar.Rejects(Some(top), h)
  {
  }

  lemma NotUnder(directory: seq<string>, top: Bytes, path: Bytes)
    requires |Place(directory, path)| < |Place(directory, top)|
    ensures !LiesUnder(directory, top, path)
  {
    hide Place;
  }

  lemma SampleWalk(d: string)
    requires d != "" && d != "." && d != ".."
    ensures Walk([d], ["a"]) == [d, "a"] && Walk([d], ["a", "..", "..", "x"]) == ["x"]
  {
    hide Walk;
    WalkOne([d], "a");
    WalkOne([d, "a"], "..");
    WalkOne([d], "..");
    WalkOne([], "x");
    WalkConcat([d], ["a"], [".."]);
    WalkConcat([d], ["a", ".."], [".."]);
    WalkConcat([d], ["a", "..", ".."], ["x"]);
    assert [d] + ["a"] == [d, "a"] && [d, "a"][..1] == [d] && [d][..0] == [] && [] + ["x"] == ["x"];
    assert ["a"] + [".."] == ["a", ".."] && ["a", ".."] + [".."] == ["a", "..", ".."];
    assert ["a", "..", ".."] + ["x"] == ["a", "..", "..", "x"];
  }

  lemma SampleSplits()
    ensures Split(SLASH, "a") == ["a"] && Split(SLASH, "a/../../x") == ["a", "..", "..", "x"]
  {
    hide *;
    SplitName("..");
    SplitName("a");
    SplitName("x");
    SplitAt("a", "..");
    SplitAt("a/..", "..");
    SplitAt("a/../..", "x");
    assert "a" + "/" + ".." == "a/.." && "a/.." + "/" + ".." == "a/../.." && "a/../.." + "/" + "x" == "a/../../x";
    assert ["a"] + [".."] == ["a", ".."] && ["a", ".."] + [".."] == ["a", "..", ".."];
    assert ["a", "..", ".."] + ["x"] == ["a", "..", "..", "x"];
  }

  lemma SplitName(name: string)
    requires '/' !in name
    ensures Split(SLASH, name) == [name]
  {
    SplitOne(SLASH, name);
  }
}
