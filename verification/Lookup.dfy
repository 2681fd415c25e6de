// Where the module loader of main.js looks a specifier up, and when that is the
// file that lib/parse.js finds for it.
module Lookup {
  import opened Paths
  import opened PathTheorems

  // A specifier that is no builtin is read as a path from the current
  // directory, whatever file imports it.
  function LoadPath(specifier: string, cwd: string): string
  {
    NormalizeImport(if IsAbsolute(specifier) then specifier else cwd + "/" + specifier)
  }

  predicate IsRelative(specifier: string)
  {
    StartsWith(specifier, "./") || StartsWith(specifier, "../")
  }

  // The directory that a path names, and how many steps a specifier climbs
  // before it names anything.
  function Directory(path: string): seq<string>
  {
    Walk([], Split(SLASH, path))
  }

  function Ups(specifier: string): nat
  {
    Climbs(Reduce(true, Split(SLASH, specifier)))
  }

  function Names(specifier: string): seq<string>
  {
    Reduce(true, Split(SLASH, specifier))[Ups(specifier)..]
  }

  // The directory that lib/parse.js starts from.
  function Base(specifier: string, importer: string, root: string): string
  {
    if IsRelative(specifier) then DirName(importer) else root
  }

  // The directories that the scanner and the loader start from are the same once
  // the specifier has climbed.
  predicate SameLookup(specifier: string, importer: string, root: string, cwd: string)
  {
    IsAbsolute(specifier) ||
    Above(Directory(Base(specifier, importer, root)), Ups(specifier)) == Above(Directory(cwd), Ups(specifier))
  }

  // ---- Walks ----

  lemma {:induction false} WalkConcat(directory: seq<string>, a: seq<string>, b: seq<string>)
    ensures Walk(directory, a + b) == Walk(Walk(directory, a), b)
  {
    if b == [] {
      assert a + b == a;
    } else {
      assert (a + b)[..|a + b| - 1] == a + b[..|b| - 1];
      WalkConcat(directory, a, b[..|b| - 1]);
    }
  }

  lemma WalkOne(directory: seq<string>, segment: string)
    ensures Walk(directory, [segment]) == WalkStep(directory, segment)
  {
    assert [segment][..0] == [] && Walk(directory, []) == directory;
  }

  lemma SplitLetter(c: char)
    requires c != '/'
    ensures Split(SLASH, [c]) == [[c]]
  {
    SplitOne(SLASH, [c]);
  }

  lemma SplitAt(a: string, b: string)
    ensures Split(SLASH, a + "/" + b) == Split(SLASH, a) + Split(SLASH, b)
  {
    SplitConcat(SLASH, a, '/', b);
  }

  // A specifier climbs from a directory and then names what it names.
  lemma SpecifierWalk(directory: seq<string>, specifier: string)
    ensures Walk(directory, Split(SLASH, specifier)) == Above(directory, Ups(specifier)) + Names(specifier)
  {
    var segments := Split(SLASH, specifier);
    SplitSeparatorFree(SLASH, specifier);
    hide Split, Walk, PushAll;
    ReduceKeepsWalk(SLASH, true, directory, segments);
    ReduceReduced(SLASH, true, segments);
    WalkReduced(SLASH, true, directory, Reduce(true, segments));
  }

  // An absolute path is normalised to the directory it names.
  lemma AbsoluteWalk(path: string)
    requires IsAbsolute(path)
    ensures IsReduced(SLASH, false, Directory(path))
    ensures NormalizeImport(path) == "/" + Join(Directory(path))
  {
    var segments := Split(SLASH, path);
    SplitSeparatorFree(SLASH, path);
    hide Split, Walk, PushAll, Join;
    ReduceKeepsWalk(SLASH, false, [], segments);
    ReduceReduced(SLASH, false, segments);
    var stack := Reduce(false, segments);
    WalkReduced(SLASH, false, [], stack);
    NoClimb(SLASH, stack);
    assert [] + stack == stack;
  }

  lemma JoinInjective(a: seq<string>, b: seq<string>)
    requires IsReduced(SLASH, false, a) && IsReduced(SLASH, false, b) && Join(a) == Join(b)
    ensures a == b
  {
    if a != [] {
      SplitJoin(SLASH, false, a);
      JoinNotEmpty(a);
    }
    if b != [] {
      SplitJoin(SLASH, false, b);
      JoinNotEmpty(b);
    }
  }

  lemma JoinNotEmpty(stack: seq<string>)
    requires IsReduced(SLASH, false, stack) && stack != []
    ensures Join(stack) != ""
  {
    assert IsSegment(SLASH, stack[|stack| - 1]);
  }

  // What a specifier means from a directory.
  lemma FromDirectory(base: string, specifier: string)
    requires IsAbsolute(base + "/")
    ensures IsReduced(SLASH, false, Above(Directory(base), Ups(specifier)) + Names(specifier))
    ensures NormalizeImport(base + "/" + specifier)
         == "/" + Join(Above(Directory(base), Ups(specifier)) + Names(specifier))
  {
    hide Join, Above, Ups, Names, NormalizeImport, IsReduced;
    assert base + "/" + specifier == base + ['/'] + specifier;
    SplitConcat(SLASH, base, '/', specifier);
    WalkConcat([], Split(SLASH, base), Split(SLASH, specifier));
    SpecifierWalk(Directory(base), specifier);
    AbsoluteWalk(base + "/" + specifier);
  }

  // The scanner and the loader find the same file exactly when the specifier is
  // absolute or both start from the same directory.
  lemma LookupsAgreeExactly(specifier: string, importer: string, root: string, cwd: string)
    requires IsAbsolute(Base(specifier, importer, root) + "/") && IsAbsolute(cwd)
    ensures Locate(specifier, importer, root) == LoadPath(specifier, cwd)
       <==> SameLookup(specifier, importer, root, cwd)
  {
    hide NormalizeImport, Directory, Ups, Names, Above, DirName, IsReduced;
    if !IsAbsolute(specifier) {
      var base := Base(specifier, importer, root);
      FromDirectory(base, specifier);
      FromDirectory(cwd, specifier);
      var found, loaded := Above(Directory(base), Ups(specifier)), Above(Directory(cwd), Ups(specifier));
      if Locate(specifier, importer, root) == LoadPath(specifier, cwd) {
        assert ("/" + Join(found + Names(specifier)))[1..] == Join(found + Names(specifier));
        assert ("/" + Join(loaded + Names(specifier)))[1..] == Join(loaded + Names(specifier));
        JoinInjective(found + Names(specifier), loaded + Names(specifier));
        SameFront(found, loaded, Names(specifier));
      }
    }
  }

  lemma SameFront(a: seq<string>, b: seq<string>, end: seq<string>)
    requires a + end == b + end
    ensures a == b
  {
    assert |a| == |b|;
    assert (a + end)[..|a|] == a && (b + end)[..|b|] == b;
  }

  // Bare specifiers agree when the root is the current directory.
  lemma BareSpecifiersAgree(specifier: string, importer: string, cwd: string)
    requires IsAbsolute(cwd) && !IsRelative(specifier)
    ensures Locate(specifier, importer, cwd) == LoadPath(specifier, cwd)
  {
  }

  // ---- The files that the scanner finds ----

  // The name of a file from the root of the file system, with nothing left to
  // normalise.
  predicate IsFileName(path: string)
  {
    IsAbsolute(path) && NormalizeImport(path) == path
  }

  // A file name spells the directories on the way to the file.
  lemma FileNameSpelled(stack: seq<string>)
    requires IsReduced(SLASH, false, stack)
    ensures Directory("/" + Join(stack)) == stack && IsFileName("/" + Join(stack))
  {
    hide Join, Walk, Split;
    SplitSegments(stack);
    SplitAt("", Join(stack));
    assert "" + "/" + Join(stack) == "/" + Join(stack);
    WalkConcat([], Split(SLASH, ""), Split(SLASH, Join(stack)));
    SplitEmpty(SLASH);
    WalkOne([], "");
    assert Directory("/" + Join(stack)) == stack;
    AbsoluteWalk("/" + Join(stack));
  }

  lemma SplitSegments(stack: seq<string>)
    requires IsReduced(SLASH, false, stack)
    ensures Walk([], Split(SLASH, Join(stack))) == stack
  {
    if stack == [] {
      SplitEmpty(SLASH);
      WalkOne([], "");
    } else {
      SplitJoin(SLASH, false, stack);
      WalkReduced(SLASH, false, [], stack);
      NoClimb(SLASH, stack);
    }
  }

  lemma NormalizedName(path: string)
    requires IsAbsolute(path)
    ensures IsFileName(NormalizeImport(path))
  {
    hide Join, NormalizeImport, Directory, IsReduced;
    AbsoluteWalk(path);
    FileNameSpelled(Directory(path));
  }

  // The directory of a file is the one its name goes through last.
  lemma DirectoryOfFile(stack: seq<string>)
    requires IsReduced(SLASH, false, stack) && stack != []
    ensures Directory(DirName("/" + Join(stack))) == stack[..|stack| - 1]
    ensures IsAbsolute(DirName("/" + Join(stack)) + "/")
  {
    var before, top := stack[..|stack| - 1], stack[|stack| - 1];
    TopJoined(stack);
    hide Join, Directory, IsReduced, DirName, IsSegment, NormalizeImport;
    if before == [] {
      DirNameOf("", top);
      EmptyName();
    } else {
      DirNameOf("/" + Join(before), top);
      FileNameSpelled(before);
    }
  }

  lemma TopJoined(stack: seq<string>)
    requires IsReduced(SLASH, false, stack) && stack != []
    ensures var before, top := stack[..|stack| - 1], stack[|stack| - 1];
      && IsReduced(SLASH, false, before) && '/' !in top
      && "/" + Join(stack) == (if before == [] then "" else "/" + Join(before)) + "/" + top
  {
    assert IsSegment(SLASH, stack[|stack| - 1]);
    ReducedPrefix(SLASH, false, stack);
    hide IsReduced;
  }

  lemma EmptyName()
    ensures Directory("") == []
  {
    WalkOne([], "");
  }

  lemma DirNameOf(directory: string, name: string)
    requires '/' !in name
    ensures DirName(directory + "/" + name) == directory
  {
    LastIndexOfTail(directory + "/", name, '/');
    assert LastIndexOf(directory + "/", '/') == |directory|;
    assert (directory + "/" + name)[..|directory|] == directory;
  }

  // Where the scanner looks: an absolute specifier is walked from the root of
  // the file system, one that starts with a dot and a slash or two dots and a
  // slash from the directory of the importing file, any other from the root of
  // the program.
  lemma LocateExactly(specifier: string, importer: seq<string>, root: string)
    requires IsReduced(SLASH, false, importer) && importer != [] && IsAbsolute(root)
    ensures var from :=
        if IsAbsolute(specifier) then []
        else if "./" <= specifier || "../" <= specifier then importer[..|importer| - 1]
        else Directory(root);
      var found := Locate(specifier, "/" + Join(importer), root);
      IsFileName(found) && Directory(found) == Walk(from, Split(SLASH, specifier))
  {
    hide Join, NormalizeImport, IsReduced, DirName, Walk, Split;
    var path := "/" + Join(importer);
    if IsAbsolute(specifier) {
      WalkFound(specifier);
    } else {
      var base := if StartsWith(specifier, "./") || StartsWith(specifier, "../") then DirName(path) else root;
      DirectoryOfFile(importer);
      WalkFound(base + "/" + specifier);
      SplitAt(base, specifier);
      WalkConcat([], Split(SLASH, base), Split(SLASH, specifier));
    }
  }

  lemma WalkFound(path: string)
    requires IsAbsolute(path)
    ensures IsFileName(NormalizeImport(path)) && Directory(NormalizeImport(path)) == Directory(path)
  {
    hide Join, NormalizeImport, Directory, IsReduced, IsFileName;
    AbsoluteWalk(path);
    FileNameSpelled(Directory(path));
  }

  // From the root every file is found again under the name it is reported by.
  lemma KeyFindsFile(key: string, file: string, root: string, importer: string)
    requires IsFileName(file) && IsKey(key, file, root)
    ensures Locate(key, importer, root) == file
  {
    if file == root + "/" + key {
      KeyIsBare(key, file, root);
    }
    hide NormalizeImport, DirName;
  }

  lemma KeyIsBare(key: string, file: string, root: string)
    requires IsFileName(file) && file == root + "/" + key
    ensures !IsAbsolute(key) && !IsRelative(key)
  {
    FileSegments(file);
    SplitAt(root, key);
    FrontSegment(key);
    assert key != "" ==> |file| > 1;
    hide Split, IsFileName, IsName;
    assert Split(SLASH, file)[|Split(SLASH, root)|] == Split(SLASH, key)[0];
  }

  // What is not bare starts with a segment that is no name.
  lemma FrontSegment(specifier: string)
    ensures IsAbsolute(specifier) || IsRelative(specifier) ==> !IsName(Split(SLASH, specifier)[0])
  {
    hide Split;
    if IsAbsolute(specifier) {
      assert specifier == "" + "/" + specifier[1..];
      FirstSegment("", specifier[1..]);
    } else if "./" <= specifier {
      assert specifier == "." + "/" + specifier[2..];
      FirstSegment(".", specifier[2..]);
    } else if "../" <= specifier {
      assert specifier == ".." + "/" + specifier[3..];
      FirstSegment("..", specifier[3..]);
    }
  }

  predicate IsName(segment: string)
  {
    segment != "" && segment != "." && segment != ".."
  }

  lemma FirstSegment(segment: string, rest: string)
    requires '/' !in segment
    ensures Split(SLASH, segment + "/" + rest)[0] == segment
  {
    SplitAt(segment, rest);
    SplitOne(SLASH, segment);
  }

  // Only the root itself has an empty segment after the first slash, and no file
  // name has a dot or two dots for a segment.
  lemma FileSegments(file: string)
    requires IsFileName(file)
    ensures var segments := Split(SLASH, file);
      file == "/" || forall i :: 0 < i < |segments| ==> IsName(segments[i])
  {
    AbsoluteWalk(file);
    var stack := Directory(file);
    hide NormalizeImport, Directory, Walk;
    if stack != [] {
      SplitJoin(SLASH, false, stack);
      assert file == "" + "/" + Join(stack);
      SplitAt("", Join(stack));
      SplitEmpty(SLASH);
      forall i | 0 <= i < |stack| ensures IsName(stack[i]) {
        assert IsSegment(SLASH, stack[i]);
      }
    }
  }
}
