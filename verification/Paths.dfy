// Path normalisation: lib/path.js (normalizeString, normalize, join) and the
// second normaliser of lib/parse.js, both against a stack of segments.
module Paths {
  import opened Prelude

  // ---- Segments ----

  const SLASHES: set<char> := {'/', '\\'}
  const SLASH: set<char> := {'/'}

  // The pieces of s between separators. There is always at least one.
  function Split(separators: set<char>, s: string): (segments: seq<string>)
    ensures segments != []
  {
    if s == "" then [""]
    else
      var before, last := Split(separators, s[..|s| - 1]), s[|s| - 1];
      if last in separators then before + [""]
      else before[..|before| - 1] + [before[|before| - 1] + [last]]
  }

  function Join(segments: seq<string>): string
  {
    if segments == [] then ""
    else if |segments| == 1 then segments[0]
    else Join(segments[..|segments| - 1]) + "/" + segments[|segments| - 1]
  }

  predicate IsSegment(separators: set<char>, s: string)
  {
    s != "" && s != "." && forall c :: c in separators ==> c !in s
  }

  // One segment onto the stack: nothing for "" and ".", a pop for ".." unless
  // there is nothing to pop, and then ".." itself only if the path may climb.
  function Push(mayClimb: bool, stack: seq<string>, segment: string): seq<string>
  {
    if segment == "" || segment == "." then stack
    else if segment == ".." && stack != [] && stack[|stack| - 1] != ".." then stack[..|stack| - 1]
    else if segment == ".." && !mayClimb then stack
    else stack + [segment]
  }

  function PushAll(mayClimb: bool, stack: seq<string>, segments: seq<string>): seq<string>
  {
    if segments == [] then stack
    else
      Push(mayClimb, PushAll(mayClimb, stack, segments[..|segments| - 1]), segments[|segments| - 1])
  }

  function Reduce(mayClimb: bool, segments: seq<string>): seq<string>
  {
    PushAll(mayClimb, [], segments)
  }

  // The stacks that reducing can produce.
  predicate IsReduced(separators: set<char>, mayClimb: bool, stack: seq<string>)
  {
    && (forall i :: 0 <= i < |stack| ==> IsSegment(separators, stack[i]))
    && (forall i :: 0 <= i < |stack| && stack[i] == ".." ==>
          mayClimb && forall j :: 0 <= j < i ==> stack[j] == "..")
  }

  // ---- lib/path.js ----

  predicate IsAbsolute(path: string)
  {
    path != "" && path[0] == '/'
  }

  predicate EndsInSlash(path: string)
  {
    path != "" && path[|path| - 1] == '/'
  }

  // How normalize of lib/path.js writes a stack.
  function Render(absolute: bool, stack: seq<string>, slash: bool): string
  {
    if stack == [] then
      if absolute then "/" else if slash then "./" else "."
    else
      (if absolute then "/" else "") + Join(stack) + (if slash then "/" else "")
  }

  // What normalize of lib/path.js computes.
  function Normalize(path: string): string
  {
    Render(IsAbsolute(path), Reduce(!IsAbsolute(path), Split(SLASHES, path)), EndsInSlash(path))
  }

  method NormalizePath(path: string) returns (normal: string)
    ensures normal == Normalize(path)
  {
    if path == "" {
      assert Split(SLASHES, "") == [""];
      assert Reduce(true, [""]) == [];
      return ".";
    }
    var isAbsolute := path[0] == '/';
    var sep := path[|path| - 1] == '/';
    normal := NormalizeString(path, !isAbsolute);
    SplitSeparatorFree(SLASHES, path);
    JoinEmpty(SLASHES, !isAbsolute, Split(SLASHES, path));
    if normal == "" {
      if isAbsolute {
        return "/";
      }
      return if sep then "./" else ".";
    }
    if sep {
      normal := normal + "/";
    }
    return if isAbsolute then "/" + normal else normal;
  }

  // The non-empty arguments with a slash between them, or None.
  function Glue(args: seq<string>): Option<string>
  {
    if args == [] then None
    else
      var before, last := Glue(args[..|args| - 1]), args[|args| - 1];
      if last == "" then before
      else if before.None? then Some(last)
      else Some(before.value + "/" + last)
  }

  // What join of lib/path.js computes.
  function JoinPaths(args: seq<string>): string
  {
    var joined := Glue(args);
    if joined.None? then "." else Normalize(joined.value)
  }

  method JoinArguments(args: seq<string>) returns (path: string)
    ensures path == JoinPaths(args)
  {
    if |args| == 0 {
      return ".";
    }
    var joined: Option<string> := None;
    for i := 0 to |args|
      invariant joined == Glue(args[..i])
    {
      assert args[..i + 1][..i] == args[..i];
      var arg := args[i];
      if |arg| > 0 {
        if joined.None? {
          joined := Some(arg);
        } else {
          joined := Some(joined.value + "/" + arg);
        }
      }
    }
    assert args[..|args|] == args;
    if joined.None? {
      return ".";
    }
    path := NormalizePath(joined.value);
  }

  // ---- lib/parse.js ----

  // What normalize of lib/parse.js computes.
  function NormalizeImport(path: string): string
  {
    (if IsAbsolute(path) then "/" else "") + Join(Reduce(!IsAbsolute(path), Split(SLASH, path)))
  }

  method NormalizeImportPath(path: string) returns (normal: string)
    ensures normal == NormalizeImport(path)
  {
    var abs := path != "" && path[0] == '/';
    var parts: seq<string> := [];
    var split := Split(SLASH, path);
    for i := 0 to |split|
      invariant parts == Reduce(!abs, split[..i])
    {
      assert split[..i + 1][..i] == split[..i];
      var part := split[i];
      if part == "" || part == "." {
        continue;
      }
      if part == ".." && |parts| > 0 && parts[|parts| - 1] != ".." {
        parts := parts[..|parts| - 1];
        continue;
      }
      if part == ".." && abs {
        continue;
      }
      parts := parts + [part];
    }
    assert split[..|split|] == split;
    return (if abs then "/" else "") + Join(parts);
  }

  function DirName(path: string): string
  {
    var i := LastIndexOf(path, '/');
    if i < 0 then "." else path[..i]
  }

  predicate StartsWith(s: string, prefix: string)
  {
    prefix <= s
  }

  // The file a specifier means in an importing file: absolute, relative to
  // the importer, or else relative to the root.
  function Locate(specifier: string, importer: string, root: string): string
  {
    if specifier != "" && specifier[0] == '/' then NormalizeImport(specifier)
    else if StartsWith(specifier, "./") || StartsWith(specifier, "../") then
      NormalizeImport(DirName(importer) + "/" + specifier)
    else NormalizeImport(root + "/" + specifier)
  }

  // The name under which a file is reported: relative to the root if inside it.
  function KeyOf(path: string, root: string): string
  {
    if StartsWith(path, root + "/") then path[|root| + 1..] else path
  }

  // A name for a file in a report: what follows the root and a slash, or else
  // the name of the file itself.
  predicate IsKey(key: string, file: string, root: string)
  {
    file == root + "/" + key || (key == file && !(root + "/" <= file))
  }

  lemma KeyExactly(key: string, file: string, root: string)
    ensures IsKey(key, file, root) <==> KeyOf(file, root) == key
  {
    assert StartsWith(file, root + "/") ==> file == root + "/" + file[|root| + 1..];
    assert file == root + "/" + key ==> file[|root| + 1..] == key;
  }

  // The last position of c in s, or -1.
  function LastIndexOf(s: string, c: char): (i: int)
    ensures -1 <= i < |s|
    ensures i >= 0 ==> s[i] == c
    ensures forall j :: i < j < |s| ==> s[j] != c
  {
    if s == "" then -1 else if s[|s| - 1] == c then |s| - 1 else LastIndexOf(s[..|s| - 1], c)
  }

  // The text and last-segment length that stand for a stack.
  ghost predicate Represents(mayClimb: bool, res: string, lastSegmentLength: int, stack: seq<string>)
  {
    && IsReduced(SLASHES, mayClimb, stack)
    && res == Join(stack)
    && lastSegmentLength == if stack == [] then 0 else |stack[|stack| - 1]|
  }

  // The machine's test that the text does not end in a ".." segment.
  predicate TopIsNotDotDot(res: string, lastSegmentLength: int)
  {
    |res| < 2 || lastSegmentLength != 2 || res[|res| - 1] != '.' || res[|res| - 2] != '.'
  }

  // What the loop of normalizeString knows before it looks at character i.
  ghost predicate Scanned(mayClimb: bool, path: string, i: nat, lastSlash: int, dots: int, stack: seq<string>)
    requires i <= |path| && -1 <= lastSlash < i
  {
    var split := Split(SLASHES, path[..i]);
    && stack == Reduce(mayClimb, split[..|split| - 1])
    && split[|split| - 1] == path[lastSlash + 1..i]
    && dots == DotCount(path[lastSlash + 1..i])
  }

  // The character machine: dots counts the current segment while it is all
  // dots and is -1 once it is not.
  method NormalizeString(path: string, allowAboveRoot: bool) returns (res: string)
    ensures res == Join(Reduce(allowAboveRoot, Split(SLASHES, path)))
  {
    hide Scanned, Represents, Split, Reduce, Push, IsReduced;
    res := "";
    var lastSegmentLength := 0;
    var lastSlash := -1;
    var dots := 0;
    var code := '\0';
    var i := 0;
    ghost var stack: seq<string> := [];
    ScanStarts(allowAboveRoot, path);
    while i <= |path|
      invariant 0 <= i <= |path| + 1 && -1 <= lastSlash < i
      invariant i > 0 && i <= |path| ==> code == path[i - 1]
      invariant i == 0 ==> code == '\0'
      invariant i <= |path| ==> Scanned(allowAboveRoot, path, i, lastSlash, dots, stack)
      invariant i > |path| ==> stack == Reduce(allowAboveRoot, Split(SLASHES, path))
      invariant Represents(allowAboveRoot, res, lastSegmentLength, stack)
    {
      if i < |path| {
        code := path[i];
      } else if code in SLASHES {
        AfterSeparator(allowAboveRoot, path, lastSlash, dots, stack);
        break;
      } else {
        code := '/';
      }
      ghost var segment := path[lastSlash + 1..i];
      if code in SLASHES {
        ghost var next := SegmentEnds(allowAboveRoot, path, i, lastSlash, dots, res, lastSegmentLength, stack);
        if lastSlash == i - 1 || dots == 1 {
        } else if dots == 2 {
          TopExactly(allowAboveRoot, res, lastSegmentLength, stack);
          if TopIsNotDotDot(res, lastSegmentLength) {
            if |res| > 2 {
              PopRepresents(allowAboveRoot, res, lastSegmentLength, stack);
              var lastSlashIndex := LastIndexOf(res, '/');
              if lastSlashIndex == -1 {
                res := "";
                lastSegmentLength := 0;
              } else {
                res := res[..lastSlashIndex];
                lastSegmentLength := |res| - 1 - LastIndexOf(res, '/');
              }
              lastSlash := i;
              dots := 0;
              i := i + 1;
              stack := next;
              continue;
            } else if |res| != 0 {
              PopRepresents(allowAboveRoot, res, lastSegmentLength, stack);
              res := "";
              lastSegmentLength := 0;
              lastSlash := i;
              dots := 0;
              i := i + 1;
              stack := next;
              continue;
            }
          }
          if allowAboveRoot {
            AppendRepresents(allowAboveRoot, res, lastSegmentLength, stack, "..");
            res := if |res| > 0 then res + ("/" + "..") else "..";
            lastSegmentLength := 2;
          }
        } else {
          AppendRepresents(allowAboveRoot, res, lastSegmentLength, stack, segment);
          if |res| > 0 {
            res := res + ("/" + path[lastSlash + 1..i]);
          } else {
            res := path[lastSlash + 1..i];
          }
          lastSegmentLength := i - lastSlash - 1;
        }
        lastSlash := i;
        dots := 0;
        stack := next;
      } else {
        SegmentGoesOn(allowAboveRoot, path, i, lastSlash, dots, stack);
        if code == '.' && dots != -1 {
          dots := dots + 1;
        } else {
          dots := -1;
        }
      }
      i := i + 1;
    }
    RepresentsText(allowAboveRoot, res, lastSegmentLength, stack);
  }

  lemma RepresentsText(mayClimb: bool, res: string, lastSegmentLength: int, stack: seq<string>)
    requires Represents(mayClimb, res, lastSegmentLength, stack)
    ensures res == Join(stack)
  {
  }

  lemma SegmentGoesOn(mayClimb: bool, path: string, i: nat, lastSlash: int, dots: int, stack: seq<string>)
    requires i < |path| && -1 <= lastSlash < i && path[i] !in SLASHES
    requires Scanned(mayClimb, path, i, lastSlash, dots, stack)
    ensures Scanned(mayClimb, path, i + 1, lastSlash, if path[i] == '.' && dots != -1 then dots + 1 else -1, stack)
  {
    hide Split, PushAll, Reduce;
    SplitNext(path, i);
    assert path[lastSlash + 1..i + 1] == path[lastSlash + 1..i] + [path[i]];
    var before, after := Split(SLASHES, path[..i]), Split(SLASHES, path[..i + 1]);
    assert after[..|after| - 1] == before[..|before| - 1];
  }

  lemma ScanStarts(mayClimb: bool, path: string)
    ensures Scanned(mayClimb, path, 0, -1, 0, []) && Represents(mayClimb, "", 0, [])
  {
    assert path[..0] == "";
  }

  // A separator, or the end of the path, pushes the current segment.
  lemma SegmentEnds(mayClimb: bool, path: string, i: nat, lastSlash: int, dots: int,
                    res: string, lastSegmentLength: int, stack: seq<string>) returns (next: seq<string>)
    requires i <= |path| && -1 <= lastSlash < i && (i < |path| ==> path[i] in SLASHES)
    requires Represents(mayClimb, res, lastSegmentLength, stack)
    requires Scanned(mayClimb, path, i, lastSlash, dots, stack)
    ensures var segment := path[lastSlash + 1..i];
      && (segment == "." <==> dots == 1)
      && (segment == ".." <==> dots == 2)
      && next == (if segment == "" || segment == "." then stack
                  else if segment == ".." && stack != [] && stack[|stack| - 1] != ".." then stack[..|stack| - 1]
                  else if segment == ".." && !mayClimb then stack
                  else stack + [segment])
      && (next == stack + [segment] ==> IsSegment(SLASHES, segment))
      && IsReduced(SLASHES, mayClimb, next)
      && (i < |path| ==> Scanned(mayClimb, path, i + 1, i, 0, next))
      && (i == |path| ==> next == Reduce(mayClimb, Split(SLASHES, path)))
  {
    var segment, before := path[lastSlash + 1..i], Split(SLASHES, path[..i]);
    next := Push(mayClimb, stack, segment);
    DotCountMeans(segment);
    SplitSeparatorFree(SLASHES, path[..i]);
    PushReduced(SLASHES, mayClimb, stack, segment);
    if i < |path| {
      SplitNext(path, i);
      assert (before + [""])[..|before|] == before;
    } else {
      assert path[..i] == path;
    }
  }

  lemma AfterSeparator(mayClimb: bool, path: string, lastSlash: int, dots: int, stack: seq<string>)
    requires |path| > 0 && -1 <= lastSlash < |path| && path[|path| - 1] in SLASHES
    requires Scanned(mayClimb, path, |path|, lastSlash, dots, stack)
    ensures stack == Reduce(mayClimb, Split(SLASHES, path))
  {
    assert path[..|path|] == path;
  }

  lemma TopExactly(mayClimb: bool, res: string, lastSegmentLength: int, stack: seq<string>)
    requires Represents(mayClimb, res, lastSegmentLength, stack)
    ensures res == "" <==> stack == []
    ensures TopIsNotDotDot(res, lastSegmentLength) <==> stack == [] || stack[|stack| - 1] != ".."
  {
    if stack != [] {
      var top := stack[|stack| - 1];
      JoinTop(SLASHES, mayClimb, stack);
      if |top| == 2 {
        assert top[0] == res[|res| - 2] && top[1] == res[|res| - 1];
        assert top == [top[0], top[1]];
      }
    }
  }

  lemma PopRepresents(mayClimb: bool, res: string, lastSegmentLength: int, stack: seq<string>)
    requires Represents(mayClimb, res, lastSegmentLength, stack) && stack != []
    ensures var slash, next := LastIndexOf(res, '/'), stack[..|stack| - 1];
      if slash == -1 then Represents(mayClimb, "", 0, next)
      else Represents(mayClimb, res[..slash], slash - 1 - LastIndexOf(res[..slash], '/'), next)
    ensures |res| <= 2 ==> LastIndexOf(res, '/') == -1
  {
    hide IsReduced, LastIndexOf, Join;
    var next := stack[..|stack| - 1];
    ReducedPrefix(SLASHES, mayClimb, stack);
    JoinTop(SLASHES, mayClimb, stack);
    LastSlashOfJoin(mayClimb, stack);
    JoinPop(stack);
    if |stack| > 1 {
      JoinPop(next);
      LastSlashOfJoin(mayClimb, next);
    }
  }

  lemma ReducedPrefix(separators: set<char>, mayClimb: bool, stack: seq<string>)
    requires IsReduced(separators, mayClimb, stack) && stack != []
    ensures IsReduced(separators, mayClimb, stack[..|stack| - 1])
  {
  }

  lemma JoinPop(stack: seq<string>)
    requires stack != []
    ensures var next, top := stack[..|stack| - 1], stack[|stack| - 1];
      if |stack| == 1 then Join(next) == "" && Join(stack) == top
      else |Join(stack)| == |Join(next)| + 1 + |top| && Join(stack)[..|Join(next)|] == Join(next)
  {
  }

  lemma AppendRepresents(mayClimb: bool, res: string, lastSegmentLength: int, stack: seq<string>, segment: string)
    requires Represents(mayClimb, res, lastSegmentLength, stack) && IsSegment(SLASHES, segment)
    requires IsReduced(SLASHES, mayClimb, stack + [segment])
    ensures Represents(mayClimb, if |res| > 0 then res + ("/" + segment) else segment, |segment|, stack + [segment])
  {
    if stack != [] {
      JoinTop(SLASHES, mayClimb, stack);
      assert (stack + [segment])[..|stack|] == stack;
    }
  }

  // The counter of the character machine after the characters of a segment.
  function DotCount(segment: string): int
  {
    if segment == "" then 0
    else
      var before := DotCount(segment[..|segment| - 1]);
      if segment[|segment| - 1] == '.' && before != -1 then before + 1 else -1
  }

  lemma {:induction false} DotCountMeans(segment: string)
    ensures DotCount(segment) == 0 <==> segment == ""
    ensures DotCount(segment) == 1 <==> segment == "."
    ensures DotCount(segment) == 2 <==> segment == ".."
    ensures -1 <= DotCount(segment)
  {
    if segment != "" {
      var before := segment[..|segment| - 1];
      DotCountMeans(before);
      assert segment == before + [segment[|segment| - 1]];
    }
  }

  // ---- Splitting and joining ----

  lemma SplitNext(path: string, i: nat)
    requires i < |path|
    ensures var before := Split(SLASHES, path[..i]);
      Split(SLASHES, path[..i + 1]) ==
        if path[i] in SLASHES then before + [""]
        else before[..|before| - 1] + [before[|before| - 1] + [path[i]]]
  {
    assert path[..i + 1][..i] == path[..i];
  }

  lemma {:induction false} SplitSeparatorFree(separators: set<char>, s: string)
    ensures forall i, c :: 0 <= i < |Split(separators, s)| && c in separators ==> c !in Split(separators, s)[i]
  {
    if s != "" {
      SplitSeparatorFree(separators, s[..|s| - 1]);
    }
  }

  // Reducing separator-free segments, and joining to "" only the empty stack.
  lemma {:induction false} ReduceReduced(separators: set<char>, mayClimb: bool, segments: seq<string>)
    requires forall i, c :: 0 <= i < |segments| && c in separators ==> c !in segments[i]
    ensures IsReduced(separators, mayClimb, Reduce(mayClimb, segments))
  {
    if segments != [] {
      hide IsReduced, Push;
      var before := segments[..|segments| - 1];
      ReduceReduced(separators, mayClimb, before);
      PushReduced(separators, mayClimb, Reduce(mayClimb, before), segments[|segments| - 1]);
    } else {
      assert Reduce(mayClimb, segments) == [];
    }
  }

  lemma JoinEmpty(separators: set<char>, mayClimb: bool, segments: seq<string>)
    requires forall i, c :: 0 <= i < |segments| && c in separators ==> c !in segments[i]
    ensures Join(Reduce(mayClimb, segments)) == "" <==> Reduce(mayClimb, segments) == []
  {
    ReduceReduced(separators, mayClimb, segments);
    if Reduce(mayClimb, segments) != [] {
      JoinTop(separators, mayClimb, Reduce(mayClimb, segments));
    }
  }

  lemma PushReduced(separators: set<char>, mayClimb: bool, stack: seq<string>, segment: string)
    requires IsReduced(separators, mayClimb, stack)
    requires forall c :: c in separators ==> c !in segment
    ensures IsReduced(separators, mayClimb, Push(mayClimb, stack, segment))
  {
  }

  lemma JoinTop(separators: set<char>, mayClimb: bool, stack: seq<string>)
    requires IsReduced(separators, mayClimb, stack) && stack != []
    ensures var top, joined := stack[|stack| - 1], Join(stack);
      && |joined| >= |top| > 0
      && joined[|joined| - |top|..] == top
      && (|stack| > 1 ==> |joined| > 2)
  {
    if |stack| > 1 {
      JoinTop(separators, mayClimb, stack[..|stack| - 1]);
    }
  }

  lemma {:induction false} LastIndexOfTail(s: string, t: string, c: char)
    requires c !in t
    ensures LastIndexOf(s + t, c) == LastIndexOf(s, c)
  {
    if t == "" {
      assert s + t == s;
    } else {
      assert (s + t)[..|s + t| - 1] == s + t[..|t| - 1];
      LastIndexOfTail(s, t[..|t| - 1], c);
    }
  }

  lemma LastSlashOfJoin(mayClimb: bool, stack: seq<string>)
    requires IsReduced(SLASHES, mayClimb, stack) && stack != []
    ensures LastIndexOf(Join(stack), '/') == if |stack| == 1 then -1 else |Join(stack[..|stack| - 1])|
  {
    var top := stack[|stack| - 1];
    if |stack| == 1 {
      LastIndexOfTail("", top, '/');
      assert "" + top == top;
    } else {
      LastIndexOfTail(Join(stack[..|stack| - 1]) + "/", top, '/');
    }
  }
}
