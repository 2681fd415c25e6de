// What path normalisation guarantees: it is canonical, idempotent, compatible
// with join, faithful to where a path leads, and the same in lib/path.js and
// lib/parse.js.
module PathTheorems {
  import opened Prelude
  import opened Paths

  // ---- Segments of composed paths ----

  lemma SplitSnoc(separators: set<char>, s: string, last: char)
    ensures var before := Split(separators, s);
      Split(separators, s + [last]) ==
        if last in separators then before + [""]
        else before[..|before| - 1] + [before[|before| - 1] + [last]]
  {
    assert (s + [last])[..|s|] == s;
  }

  lemma {:induction false} SplitConcat(separators: set<char>, a: string, c: char, b: string)
    requires c in separators
    ensures Split(separators, a + [c] + b) == Split(separators, a) + Split(separators, b)
  {
    hide Split;
    if b == "" {
      assert a + [c] + b == a + [c] && Split(separators, "") == [""] by { SplitEmpty(separators); }
      SplitSnoc(separators, a, c);
    } else {
      var before, last := b[..|b| - 1], b[|b| - 1];
      assert a + [c] + b == a + [c] + before + [last] && b == before + [last];
      SplitConcat(separators, a, c, before);
      SplitSnoc(separators, a + [c] + before, last);
      SplitSnoc(separators, before, last);
      var left, right := Split(separators, a), Split(separators, before);
      assert (left + right)[..|left + right| - 1] == left + right[..|right| - 1];
    }
  }

  lemma SplitEmpty(separators: set<char>)
    ensures Split(separators, "") == [""]
  {
  }

  lemma {:induction false} SplitOne(separators: set<char>, s: string)
    requires forall c :: c in separators ==> c !in s
    ensures Split(separators, s) == [s]
  {
    if s != "" {
      SplitOne(separators, s[..|s| - 1]);
      assert s[..|s| - 1] + [s[|s| - 1]] == s;
      assert s[|s| - 1] in s;
    }
  }

  lemma {:induction false} SplitJoin(separators: set<char>, mayClimb: bool, stack: seq<string>)
    requires '/' in separators && stack != [] && IsReduced(separators, mayClimb, stack)
    ensures Split(separators, Join(stack)) == stack
  {
    hide Split;
    var before, top := stack[..|stack| - 1], stack[|stack| - 1];
    assert IsSegment(separators, top);
    SplitOne(separators, top);
    if |stack| > 1 {
      ReducedPrefix(separators, mayClimb, stack);
      hide IsReduced, IsSegment;
      SplitJoin(separators, mayClimb, before);
      SplitConcat(separators, Join(before), '/', top);
      assert Join(stack) == Join(before) + ['/'] + top;
    }
  }

  // ---- Reducing in stages ----

  lemma {:induction false} PushAllConcat(mayClimb: bool, stack: seq<string>, a: seq<string>, b: seq<string>)
    ensures PushAll(mayClimb, stack, a + b) == PushAll(mayClimb, PushAll(mayClimb, stack, a), b)
  {
    if b == [] {
      assert a + b == a;
    } else {
      assert (a + b)[..|a + b| - 1] == a + b[..|b| - 1];
      PushAllConcat(mayClimb, stack, a, b[..|b| - 1]);
    }
  }

  // A reduced stack reduces to itself, also between empty segments.
  lemma {:induction false} ReduceReducedStack(separators: set<char>, mayClimb: bool, stack: seq<string>)
    requires IsReduced(separators, mayClimb, stack)
    ensures Reduce(mayClimb, stack) == stack
  {
    if stack != [] {
      var before := stack[..|stack| - 1];
      ReducedPrefix(separators, mayClimb, stack);
      ReduceReducedStack(separators, mayClimb, before);
      assert before + [stack[|stack| - 1]] == stack;
    }
  }

  lemma PushEmpty(mayClimb: bool, stack: seq<string>)
    ensures PushAll(mayClimb, stack, [""]) == stack
  {
    assert [""][..0] == [];
    assert PushAll(mayClimb, stack, []) == stack;
  }

  lemma PathIsReduced(path: string)
    ensures IsReduced(SLASHES, !IsAbsolute(path), Reduce(!IsAbsolute(path), Split(SLASHES, path)))
  {
    SplitSeparatorFree(SLASHES, path);
    ReduceReduced(SLASHES, !IsAbsolute(path), Split(SLASHES, path));
  }

  // ---- Canonical paths ----

  lemma ReduceAfterSlash(separators: set<char>, stack: seq<string>)
    requires '/' in separators && IsReduced(separators, false, stack) && stack != []
    ensures Reduce(false, Split(separators, "/" + Join(stack))) == stack
  {
    hide Join;
    SplitJoin(separators, false, stack);
    ReduceReducedStack(separators, false, stack);
    SplitConcat(separators, "", '/', Join(stack));
    SplitEmpty(separators);
    assert "" + ['/'] + Join(stack) == "/" + Join(stack);
    PushAllConcat(false, [], [""], stack);
    PushEmpty(false, []);
  }

  lemma ReduceBeforeSlash(separators: set<char>, mayClimb: bool, path: string)
    requires '/' in separators
    ensures Reduce(mayClimb, Split(separators, path + "/")) == Reduce(mayClimb, Split(separators, path))
  {
    hide Split;
    SplitConcat(separators, path, '/', "");
    SplitEmpty(separators);
    assert path + ['/'] + "" == path + "/";
    PushAllConcat(mayClimb, [], Split(separators, path), [""]);
    PushEmpty(mayClimb, Reduce(mayClimb, Split(separators, path)));
  }

  lemma ReduceWrapped(separators: set<char>, absolute: bool, stack: seq<string>, slash: bool)
    requires '/' in separators && IsReduced(separators, !absolute, stack) && stack != []
    ensures Reduce(!absolute, Split(separators,
              (if absolute then "/" else "") + Join(stack) + (if slash then "/" else ""))) == stack
  {
    hide Split, Reduce, Join;
    var front := (if absolute then "/" else "") + Join(stack);
    assert "" + Join(stack) == Join(stack);
    if absolute {
      ReduceAfterSlash(separators, stack);
    } else {
      SplitJoin(separators, true, stack);
      ReduceReducedStack(separators, true, stack);
    }
    if slash {
      ReduceBeforeSlash(separators, !absolute, front);
    } else {
      assert front + "" == front;
    }
  }

  // Rendering a reduced stack loses nothing but the slash after the root.
  lemma RenderReadBack(absolute: bool, stack: seq<string>, slash: bool)
    requires IsReduced(SLASHES, !absolute, stack)
    ensures var s := Render(absolute, stack, slash);
      && IsAbsolute(s) == absolute
      && Reduce(!absolute, Split(SLASHES, s)) == stack
      && (stack != [] || !absolute ==> EndsInSlash(s) == slash)
      && s != ""
  {
    var s := Render(absolute, stack, slash);
    if stack == [] {
      RootReduces();
    } else {
      ReduceWrapped(SLASHES, absolute, stack, slash);
      JoinEnds(!absolute, stack);
    }
  }

  lemma RootReduces()
    ensures Reduce(false, Split(SLASHES, "/")) == []
    ensures Reduce(true, Split(SLASHES, ".")) == []
    ensures Reduce(true, Split(SLASHES, "./")) == []
  {
    assert Split(SLASHES, "") == [""];
    SplitConcat(SLASHES, "", '/', "");
    assert "" + ['/'] + "" == "/";
    PushAllConcat(false, [], [""], [""]);
    PushEmpty(false, []);
    SplitOne(SLASHES, ".");
    assert ["."][..0] == [];
    SplitConcat(SLASHES, ".", '/', "");
    assert "." + ['/'] + "" == "./";
    PushAllConcat(true, [], ["."], [""]);
    PushEmpty(true, []);
  }

  lemma JoinEnds(mayClimb: bool, stack: seq<string>)
    requires IsReduced(SLASHES, mayClimb, stack) && stack != []
    ensures Join(stack) != "" && Join(stack)[0] != '/' && Join(stack)[|Join(stack)| - 1] != '/'
  {
    var top := stack[|stack| - 1];
    JoinTop(SLASHES, mayClimb, stack);
    assert IsSegment(SLASHES, top);
    assert top[|top| - 1] in top && top[0] in top;
    assert Join(stack)[|Join(stack)| - |top|..][|top| - 1] == top[|top| - 1];
    if |stack| > 1 {
      ReducedPrefix(SLASHES, mayClimb, stack);
      JoinEnds(mayClimb, stack[..|stack| - 1]);
    }
  }

  // A canonical path is a reduced stack, written out.
  ghost predicate IsCanonical(path: string)
  {
    exists absolute, stack, slash ::
      IsReduced(SLASHES, !absolute, stack) && path == Render(absolute, stack, slash)
  }

  // normalize maps every string to a canonical one and changes no canonical one.
  lemma NormalizeCanonical(path: string)
    ensures IsCanonical(Normalize(path))
    ensures IsCanonical(path) <==> Normalize(path) == path
  {
    PathIsReduced(path);
    if absolute, stack, slash :| IsReduced(SLASHES, !absolute, stack) && path == Render(absolute, stack, slash) {
      RenderReadBack(absolute, stack, slash);
    }
  }

  lemma NormalizeIdempotent(path: string)
    ensures Normalize(Normalize(path)) == Normalize(path)
  {
    NormalizeCanonical(path);
    NormalizeCanonical(Normalize(path));
  }

  // ---- Joining ----

  lemma ComposedReduces(front: string, rest: string)
    requires front != "" && rest != ""
    ensures var whole, mayClimb := front + "/" + rest, !IsAbsolute(front);
      && IsAbsolute(whole) == IsAbsolute(front)
      && EndsInSlash(whole) == EndsInSlash(rest)
      && Reduce(mayClimb, Split(SLASHES, whole)) ==
         PushAll(mayClimb, Reduce(mayClimb, Split(SLASHES, front)), Split(SLASHES, rest))
  {
    hide Split, PushAll;
    var whole := front + ['/'] + rest;
    assert whole == front + "/" + rest;
    assert whole[0] == front[0] && whole[|whole| - 1] == rest[|rest| - 1];
    SplitConcat(SLASHES, front, '/', rest);
    PushAllConcat(!IsAbsolute(front), [], Split(SLASHES, front), Split(SLASHES, rest));
  }

  // Normalising the front of a path first makes no difference.
  lemma NormalizeFront(front: string, rest: string)
    requires front != "" && rest != ""
    ensures Normalize(Normalize(front) + "/" + rest) == Normalize(front + "/" + rest)
  {
    hide Split, PushAll, Reduce, Render, IsReduced, IsAbsolute, EndsInSlash;
    var absolute := IsAbsolute(front);
    PathIsReduced(front);
    RenderReadBack(absolute, Reduce(!absolute, Split(SLASHES, front)), EndsInSlash(front));
    ComposedReduces(front, rest);
    ComposedReduces(Normalize(front), rest);
  }

  // A backslash separates like a slash for lib/path.js, and is part of a name for
  // lib/parse.js.
  lemma BackslashSeparates(front: string, rest: string)
    requires front != "" && rest != ""
    ensures Normalize(front + "\\" + rest) == Normalize(front + "/" + rest)
    ensures var name := front + "\\" + rest; '/' !in name ==> NormalizeImport(name) == name
  {
    hide Split, PushAll;
    var name, slashed := front + ['\\'] + rest, front + ['/'] + rest;
    assert name == front + "\\" + rest && slashed == front + "/" + rest;
    SplitConcat(SLASHES, front, '\\', rest);
    SplitConcat(SLASHES, front, '/', rest);
    assert name[|name| - 1] == slashed[|name| - 1] && name[0] == slashed[0];
    if '/' !in name {
      SplitOne(SLASH, name);
      assert |name| > 2 && !IsAbsolute(name);
      OneSegment(name);
    }
  }

  lemma OneSegment(name: string)
    requires |name| > 2
    ensures Join(PushAll(true, [], [name])) == name
  {
    assert [name][..0] == [] && PushAll(true, [], []) == [];
  }

  lemma {:induction false} GlueConcat(a: seq<string>, b: seq<string>)
    ensures Glue(a + b) ==
      if Glue(b).None? then Glue(a)
      else if Glue(a).None? then Glue(b)
      else Some(Glue(a).value + "/" + Glue(b).value)
    ensures Glue(b).Some? ==> Glue(b).value != ""
  {
    if b == [] {
      assert a + b == a;
    } else {
      var before, last := b[..|b| - 1], b[|b| - 1];
      GlueConcat(a, before);
      assert (a + b)[..|a + b| - 1] == a + before;
      if last != "" && Glue(before).Some? && Glue(a).Some? {
        assert Glue(a).value + "/" + (Glue(before).value + "/" + last)
            == Glue(a).value + "/" + Glue(before).value + "/" + last;
      }
    }
  }

  // Joining in two stages is joining at once, unless the first stage joins
  // nothing and the second one starts at the root.
  lemma JoinInStagesExactly(a: seq<string>, b: seq<string>)
    ensures JoinPaths([JoinPaths(a)] + b) == JoinPaths(a + b) <==>
            !(Glue(a).None? && Glue(b).Some? && IsAbsolute(Glue(b).value))
  {
    var first := JoinPaths(a);
    GlueConcat(a, b);
    GlueConcat([first], b);
    GlueConcat([], a);
    assert [] + a == a;
    assert first != "" by {
      if Glue(a).Some? {
        var path := Glue(a).value;
        PathIsReduced(path);
        RenderReadBack(IsAbsolute(path), Reduce(!IsAbsolute(path), Split(SLASHES, path)), EndsInSlash(path));
      }
    }
    assert Glue([first]) == Some(first) by {
      assert [first][..0] == [];
    }
    if Glue(b).None? {
      JoinNothing(a, first);
    } else if Glue(a).Some? {
      NormalizeFront(Glue(a).value, Glue(b).value);
    } else {
      DotInFront(Glue(b).value);
    }
  }

  lemma JoinNothing(a: seq<string>, first: string)
    requires first == JoinPaths(a)
    ensures Normalize(first) == first
  {
    if Glue(a).Some? {
      NormalizeIdempotent(Glue(a).value);
    } else {
      RootReduces();
    }
  }

  lemma DotInFront(path: string)
    requires path != ""
    ensures Normalize("." + "/" + path) == Normalize(path) <==> !IsAbsolute(path)
  {
    var dotted := "." + ['/'] + path;
    SplitConcat(SLASHES, ".", '/', path);
    SplitOne(SLASHES, ".");
    PushAllConcat(true, [], ["."], Split(SLASHES, path));
    assert ["."][..0] == [];
    assert PushAll(true, [], ["."]) == [];
    assert dotted[|dotted| - 1] == path[|path| - 1];
    PathIsReduced(path);
    PathIsReduced(dotted);
    RenderReadBack(IsAbsolute(path), Reduce(!IsAbsolute(path), Split(SLASHES, path)), EndsInSlash(path));
    RenderReadBack(IsAbsolute(dotted), Reduce(!IsAbsolute(dotted), Split(SLASHES, dotted)), EndsInSlash(dotted));
  }

  // ---- Where a path leads ----

  // Walking directories: a name goes down, ".." goes up and stays put at the
  // root, "" and "." do nothing.
  function WalkStep(here: seq<string>, segment: string): seq<string>
  {
    if segment == "" || segment == "." then here
    else if segment != ".." then here + [segment]
    else if here == [] then []
    else here[..|here| - 1]
  }

  function Walk(directory: seq<string>, segments: seq<string>): seq<string>
  {
    if segments == [] then directory
    else WalkStep(Walk(directory, segments[..|segments| - 1]), segments[|segments| - 1])
  }

  // Where a path leads from a directory.
  function Destination(directory: seq<string>, path: string): seq<string>
  {
    Walk(if IsAbsolute(path) then [] else directory, Split(SLASHES, path))
  }

  lemma {:induction false} ReduceKeepsWalk(separators: set<char>, mayClimb: bool, directory: seq<string>,
                                           segments: seq<string>)
    requires mayClimb || directory == []
    requires forall i, c :: 0 <= i < |segments| && c in separators ==> c !in segments[i]
    ensures Walk(directory, Reduce(mayClimb, segments)) == Walk(directory, segments)
  {
    if segments != [] {
      var before, segment := segments[..|segments| - 1], segments[|segments| - 1];
      ReduceKeepsWalk(separators, mayClimb, directory, before);
      ReduceReduced(separators, mayClimb, before);
      PushKeepsWalk(separators, mayClimb, directory, Reduce(mayClimb, before), segment);
    }
  }

  lemma PushKeepsWalk(separators: set<char>, mayClimb: bool, directory: seq<string>, stack: seq<string>,
                      segment: string)
    requires (mayClimb || directory == []) && IsReduced(separators, mayClimb, stack)
    ensures Walk(directory, Push(mayClimb, stack, segment)) == Walk(directory, stack + [segment])
  {
    assert (stack + [segment])[..|stack|] == stack;
    if stack != [] {
      assert IsSegment(separators, stack[|stack| - 1]);
    }
  }

  // A normalised path leads where the path led, from every directory.
  lemma NormalizeKeepsDestination(directory: seq<string>, path: string)
    ensures Destination(directory, Normalize(path)) == Destination(directory, path)
  {
    var absolute := IsAbsolute(path);
    var stack := Reduce(!absolute, Split(SLASHES, path));
    var start := if absolute then [] else directory;
    PathIsReduced(path);
    RenderReadBack(absolute, stack, EndsInSlash(path));
    SplitSeparatorFree(SLASHES, path);
    SplitSeparatorFree(SLASHES, Normalize(path));
    ReduceKeepsWalk(SLASHES, !absolute, start, Split(SLASHES, path));
    ReduceKeepsWalk(SLASHES, !absolute, start, Split(SLASHES, Normalize(path)));
  }

  // How many ".." a reduced stack starts with.
  function Climbs(stack: seq<string>): (k: nat)
    ensures k <= |stack|
  {
    if stack == [] then 0
    else if stack[|stack| - 1] == ".." then |stack|
    else Climbs(stack[..|stack| - 1])
  }

  lemma {:induction false} ClimbsCount(separators: set<char>, mayClimb: bool, stack: seq<string>)
    requires IsReduced(separators, mayClimb, stack)
    ensures forall i :: 0 <= i < |stack| ==> stack[i] != "" && (stack[i] == ".." <==> i < Climbs(stack))
  {
    if stack != [] {
      assert forall i :: 0 <= i < |stack| ==> IsSegment(separators, stack[i]);
      if stack[|stack| - 1] != ".." {
        var before := stack[..|stack| - 1];
        ReducedPrefix(separators, mayClimb, stack);
        ClimbsCount(separators, mayClimb, before);
        assert forall i :: 0 <= i < |before| ==> before[i] == stack[i];
      }
    }
  }

  // The directory this many steps up, at most the root.
  function Above(directory: seq<string>, k: nat): seq<string>
  {
    if k <= |directory| then directory[..|directory| - k] else []
  }

  // A reduced stack climbs and then names what it names.
  lemma {:induction false} WalkReduced(separators: set<char>, mayClimb: bool, directory: seq<string>,
                                       stack: seq<string>)
    requires IsReduced(separators, mayClimb, stack)
    ensures Walk(directory, stack) == Above(directory, Climbs(stack)) + stack[Climbs(stack)..]
  {
    if stack != [] {
      var before, top := stack[..|stack| - 1], stack[|stack| - 1];
      assert IsSegment(separators, top);
      ReducedPrefix(separators, mayClimb, stack);
      assert top == ".." ==> Climbs(before) == |before|;
      assert before + [top] == stack;
      hide IsReduced, IsSegment;
      WalkReduced(separators, mayClimb, directory, before);
      assert Walk(directory, stack) == WalkStep(Walk(directory, before), top);
      hide Walk;
      if top == ".." {
        assert before[|before|..] == [] && stack[|stack|..] == [];
      } else {
        assert Climbs(stack) == Climbs(before) && stack[Climbs(stack)..] == before[Climbs(before)..] + [top];
      }
    }
  }

  // Two relative paths lead to the same place from every directory only when
  // they have the same segments left: normalising identifies them exactly.
  lemma NormalizeComplete(a: string, b: string)
    requires IsAbsolute(a) == IsAbsolute(b) && EndsInSlash(a) == EndsInSlash(b)
    ensures Normalize(a) == Normalize(b) <==>
            forall directory :: Destination(directory, a) == Destination(directory, b)
  {
    forall directory | Normalize(a) == Normalize(b)
      ensures Destination(directory, a) == Destination(directory, b)
    {
      NormalizeKeepsDestination(directory, a);
      NormalizeKeepsDestination(directory, b);
    }
    if forall directory :: Destination(directory, a) == Destination(directory, b) {
      SameDestinations(a, b);
    }
  }

  lemma WalkFromDeep(path: string, deep: seq<string>)
    requires Climbs(Reduce(!IsAbsolute(path), Split(SLASHES, path))) <= |deep|
    ensures var stack := Reduce(!IsAbsolute(path), Split(SLASHES, path));
      Destination(deep, path) ==
        if IsAbsolute(path) then stack else deep[..|deep| - Climbs(stack)] + stack[Climbs(stack)..]
  {
    var mayClimb := !IsAbsolute(path);
    var stack := Reduce(mayClimb, Split(SLASHES, path));
    var start := if mayClimb then deep else [];
    PathIsReduced(path);
    SplitSeparatorFree(SLASHES, path);
    hide Reduce, Split;
    ReduceKeepsWalk(SLASHES, mayClimb, start, Split(SLASHES, path));
    ClimbsCount(SLASHES, mayClimb, stack);
    if !mayClimb {
      NoClimb(SLASHES, stack);
    }
    WalkReduced(SLASHES, mayClimb, start, stack);
  }

  lemma NoClimb(separators: set<char>, stack: seq<string>)
    requires IsReduced(separators, false, stack)
    ensures Climbs(stack) == 0
  {
    ClimbsCount(separators, false, stack);
    if stack != [] {
      assert stack[0] != "..";
    }
  }

  lemma SameDestinations(a: string, b: string)
    requires IsAbsolute(a) == IsAbsolute(b)
    requires forall directory :: Destination(directory, a) == Destination(directory, b)
    ensures Reduce(!IsAbsolute(a), Split(SLASHES, a)) == Reduce(!IsAbsolute(b), Split(SLASHES, b))
  {
    hide Reduce, Split, Destination;
    var s, t := Reduce(!IsAbsolute(a), Split(SLASHES, a)), Reduce(!IsAbsolute(b), Split(SLASHES, b));
    PathIsReduced(a);
    PathIsReduced(b);
    var deep := seq(Climbs(s) + Climbs(t), _ => "");
    assert Destination(deep, a) == Destination(deep, b);
    WalkFromDeep(a, deep);
    WalkFromDeep(b, deep);
    if !IsAbsolute(a) {
      SameClimbs(deep, s, t);
    }
  }

  function Blanks(segments: seq<string>): nat
  {
    if segments == [] || segments[0] != "" then 0 else 1 + Blanks(segments[1..])
  }

  lemma {:induction false} BlanksInFront(blank: seq<string>, names: seq<string>)
    requires forall i :: 0 <= i < |blank| ==> blank[i] == ""
    requires names == [] || names[0] != ""
    ensures Blanks(blank + names) == |blank|
  {
    if blank == [] {
      assert blank + names == names;
    } else {
      BlanksInFront(blank[1..], names);
      assert (blank + names)[1..] == blank[1..] + names;
    }
  }

  lemma SameClimbs(start: seq<string>, s: seq<string>, t: seq<string>)
    requires IsReduced(SLASHES, true, s) && IsReduced(SLASHES, true, t)
    requires Climbs(s) + Climbs(t) <= |start|
    requires forall i :: 0 <= i < |start| ==> start[i] == ""
    requires start[..|start| - Climbs(s)] + s[Climbs(s)..] == start[..|start| - Climbs(t)] + t[Climbs(t)..]
    ensures s == t
  {
    ClimbsCount(SLASHES, true, s);
    ClimbsCount(SLASHES, true, t);
    hide IsReduced, Climbs, Blanks;
    var m, n := |start| - Climbs(s), |start| - Climbs(t);
    BlanksInFront(start[..m], s[Climbs(s)..]);
    BlanksInFront(start[..n], t[Climbs(t)..]);
    assert m == n;
    assert s[Climbs(s)..] == (start[..m] + s[Climbs(s)..])[m..] == t[Climbs(t)..];
    assert s[..Climbs(s)] == t[..Climbs(t)];
    assert s == s[..Climbs(s)] + s[Climbs(s)..] && t == t[..Climbs(t)] + t[Climbs(t)..];
  }

  // ---- The two normalisers ----

  function WithoutTrailingSlash(path: string): string
  {
    if EndsInSlash(path) && path != "/" then path[..|path| - 1] else path
  }

  // On paths without backslashes lib/parse.js normalises as lib/path.js does
  // and drops the trailing slash, and it writes the current directory as "".
  lemma NormalisersAgree(path: string)
    requires '\\' !in path
    ensures NormalizeImport(path) ==
      var plain := WithoutTrailingSlash(Normalize(path)); if plain == "." then "" else plain
  {
    SplitWithoutBackslash(path);
    PathIsReduced(path);
    hide Split, Reduce, IsReduced, IsAbsolute, EndsInSlash, Join, Render, WithoutTrailingSlash;
    RenderPlain(IsAbsolute(path), Reduce(!IsAbsolute(path), Split(SLASHES, path)), EndsInSlash(path));
  }

  lemma RenderPlain(absolute: bool, stack: seq<string>, slash: bool)
    requires IsReduced(SLASHES, !absolute, stack)
    ensures (if absolute then "/" else "") + Join(stack) ==
      var plain := WithoutTrailingSlash(Render(absolute, stack, slash)); if plain == "." then "" else plain
  {
    if stack != [] {
      JoinEnds(!absolute, stack);
      JoinIsNotDot(!absolute, stack);
      hide Join, IsReduced;
      SlashDropped(absolute, Join(stack));
    }
  }

  lemma SlashDropped(absolute: bool, text: string)
    requires text != "" && text != "." && text[|text| - 1] != '/'
    ensures var front := (if absolute then "/" else "") + text;
      && WithoutTrailingSlash(front + "/") == front && WithoutTrailingSlash(front + "") == front && front != "."
  {
    var front := (if absolute then "/" else "") + text;
    assert front + "" == front && (front + "/")[..|front|] == front;
    assert front[|front| - 1] == text[|text| - 1];
  }

  lemma {:induction false} SplitWithoutBackslash(s: string)
    requires '\\' !in s
    ensures Split(SLASH, s) == Split(SLASHES, s)
  {
    if s != "" {
      SplitWithoutBackslash(s[..|s| - 1]);
      assert s[|s| - 1] in s;
    }
  }

  lemma JoinIsNotDot(mayClimb: bool, stack: seq<string>)
    requires IsReduced(SLASHES, mayClimb, stack) && stack != []
    ensures Join(stack) != "."
  {
    JoinTop(SLASHES, mayClimb, stack);
    assert IsSegment(SLASHES, stack[|stack| - 1]);
  }
}
