/** Lexical path processing: filepath.Clean and filepath.Join by path components. */
module Paths {

  predicate HasSlash(s: string) {
    exists i :: 0 <= i < |s| && s[i] == '/'
  }

  predicate HasPrefix(s: string, prefix: string) {
    |prefix| <= |s| && s[..|prefix|] == prefix
  }

  predicate HasDots(s: string) {
    exists i :: 0 <= i < |s| - 1 && s[i] == '.' && s[i + 1] == '.'
  }

  /** The stretches between slashes, empty ones included. */
  function Split(s: string): (parts: seq<string>)
    ensures parts != []
    ensures forall i :: 0 <= i < |parts| ==> !HasSlash(parts[i])
  {
    if s == "" then [""]
    else if s[0] == '/' then [""] + Split(s[1..])
    else
      var parts := Split(s[1..]);
      assert forall i :: 0 <= i < |[s[0]] + parts[0]| ==>
        ([s[0]] + parts[0])[i] == if i == 0 then s[0] else parts[0][i - 1];
      [[s[0]] + parts[0]] + parts[1..]
  }

  function Join(parts: seq<string>): string {
    if parts == [] then ""
    else if |parts| == 1 then parts[0]
    else parts[0] + "/" + Join(parts[1..])
  }

  /** Drops empty parts and `.`, and lets `..` remove what precedes it; at the root there is
      nothing to remove. */
  function Resolve(rooted: bool, parts: seq<string>, done: seq<string>): seq<string>
    decreases |parts|
  {
    if parts == [] then done
    else
      var c, rest := parts[0], parts[1..];
      if c == "" || c == "." then Resolve(rooted, rest, done)
      else if c != ".." then Resolve(rooted, rest, done + [c])
      else if done != [] && done[|done| - 1] != ".." then Resolve(rooted, rest, done[..|done| - 1])
      else if rooted then Resolve(rooted, rest, done)
      else Resolve(rooted, rest, done + [".."])
  }

  predicate Rooted(path: string) {
    path != "" && path[0] == '/'
  }

  /** What is left of a path: the names from its start to the file. */
  function Components(path: string): seq<string> {
    Resolve(Rooted(path), Split(path), [])
  }

  /** filepath.Clean */
  function Clean(path: string): string {
    if Rooted(path) then "/" + Join(Components(path))
    else if Components(path) == [] then "."
    else Join(Components(path))
  }

  /** filepath.Join of a base and a name: leading empty elements are ignored. */
  function JoinPath(base: string, name: string): string {
    if base != "" then Clean(base + "/" + name)
    else if name != "" then Clean(name)
    else ""
  }

  /** filepath.Abs in the working directory `cwd`. */
  function Abs(cwd: string, path: string): string {
    if Rooted(path) then Clean(path) else JoinPath(cwd, path)
  }

  /** Where a path leads from `cwd`: the names from the root on. */
  function Place(cwd: string, path: string): seq<string> {
    Resolve(true, (if Rooted(path) then [] else Split(cwd)) + Split(path), [])
  }

  /** A component that stands for itself. */
  predicate Proper(c: string) {
    c != "" && c != "." && c != ".." && !HasSlash(c)
  }

  predicate AllProper(parts: seq<string>) {
    forall i :: 0 <= i < |parts| ==> Proper(parts[i])
  }

  // ---------- splitting and joining ----------

  lemma {:induction false} SplitPlain(s: string)
    requires !HasSlash(s)
    ensures Split(s) == [s]
    decreases |s|
  {
    if s == "" {
    } else {
      assert s[0] != '/';
      forall i | 0 <= i < |s[1..]| ensures s[1..][i] != '/' { assert s[i + 1] != '/'; }
      SplitPlain(s[1..]);
      assert [s[0]] + s[1..] == s;
    }
  }

  lemma {:induction false} SplitAtSlash(a: string, b: string)
    ensures Split(a + "/" + b) == Split(a) + Split(b)
    decreases |a|
  {
    var s := a + "/" + b;
    if a == "" {
      assert s[1..] == b;
    } else {
      assert s[1..] == a[1..] + "/" + b;
      SplitAtSlash(a[1..], b);
    }
  }

  lemma {:induction false} SplitOfJoin(parts: seq<string>)
    requires parts != [] && forall i :: 0 <= i < |parts| ==> !HasSlash(parts[i])
    ensures Split(Join(parts)) == parts
    decreases |parts|
  {
    SplitPlain(parts[0]);
    if |parts| == 1 {
    } else {
      SplitAtSlash(parts[0], Join(parts[1..]));
      SplitOfJoin(parts[1..]);
    }
  }

  lemma {:induction false} JoinOfConcat(xs: seq<string>, ys: seq<string>)
    requires xs != [] && ys != []
    ensures Join(xs + ys) == Join(xs) + "/" + Join(ys)
    decreases |xs|
  {
    if |xs| == 1 {
      assert (xs + ys)[1..] == ys;
    } else {
      assert (xs + ys)[1..] == xs[1..] + ys;
      JoinOfConcat(xs[1..], ys);
      assert xs[0] + "/" + (Join(xs[1..]) + "/" + Join(ys)) == xs[0] + "/" + Join(xs[1..]) + "/" + Join(ys);
    }
  }

  lemma JoinIsNotEmpty(parts: seq<string>)
    requires parts != [] && AllProper(parts)
    ensures Join(parts) != "" && Join(parts)[0] == parts[0][0] != '/'
  {
  }

  // ---------- resolving ----------

  lemma {:induction false} ResolveProper(rooted: bool, parts: seq<string>, done: seq<string>)
    requires AllProper(parts)
    ensures Resolve(rooted, parts, done) == done + parts
    decreases |parts|
  {
    if parts == [] {
    } else {
      assert Proper(parts[0]);
      ResolveProper(rooted, parts[1..], done + [parts[0]]);
      assert done + [parts[0]] + parts[1..] == done + parts;
    }
  }

  lemma {:induction false} ResolveInTwo(rooted: bool, xs: seq<string>, ys: seq<string>, done: seq<string>)
    ensures Resolve(rooted, xs + ys, done) == Resolve(rooted, ys, Resolve(rooted, xs, done))
    decreases |xs|
  {
    if xs == [] {
      assert xs + ys == ys;
    } else {
      var c := xs[0];
      assert (xs + ys)[1..] == xs[1..] + ys;
      if c == "" || c == "." {
        ResolveInTwo(rooted, xs[1..], ys, done);
      } else if c != ".." {
        ResolveInTwo(rooted, xs[1..], ys, done + [c]);
      } else if done != [] && done[|done| - 1] != ".." {
        ResolveInTwo(rooted, xs[1..], ys, done[..|done| - 1]);
      } else if rooted {
        ResolveInTwo(rooted, xs[1..], ys, done);
      } else {
        ResolveInTwo(rooted, xs[1..], ys, done + [".."]);
      }
    }
  }

  /** What resolving leaves is proper, except for leading `..` of a relative path. */
  predicate NameOrUp(c: string) {
    c == ".." || Proper(c)
  }

  predicate AllNames(parts: seq<string>) {
    forall i :: 0 <= i < |parts| ==> NameOrUp(parts[i])
  }

  lemma {:induction false} ResolvedNames(rooted: bool, parts: seq<string>, done: seq<string>)
    requires forall i :: 0 <= i < |parts| ==> !HasSlash(parts[i])
    requires AllNames(done)
    ensures AllNames(Resolve(rooted, parts, done))
    decreases |parts|
  {
    if parts == [] {
    } else {
      var c := parts[0];
      if c == "" || c == "." {
        ResolvedNames(rooted, parts[1..], done);
      } else if c != ".." {
        ResolvedNames(rooted, parts[1..], done + [c]);
      } else if done != [] && done[|done| - 1] != ".." {
        ResolvedNames(rooted, parts[1..], done[..|done| - 1]);
      } else if rooted {
        ResolvedNames(rooted, parts[1..], done);
      } else {
        ResolvedNames(rooted, parts[1..], done + [".."]);
      }
    }
  }

  lemma ComponentNames(path: string)
    ensures AllNames(Components(path))
  {
    ResolvedNames(Rooted(path), Split(path), []);
  }

  // ---------- dots ----------

  /** Two dots in a row cannot straddle a slash. */
  lemma {:induction false} DotsOfJoin(parts: seq<string>)
    ensures HasDots(Join(parts)) <==> exists i :: 0 <= i < |parts| && HasDots(parts[i])
    decreases |parts|
  {
    if |parts| <= 1 {
    } else {
      DotsOfJoin(parts[1..]);
      DotsAtSlash(parts[0], Join(parts[1..]));
      if exists i :: 0 <= i < |parts[1..]| && HasDots(parts[1..][i]) {
        var i :| 0 <= i < |parts[1..]| && HasDots(parts[1..][i]);
        assert HasDots(parts[i + 1]);
      }
      if exists i :: 0 <= i < |parts| && HasDots(parts[i]) {
        var i :| 0 <= i < |parts| && HasDots(parts[i]);
        if i > 0 {
          assert HasDots(parts[1..][i - 1]);
        }
      }
    }
  }

  lemma DotsAtSlash(a: string, b: string)
    ensures HasDots(a + "/" + b) <==> HasDots(a) || HasDots(b)
  {
    var s := a + "/" + b;
    if HasDots(a) {
      var i :| 0 <= i < |a| - 1 && a[i] == '.' && a[i + 1] == '.';
      assert s[i] == '.' && s[i + 1] == '.';
    }
    if HasDots(b) {
      var i :| 0 <= i < |b| - 1 && b[i] == '.' && b[i + 1] == '.';
      assert s[|a| + 1 + i] == '.' && s[|a| + 1 + i + 1] == '.';
    }
    if HasDots(s) {
      var i :| 0 <= i < |s| - 1 && s[i] == '.' && s[i + 1] == '.';
      assert s[|a|] == '/';
      if i < |a| {
        assert a[i] == '.' && a[i + 1] == '.';
      } else {
        assert b[i - |a| - 1] == '.' && b[i - |a|] == '.';
      }
    }
  }

  // ---------- resolving twice ----------

  /** At the root no `..` is left. */
  lemma {:induction false} RootedNames(parts: seq<string>, done: seq<string>)
    requires (forall i :: 0 <= i < |parts| ==> !HasSlash(parts[i])) && AllProper(done)
    ensures AllProper(Resolve(true, parts, done))
    decreases |parts|
  {
    if parts == [] {
    } else {
      var c := parts[0];
      if c == "" || c == "." {
        RootedNames(parts[1..], done);
      } else if c != ".." {
        RootedNames(parts[1..], done + [c]);
      } else if done != [] && done[|done| - 1] != ".." {
        RootedNames(parts[1..], done[..|done| - 1]);
      } else {
        RootedNames(parts[1..], done);
      }
    }
  }

  /** A name and the `..` after it cancel out. */
  lemma NameThenUp(c: string, rest: seq<string>, done: seq<string>)
    requires Proper(c)
    ensures Resolve(true, [c, ".."] + rest, done) == Resolve(true, rest, done)
  {
    assert [c, ".."] + rest == [c] + ([".."] + rest);
    assert ([c] + ([".."] + rest))[1..] == [".."] + rest;
    assert ([".."] + rest)[1..] == rest;
    assert (done + [c])[..|done|] == done;
  }

  /** Nothing, or the place itself, on the way. */
  lemma SkipOne(acc: seq<string>, c: string, rest: seq<string>, done: seq<string>)
    requires c == "" || c == "."
    ensures Resolve(true, acc + ([c] + rest), done) == Resolve(true, acc + rest, done)
  {
    ResolveInTwo(true, acc, [c] + rest, done);
    ResolveInTwo(true, acc, rest, done);
    assert ([c] + rest)[1..] == rest;
  }

  /** A way back over the last name. */
  lemma BackOne(acc: seq<string>, rest: seq<string>, done: seq<string>)
    requires acc != [] && Proper(acc[|acc| - 1])
    ensures Resolve(true, acc + ([".."] + rest), done) == Resolve(true, acc[..|acc| - 1] + rest, done)
  {
    var front, last := acc[..|acc| - 1], acc[|acc| - 1];
    assert acc + ([".."] + rest) == front + ([last, ".."] + rest);
    ResolveInTwo(true, front, [last, ".."] + rest, done);
    NameThenUp(last, rest, Resolve(true, front, done));
    ResolveInTwo(true, front, rest, done);
  }

  lemma NamesButLast(acc: seq<string>)
    requires acc != [] && AllNames(acc)
    ensures acc[|acc| - 1] != ".." ==> Proper(acc[|acc| - 1])
    ensures AllNames(acc[..|acc| - 1])
  {
    assert NameOrUp(acc[|acc| - 1]);
  }

  lemma NamesAndOne(acc: seq<string>, c: string)
    requires AllNames(acc) && NameOrUp(c)
    ensures AllNames(acc + [c])
  {
  }

  /** To resolve a relative path first, and the rest of the way from the root later, is to resolve
      it at once. */
  lemma {:induction false} ResolveTwice(parts: seq<string>, acc: seq<string>, done: seq<string>)
    requires forall i :: 0 <= i < |parts| ==> !HasSlash(parts[i])
    requires AllNames(acc)
    ensures Resolve(true, Resolve(false, parts, acc), done) == Resolve(true, acc + parts, done)
    decreases |parts|
  {
    if parts == [] {
      assert acc + parts == acc;
    } else {
      var c, rest := parts[0], parts[1..];
      assert acc + parts == acc + ([c] + rest) == acc + [c] + rest;
      if c == "" || c == "." {
        SkipOne(acc, c, rest, done);
        ResolveTwice(rest, acc, done);
      } else if c == ".." && acc != [] && acc[|acc| - 1] != ".." {
        NamesButLast(acc);
        BackOne(acc, rest, done);
        ResolveTwice(rest, acc[..|acc| - 1], done);
      } else {
        assert !HasSlash(parts[0]);
        NamesAndOne(acc, c);
        ResolveTwice(rest, acc + [c], done);
      }
    }
  }

  // ---------- places ----------

  /** The absolute path is the root followed by the names of the place. */
  lemma AbsOfPlace(cwd: string, path: string)
    requires Rooted(cwd)
    ensures Abs(cwd, path) == "/" + Join(Place(cwd, path)) && AllProper(Place(cwd, path))
  {
    RootedNames((if Rooted(path) then [] else Split(cwd)) + Split(path), []);
    if Rooted(path) {
      assert [] + Split(path) == Split(path);
    } else {
      SplitAtSlash(cwd, path);
    }
  }

  lemma FirstOfJoin(parts: seq<string>)
    requires parts != [] && parts[0] != ""
    ensures Join(parts) != "" && Join(parts)[0] == parts[0][0]
  {
  }

  lemma NameHasNoSlash(c: string)
    requires NameOrUp(c)
    ensures c != "" && c[0] != '/' && !HasSlash(c)
  {
  }

  lemma NamesHaveNoSlash(parts: seq<string>)
    requires AllNames(parts)
    ensures forall i :: 0 <= i < |parts| ==> !HasSlash(parts[i])
  {
    forall i | 0 <= i < |parts|
      ensures !HasSlash(parts[i])
    {
      NameHasNoSlash(parts[i]);
    }
  }

  lemma SplitOfProper(parts: seq<string>)
    requires parts != [] && AllNames(parts)
    ensures Split(Join(parts)) == parts && Join(parts) != "" && !Rooted(Join(parts))
  {
    NamesHaveNoSlash(parts);
    SplitOfJoin(parts);
    NameHasNoSlash(parts[0]);
    FirstOfJoin(parts);
  }

  /** Cleaning a path does not change where it leads. */
  lemma PlaceOfClean(cwd: string, path: string)
    requires Rooted(cwd)
    ensures Place(cwd, Clean(path)) == Place(cwd, path)
  {
    var cs := Components(path);
    ComponentNames(path);
    if Rooted(path) {
      PlaceOfRooted(cwd, path);
    } else {
      ResolveInTwo(true, Split(cwd), Split(path), []);
      ResolveTwice(Split(path), [], Resolve(true, Split(cwd), []));
      assert [] + Split(path) == Split(path);
      if cs == [] {
        SplitPlain(".");
        ResolveInTwo(true, Split(cwd), ["."], []);
      } else {
        SplitOfProper(cs);
        ResolveInTwo(true, Split(cwd), cs, []);
      }
    }
  }

  lemma PlaceOfRooted(cwd: string, path: string)
    requires Rooted(path)
    ensures Place(cwd, Clean(path)) == Place(cwd, path)
  {
    var cs := Components(path);
    RootedNames(Split(path), []);
    assert [] + Split(path) == Split(path);
    if cs == [] {
      assert Clean(path) == "/" && Split("/") == ["", ""];
      assert ["", ""][1..] == [""] && [""][1..] == [];
    } else {
      SplitOfProper(cs);
      assert Split("/" + Join(cs)) == [""] + cs;
      assert ([""] + cs)[1..] == cs;
      ResolveProper(true, cs, []);
      assert [] + cs == cs;
    }
    assert [] + Split(Clean(path)) == Split(Clean(path));
  }

  /** Proper names behind a base lead below the base. */
  lemma PlaceBelow(cwd: string, base: string, cs: seq<string>)
    requires base != "" && cs != [] && AllProper(cs)
    ensures Place(cwd, base + "/" + Join(cs)) == Place(cwd, base) + cs
  {
    SplitOfProper(cs);
    SplitAtSlash(base, Join(cs));
    var way := if Rooted(base) then [] else Split(cwd);
    assert way + (Split(base) + cs) == (way + Split(base)) + cs;
    ResolveInTwo(true, way + Split(base), cs, []);
    ResolveProper(true, cs, Place(cwd, base));
  }

  lemma PlaceOfNothing(cwd: string, base: string, name: string)
    requires name == "" || name == "."
    ensures base != "" ==> Place(cwd, base + "/" + name) == Place(cwd, base)
    ensures Place(cwd, name) == Place(cwd, "")
  {
    SplitPlain(name);
    SplitPlain("");
    SplitAtSlash(base, name);
    var way := if Rooted(base) then [] else Split(cwd);
    assert way + (Split(base) + [name]) == (way + Split(base)) + [name];
    ResolveInTwo(true, way + Split(base), [name], []);
    ResolveInTwo(true, Split(cwd), [name], []);
    ResolveInTwo(true, Split(cwd), [""], []);
  }

  /** Joining a base, absolute or relative, with proper names leads to those names below the base. */
  lemma PlaceOfJoin(cwd: string, base: string, cs: seq<string>)
    requires Rooted(cwd) && cs != [] && AllProper(cs)
    ensures Place(cwd, JoinPath(base, Join(cs))) == Place(cwd, base) + cs
  {
    SplitOfProper(cs);
    if base != "" {
      PlaceOfClean(cwd, base + "/" + Join(cs));
      PlaceBelow(cwd, base, cs);
    } else {
      PlaceOfClean(cwd, Join(cs));
      SplitPlain("");
      ResolveInTwo(true, Split(cwd), cs, []);
      ResolveInTwo(true, Split(cwd), [""], []);
      ResolveProper(true, cs, Place(cwd, ""));
    }
  }

  lemma PlaceOfBase(cwd: string, base: string, name: string)
    requires Rooted(cwd) && (name == "" || name == ".")
    ensures Place(cwd, JoinPath(base, name)) == Place(cwd, base)
  {
    PlaceOfNothing(cwd, base, name);
    if base != "" {
      PlaceOfClean(cwd, base + "/" + name);
    } else if name != "" {
      PlaceOfClean(cwd, name);
    }
  }
}
