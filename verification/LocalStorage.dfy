/** The local file system back end: which paths it accepts under which base, which file each one
    names, and that on UUID paths it is the plain blob store that the service relies on. */
module LocalStorage {
  import opened Wrappers
  import opened Model
  import opened Paths

  datatype PathError = DotsInside | SystemDirectory | OutsideBase

  const SYSTEM_DIRECTORIES := ["etc", "var", "usr", "home", "root", "sys", "proc"]

  predicate IsSystemPath(path: string) {
    exists i :: 0 <= i < |SYSTEM_DIRECTORIES| && HasPrefix(path, SYSTEM_DIRECTORIES[i] + "/")
  }

  function TrimSlash(path: string): string {
    if Rooted(path) then path[1..] else path
  }

  /** The last check of sanitizePath, on the absolute paths. */
  predicate Inside(cwd: string, base: string, full: string) {
    HasPrefix(Abs(cwd, full), Abs(cwd, base) + "/") || Abs(cwd, full) == Abs(cwd, base)
  }

  /** sanitizePath of a store with this base, in the working directory `cwd`. */
  function SanitizePath(cwd: string, base: string, userPath: string): Result<string, PathError> {
    var cleanPath := TrimSlash(Clean(userPath));
    if HasDots(cleanPath) then Failure(DotsInside)
    else if IsSystemPath(cleanPath) then Failure(SystemDirectory)
    else if !Inside(cwd, base, JoinPath(base, cleanPath)) then Failure(OutsideBase)
    else Success(cleanPath)
  }

  // ---------- exactly which paths are accepted ----------

  /** Something below one of the seven directories. */
  predicate SystemComponents(cs: seq<string>) {
    |cs| >= 2 && cs[0] in {"etc", "var", "usr", "home", "root", "sys", "proc"}
  }

  predicate DottedComponents(cs: seq<string>) {
    exists i :: 0 <= i < |cs| && HasDots(cs[i])
  }

  /** The name that is handed back: `.` and the empty name stand for the base itself. */
  function NameOf(userPath: string): string {
    if Components(userPath) != [] then Join(Components(userPath))
    else if Rooted(userPath) then ""
    else "."
  }

  lemma CleanedName(userPath: string)
    ensures !HasDots(NameOf(userPath)) ==> AllProper(Components(userPath))
    ensures TrimSlash(Clean(userPath)) == NameOf(userPath)
    ensures HasDots(NameOf(userPath)) <==> DottedComponents(Components(userPath))
  {
    var cs := Components(userPath);
    ComponentNames(userPath);
    DotsOfJoin(cs);
    if !HasDots(NameOf(userPath)) {
      forall i | 0 <= i < |cs|
        ensures Proper(cs[i])
      {
        assert !HasDots(cs[i]) && NameOrUp(cs[i]);
        assert HasDots("..") by { assert ".."[0] == '.' && ".."[1] == '.'; }
      }
    }
    if !Rooted(userPath) && cs != [] {
      RelativeJoin(cs);
    }
  }

  lemma RelativeJoin(cs: seq<string>)
    requires cs != [] && AllNames(cs)
    ensures !Rooted(Join(cs))
  {
  }

  lemma SlashOfPrefix(s: string, prefix: string, i: nat)
    requires i < |prefix| && prefix[i] == '/'
    ensures HasPrefix(s, prefix) ==> HasSlash(s)
  {
  }

  lemma PrefixIsComponent(cs: seq<string>, name: string)
    requires AllProper(cs) && cs != [] && !HasSlash(name)
    ensures HasPrefix(Join(cs), name + "/") <==> |cs| >= 2 && cs[0] == name
  {
    var s := Join(cs);
    assert Proper(cs[0]);
    if |cs| == 1 {
      SlashOfPrefix(s, name + "/", |name|);
    } else {
      assert s == cs[0] + "/" + Join(cs[1..]);
      assert s[..|cs[0]| + 1] == cs[0] + "/";
      if HasPrefix(s, name + "/") {
        FirstSlash(s, cs[0], name);
      }
    }
  }

  lemma FirstSlash(s: string, a: string, b: string)
    requires HasPrefix(s, a + "/") && HasPrefix(s, b + "/") && !HasSlash(a) && !HasSlash(b)
    ensures a == b
  {
    assert s[|a|] == (a + "/")[|a|] && s[|b|] == (b + "/")[|b|];
    forall i | 0 <= i < |a| ensures s[i] == a[i] != '/' { assert s[i] == (a + "/")[i]; }
    forall i | 0 <= i < |b| ensures s[i] == b[i] != '/' { assert s[i] == (b + "/")[i]; }
  }

  lemma SystemPathIsComponent(cs: seq<string>)
    requires AllProper(cs) && cs != []
    ensures IsSystemPath(Join(cs)) <==> SystemComponents(cs)
  {
    forall i | 0 <= i < |SYSTEM_DIRECTORIES|
      ensures HasPrefix(Join(cs), SYSTEM_DIRECTORIES[i] + "/") <==> |cs| >= 2 && cs[0] == SYSTEM_DIRECTORIES[i]
    {
      assert !HasSlash(SYSTEM_DIRECTORIES[i]);
      PrefixIsComponent(cs, SYSTEM_DIRECTORIES[i]);
    }
    SystemNames(cs[0]);
    if cs[0] in SYSTEM_DIRECTORIES {
      var i :| 0 <= i < |SYSTEM_DIRECTORIES| && SYSTEM_DIRECTORIES[i] == cs[0];
    }
  }

  lemma SystemNames(c: string)
    ensures c in SYSTEM_DIRECTORIES <==> c in {"etc", "var", "usr", "home", "root", "sys", "proc"}
  {
    var ds := SYSTEM_DIRECTORIES;
    assert ds[0] == "etc" && ds[1] == "var" && ds[2] == "usr" && ds[3] == "home" && ds[4] == "root" && ds[5] == "sys"
           && ds[6] == "proc";
  }

  lemma InsideExactly(cwd: string, base: string, full: string, cs: seq<string>)
    requires Rooted(cwd) && Place(cwd, full) == Place(cwd, base) + cs && AllProper(cs)
    ensures Inside(cwd, base, full) <==> Place(cwd, base) != [] || cs == []
  {
    var at := Place(cwd, base);
    AbsOfPlace(cwd, base);
    AbsOfPlace(cwd, full);
    if cs == [] {
      assert at + cs == at;
    } else if at == [] {
      assert at + cs == cs;
      JoinIsNotEmpty(cs);
      assert ("/" + Join(cs))[1] != '/';
    } else {
      JoinOfConcat(at, cs);
      var root := "/" + Join(at) + "/";
      assert "/" + (Join(at) + "/" + Join(cs)) == root + Join(cs);
    }
  }

  /** Where an accepted path leads: to its components below the base. */
  lemma PlaceOfName(cwd: string, base: string, userPath: string)
    requires Rooted(cwd) && !DottedComponents(Components(userPath))
    ensures Place(cwd, JoinPath(base, NameOf(userPath))) == Place(cwd, base) + Components(userPath)
    ensures AllProper(Components(userPath))
  {
    CleanedName(userPath);
    if Components(userPath) == [] {
      PlaceOfBase(cwd, base, NameOf(userPath));
    } else {
      PlaceOfJoin(cwd, base, Components(userPath));
    }
  }

  /** For every base, absolute or relative, clean or not: a path is refused for two dots inside a
      component, for a system directory, or because the base is the root and the path is not, and
      for nothing else. What is accepted leads to the base or below it, so that for any other base
      than the root the final check never fires. */
  lemma AcceptedExactly(cwd: string, base: string, userPath: string)
    requires Rooted(cwd)
    ensures SanitizePath(cwd, base, userPath) ==
      if DottedComponents(Components(userPath)) then Failure(DotsInside)
      else if SystemComponents(Components(userPath)) then Failure(SystemDirectory)
      else if Place(cwd, base) == [] && Components(userPath) != [] then Failure(OutsideBase)
      else Success(NameOf(userPath))
    ensures SanitizePath(cwd, base, userPath).Success? ==>
      Place(cwd, JoinPath(base, NameOf(userPath))) == Place(cwd, base) + Components(userPath)
  {
    CleanedName(userPath);
    if !DottedComponents(Components(userPath)) {
      PlaceOfName(cwd, base, userPath);
      InsideExactly(cwd, base, JoinPath(base, NameOf(userPath)), Components(userPath));
      SystemExactly(userPath);
    }
  }

  lemma SystemExactly(userPath: string)
    requires AllProper(Components(userPath))
    ensures IsSystemPath(NameOf(userPath)) <==> SystemComponents(Components(userPath))
  {
    if Components(userPath) != [] {
      SystemPathIsComponent(Components(userPath));
    }
  }

  /** Accepted paths name the same file exactly if their components are the same. */
  lemma SameFileExactly(cwd: string, base: string, u: string, v: string)
    requires Rooted(cwd)
    requires SanitizePath(cwd, base, u).Success? && SanitizePath(cwd, base, v).Success?
    ensures Abs(cwd, JoinPath(base, NameOf(u))) == Abs(cwd, JoinPath(base, NameOf(v)))
       <==> Components(u) == Components(v)
  {
    AcceptedExactly(cwd, base, u);
    AcceptedExactly(cwd, base, v);
    var p, q := JoinPath(base, NameOf(u)), JoinPath(base, NameOf(v));
    AbsOfPlace(cwd, p);
    AbsOfPlace(cwd, q);
    if Abs(cwd, p) == Abs(cwd, q) {
      assert Join(Place(cwd, p)) == Abs(cwd, p)[1..] == Abs(cwd, q)[1..] == Join(Place(cwd, q));
      SameJoin(Place(cwd, p), Place(cwd, q));
      SameTail(Place(cwd, base), Components(u), Components(v));
    }
  }

  lemma SameTail(at: seq<string>, cs: seq<string>, ds: seq<string>)
    requires at + cs == at + ds
    ensures cs == ds
  {
    assert cs == (at + cs)[|at|..] && ds == (at + ds)[|at|..];
  }

  lemma SameJoin(cs: seq<string>, ds: seq<string>)
    requires AllProper(cs) && AllProper(ds) && Join(cs) == Join(ds)
    ensures cs == ds
  {
    if cs != [] {
      SplitOfProper(cs);
    }
    if ds != [] {
      SplitOfProper(ds);
    }
  }

  /** At the root the final check does fire, for every path but the root itself. */
  lemma RootAcceptsNothing(cwd: string, userPath: string)
    requires Rooted(cwd)
    ensures SanitizePath(cwd, "/", userPath).Success? <==> Components(userPath) == []
  {
    assert Split("/") == ["", ""];
    assert [] + Split("/") == ["", ""] && ["", ""][1..] == [""] && [""][1..] == [];
    assert Place(cwd, "/") == [];
    AcceptedExactly(cwd, "/", userPath);
  }

  // ---------- the file system ----------

  datatype Node = Folder | Blob(bytes: Bytes)

  /** What is stored at each place. */
  type Disk = map<seq<string>, Node>

  /** The root is a folder, and what lies above a node is a folder. */
  ghost predicate Tree(disk: Disk) {
    && [] in disk && disk[[]] == Folder
    && forall f :: f in disk && f != [] ==> f[..|f| - 1] in disk && disk[f[..|f| - 1]] == Folder
  }

  predicate HasChild(disk: Disk, f: seq<string>) {
    exists g :: g in disk && |g| == |f| + 1 && g[..|f|] == f
  }

  function Above(f: seq<string>): set<seq<string>> {
    set n | 0 <= n <= |f| :: f[..n]
  }

  /** os.MkdirAll of the folders above, which fails on a file in the way, and then os.Create, which
      fails on a folder. */
  predicate Writable(disk: Disk, f: seq<string>) {
    && f != []
    && (forall n :: 0 <= n < |f| && f[..n] in disk ==> disk[f[..n]] == Folder)
    && (f in disk ==> disk[f].Blob?)
  }

  function WithFolders(disk: Disk, f: seq<string>): Disk {
    disk + map g | g in Above(f) :: Folder
  }

  function Written(disk: Disk, f: seq<string>, bytes: Bytes): Disk
    requires f != []
  {
    WithFolders(disk, f[..|f| - 1])[f := Blob(bytes)]
  }

  lemma FoldersKeepTree(disk: Disk, f: seq<string>)
    requires Tree(disk)
    requires forall n :: 0 <= n <= |f| && f[..n] in disk ==> disk[f[..n]] == Folder
    ensures var ready := WithFolders(disk, f);
            && Tree(ready) && f in ready && ready[f] == Folder
            && (forall g :: g in disk ==> g in ready && ready[g] == disk[g])
            && (forall g :: g in ready && g !in disk ==> ready[g] == Folder && g in Above(f))
  {
    var ready := WithFolders(disk, f);
    assert f[..|f|] == f && f in Above(f);
    forall g | g in ready && g != []
      ensures g[..|g| - 1] in ready && ready[g[..|g| - 1]] == Folder
    {
      if g in Above(f) {
        var n :| 0 <= n <= |f| && g == f[..n];
        assert g[..|g| - 1] == f[..n - 1];
        assert g[..|g| - 1] in Above(f);
      }
    }
  }

  /** Writing keeps the tree a tree, stores the bytes, changes no other node that was there, and
      adds only folders above the file. */
  lemma WrittenKeepsTree(disk: Disk, f: seq<string>, bytes: Bytes)
    requires Tree(disk) && Writable(disk, f)
    ensures var after := Written(disk, f, bytes);
            && Tree(after) && f in after && after[f] == Blob(bytes)
            && (forall g :: g in disk && g != f ==> g in after && after[g] == disk[g])
            && (forall g :: g in after && g !in disk && g != f ==> after[g] == Folder && g in Above(f[..|f| - 1]))
  {
    var above := f[..|f| - 1];
    forall n | 0 <= n <= |above| && above[..n] in disk
      ensures disk[above[..n]] == Folder
    {
      assert above[..n] == f[..n];
    }
    FoldersKeepTree(disk, above);
    FileKeepsTree(WithFolders(disk, above), f, bytes);
  }

  /** The first folders above a file. */
  function Upto(f: seq<string>, made: nat): seq<string>
    requires f != []
  {
    f[..if made < |f| then made else |f| - 1]
  }

  lemma SomeFoldersKeepTree(disk: Disk, f: seq<string>, made: nat)
    requires Tree(disk) && Writable(disk, f)
    ensures Tree(WithFolders(disk, Upto(f, made)))
  {
    var above := Upto(f, made);
    forall n | 0 <= n <= |above| && above[..n] in disk
      ensures disk[above[..n]] == Folder
    {
      assert above[..n] == f[..n];
    }
    FoldersKeepTree(disk, above);
  }

  /** A file in a folder, in the place of nothing or of another file. */
  lemma FileKeepsTree(disk: Disk, f: seq<string>, bytes: Bytes)
    requires Tree(disk) && f != [] && f[..|f| - 1] in disk && disk[f[..|f| - 1]] == Folder
    requires f in disk ==> disk[f].Blob?
    ensures Tree(disk[f := Blob(bytes)])
  {
  }

  /** os.Remove: a file, or a folder with nothing in it. */
  ghost predicate Removable(disk: Disk, f: seq<string>) {
    f in disk && f != [] && (disk[f].Blob? || !HasChild(disk, f))
  }

  /** A node can be removed exactly if what remains is a tree: a file, or an empty folder, but never
      the root. */
  lemma RemovableExactly(disk: Disk, f: seq<string>)
    requires Tree(disk)
    ensures Removable(disk, f) <==> f in disk && Tree(disk - {f})
  {
    if Removable(disk, f) {
      forall g | g in disk - {f} && g != []
        ensures g[..|g| - 1] != f
      {
        assert g[..|g| - 1] == f ==> HasChild(disk, f);
      }
    } else if f in disk && f != [] {
      var g :| g in disk && |g| == |f| + 1 && g[..|f|] == f;
      assert g in disk - {f} && g[..|g| - 1] == f;
    }
  }

  /** A tree with that file, and with all that was there elsewhere. */
  ghost predicate Holds(disk: Disk, t: Disk, f: seq<string>) {
    && Tree(t) && f in t && t[f].Blob?
    && forall g :: g in disk && g != f ==> g in t && t[g] == disk[g]
  }

  /** A file can be written exactly if some tree holds it next to all that was there, and it takes the
      place of no folder. */
  lemma WritableExactly(disk: Disk, f: seq<string>)
    requires Tree(disk)
    ensures Writable(disk, f) <==> !(f in disk && disk[f].Folder?) && exists t :: Holds(disk, t, f)
  {
    if Writable(disk, f) {
      WrittenKeepsTree(disk, f, []);
      assert Holds(disk, Written(disk, f, []), f);
    }
    if exists t :: Holds(disk, t, f) {
      var t :| Holds(disk, t, f);
      forall n | 0 <= n < |f| && f[..n] in disk
        ensures disk[f[..n]] == Folder
      {
        FoldersAboveFile(t, f, n);
        assert f[..n] != f;
      }
    }
  }

  lemma FoldersAboveFile(t: Disk, f: seq<string>, n: nat)
    requires Tree(t) && f in t && n < |f|
    ensures f[..n] in t && t[f[..n]] == Folder
  {
    FoldersAbove(t, f[..|f| - 1], n);
    assert f[..|f| - 1][..n] == f[..n];
  }

  // ---------- UUID paths ----------

  /** A file name without slashes and dots, like a UUID. */
  predicate PlainName(u: string) {
    u != "" && forall i :: 0 <= i < |u| ==> u[i] != '/' && u[i] != '.'
  }

  lemma PlainComponents(u: string)
    requires PlainName(u)
    ensures Components(u) == [u] && NameOf(u) == u
    ensures !DottedComponents(Components(u)) && !SystemComponents(Components(u))
  {
    SplitPlain(u);
    assert Proper(u);
    ResolveProper(false, [u], []);
  }

  /** A UUID path maps to itself, and leads to that name right below the base. */
  lemma PlainNamesStand(cwd: string, base: string, u: string)
    requires Rooted(cwd) && Place(cwd, base) != [] && PlainName(u)
    ensures SanitizePath(cwd, base, u) == Success(u)
    ensures Place(cwd, JoinPath(base, u)) == Place(cwd, base) + [u]
  {
    PlainComponents(u);
    AcceptedExactly(cwd, base, u);
  }

  /** The base is there, and only files have plain names right below it. */
  ghost predicate Flat(disk: Disk, at: seq<string>) {
    && Tree(disk) && at in disk && disk[at] == Folder
    && forall u :: PlainName(u) && at + [u] in disk ==> disk[at + [u]].Blob?
  }

  /** The bytes under a UUID path. */
  function Stored(disk: Disk, at: seq<string>, u: string): Option<Bytes> {
    if at + [u] in disk && disk[at + [u]].Blob? then Some(disk[at + [u]].bytes) else None
  }

  lemma {:induction false} FoldersAbove(disk: Disk, f: seq<string>, n: nat)
    requires Tree(disk) && f in disk && disk[f] == Folder && n <= |f|
    ensures f[..n] in disk && disk[f[..n]] == Folder
    decreases |f| - n
  {
    if n == |f| {
      assert f[..n] == f;
    } else {
      FoldersAbove(disk, f, n + 1);
      assert f[..n + 1][..n] == f[..n];
    }
  }

  /** Nothing is to be made above a file in a folder that is there. */
  lemma FoldersAreThere(disk: Disk, at: seq<string>)
    requires Tree(disk) && at in disk && disk[at] == Folder
    ensures WithFolders(disk, at) == disk
  {
    forall n | 0 <= n <= |at|
      ensures at[..n] in disk && disk[at[..n]] == Folder
    {
      FoldersAbove(disk, at, n);
    }
  }

  lemma PrefixOfPlace(at: seq<string>, u: string, n: nat)
    requires n <= |at|
    ensures (at + [u])[..n] == at[..n]
  {
  }

  lemma PlainIsWritable(disk: Disk, at: seq<string>, u: string)
    requires Flat(disk, at) && PlainName(u)
    ensures Writable(disk, at + [u])
  {
    var f := at + [u];
    forall n | 0 <= n < |f| && f[..n] in disk
      ensures disk[f[..n]] == Folder
    {
      PrefixOfPlace(at, u, n);
      FoldersAbove(disk, at, n);
    }
  }

  lemma PlainIsWritten(disk: Disk, at: seq<string>, u: string, bytes: Bytes)
    requires Flat(disk, at)
    ensures Written(disk, at + [u], bytes) == disk[at + [u] := Blob(bytes)]
  {
    FoldersAreThere(disk, at);
    PrefixOfPlace(at, u, |at|);
    assert at[..|at|] == at;
  }

  lemma DifferentPlaces(at: seq<string>, u: string, v: string)
    ensures at + [u] == at + [v] <==> u == v
    ensures at + [u] != at
  {
    assert (at + [u])[|at|] == u && (at + [v])[|at|] == v;
    assert |at + [u]| != |at|;
  }

  /** On UUID paths a Put is always possible, and updates the map of paths to bytes there and
      nowhere else. */
  lemma PlainPut(disk: Disk, at: seq<string>, u: string, bytes: Bytes, v: string)
    requires Flat(disk, at) && PlainName(u) && PlainName(v)
    ensures Writable(disk, at + [u]) && Flat(Written(disk, at + [u], bytes), at)
    ensures Stored(Written(disk, at + [u], bytes), at, v) == if v == u then Some(bytes) else Stored(disk, at, v)
  {
    PlainIsWritable(disk, at, u);
    PlainIsWritten(disk, at, u, bytes);
    WrittenKeepsTree(disk, at + [u], bytes);
    DifferentPlaces(at, u, v);
  }

  /** On UUID paths a Delete removes exactly the entry of its path. */
  lemma PlainDelete(disk: Disk, at: seq<string>, u: string, v: string)
    requires Flat(disk, at) && PlainName(u) && PlainName(v)
    ensures Stored(disk, at, u).Some? <==> at + [u] in disk
    ensures at + [u] in disk ==> Removable(disk, at + [u])
    ensures at + [u] in disk ==> Flat(disk - {at + [u]}, at)
    ensures at + [u] in disk ==> Stored(disk - {at + [u]}, at, v) == if v == u then None else Stored(disk, at, v)
  {
    var f := at + [u];
    if f in disk {
      RemovableExactly(disk, f);
      DifferentPlaces(at, u, v);
    }
  }

  // ---------- the back end ----------

  class LocalStorage {
    const cwd: string
    const basePath: string
    var disk: Disk

    ghost predicate Valid()
      reads this
    {
      Rooted(cwd) && Tree(disk)
    }

    /** The place that an accepted path names, and nothing for a refused one. */
    ghost function Named(path: string): Option<seq<string>> {
      if DottedComponents(Components(path)) || SystemComponents(Components(path)) then None
      else if Place(cwd, basePath) == [] && Components(path) != [] then None
      else Some(Place(cwd, basePath) + Components(path))
    }

    /** sanitizePath, and the place of the full path. */
    function Resolved(path: string): (place: Option<seq<string>>)
      requires Rooted(cwd)
      ensures place == Named(path)
    {
      AcceptedExactly(cwd, basePath, path);
      var clean := SanitizePath(cwd, basePath, path);
      if clean.Failure? then None else Some(Place(cwd, JoinPath(basePath, clean.value)))
    }

    constructor (cwd: string, basePath: string, disk: Disk)
      requires Rooted(cwd) && Tree(disk)
      ensures Valid() && this.cwd == cwd && this.basePath == basePath && this.disk == disk
    {
      this.cwd, this.basePath, this.disk := cwd, basePath, disk;
    }

    ghost predicate CanPut(path: string)
      reads this
    {
      Named(path).Some? && Writable(disk, Named(path).value)
    }

    /** A failing Put may have made the first `made` of the folders above the file, or all of them
        and a prefix of the content. */
    method Put(path: string, content: Bytes, fails: bool, made: nat, torn: Option<nat>)
      returns (r: Result<nat, Error>)
      requires Valid()
      modifies this`disk
      ensures Valid()
      ensures r == if old(CanPut(path)) && !fails then Success(|content|) else Failure(Error.BlobStore)
      ensures !old(CanPut(path)) ==> disk == old(disk)
      ensures old(CanPut(path)) && !fails ==> disk == Written(old(disk), Named(path).value, content)
      ensures old(CanPut(path)) && fails && torn.Some? ==>
        disk == Written(old(disk), Named(path).value,
                        if torn.value <= |content| then content[..torn.value] else content)
      ensures old(CanPut(path)) && fails && torn.None? ==>
        disk == WithFolders(old(disk), Upto(Named(path).value, made))
    {
      var place := Resolved(path);
      if place.None? || !Writable(disk, place.value) {
        return Failure(Error.BlobStore);
      }
      if fails {
        if torn.Some? {
          Write(place.value, if torn.value <= |content| then content[..torn.value] else content);
        } else {
          SomeFoldersKeepTree(disk, place.value, made);
          disk := WithFolders(disk, Upto(place.value, made));
        }
        return Failure(Error.BlobStore);
      }
      Write(place.value, content);
      return Success(|content|);
    }

    method Write(place: seq<string>, bytes: Bytes)
      requires Valid() && Writable(disk, place)
      modifies this`disk
      ensures Valid() && disk == Written(old(disk), place, bytes)
    {
      WrittenKeepsTree(disk, place, bytes);
      disk := Written(disk, place, bytes);
    }

    /** Opens what is there. A folder can be opened too; it is reading from it that fails. */
    method Get(path: string, fails: bool) returns (r: Result<Node, Error>)
      requires Valid()
      ensures r == if !fails && Named(path).Some? && Named(path).value in disk then Success(disk[Named(path).value])
                   else Failure(NotFound)
    {
      var place := Resolved(path);
      if place.None? || fails || place.value !in disk {
        return Failure(NotFound);
      }
      return Success(disk[place.value]);
    }

    method Delete(path: string, fails: bool) returns (r: Result<(), Error>)
      requires Valid()
      modifies this`disk
      ensures Valid()
      ensures r.Success? <==> !fails && Named(path).Some? && Removable(old(disk), Named(path).value)
      ensures disk == if r.Success? then old(disk) - {Named(path).value} else old(disk)
    {
      var target := Resolved(path);
      if target.None? {
        return Failure(Error.BlobStore);
      }
      var place := target.value;
      if fails || place !in disk || place == [] {
        return Failure(NotFound);
      }
      if disk[place].Folder? && HasChild(disk, place) {
        return Failure(Error.BlobStore);
      }
      RemovableExactly(disk, place);
      disk := disk - {place};
      return Success(());
    }
  }
}
