/** The part of the disk the program touches, as a value: a map from a
    resolved path (its list of components below the working directory) to a
    directory or a file. A file holds either a JSON object or bytes that do
    not parse as one. The os, os.path and shutil calls the program makes are
    functions from one such value to the next; a call that raises returns
    `Err` and leaves the value as it was. */
module FileSystem {
  import opened Base
  import opened Text
  import opened Json
  import opened Clock

  /** A path as the program spells it. */
  type Path = string

  /** A resolved path: its components below the working directory. */
  type Key = seq<string>

  datatype Content = Corrupt | Doc(obj: Obj)

  /** A file carries the time of its last status change (st_ctime). */
  datatype Node = File(content: Content, ctime: Instant) | Dir

  type Fs = map<Key, Node>

  /** The outcome of an effectful call: what it returns and the disk after it. */
  datatype Io<T> = Io(out: T, fs: Fs)

  // ---------------------------------------------------------------------------
  // Path strings
  // ---------------------------------------------------------------------------

  /** A single path component: what os.listdir returns and what a project name should be. */
  predicate IsName(n: string) {
    n != "" && n != "." && n != ".." && '/' !in n
  }

  /** One complete component applied to the components resolved so far:
      empty and "." ones change nothing, ".." drops the last one (and stays
      at the working directory when there is none), a name is appended. */
  function Step(k: Key, c: string): Key {
    if c == "" || c == "." then k
    else if c == ".." then (if k == [] then [] else k[..|k| - 1])
    else k + [c]
  }

  /** The components of `cur + p` on top of k, where cur is the part of a
      component read so far. */
  function Walk(p: string, cur: string, k: Key): Key
    decreases |p|
  {
    if p == [] then Step(k, cur)
    else if p[0] == '/' then Walk(p[1..], "", Step(k, cur))
    else Walk(p[1..], cur + [p[0]], k)
  }

  /** A relative path, resolved lexically below the working directory:
      components split at '/', empty and "." ones dropped, ".." taking
      back the component before it. */
  function Resolve(p: Path): Key {
    Walk(p, "", [])
  }

  lemma {:induction false} WalkSlash(a: string, b: string, cur: string, k: Key)
    ensures Walk(a + "/" + b, cur, k) == Walk(b, "", Walk(a, cur, k))
    decreases |a|
  {
    var p := a + "/" + b;
    if a == [] {
      assert p[1..] == b;
    } else {
      assert p[1..] == a[1..] + "/" + b;
      if a[0] == '/' {
        WalkSlash(a[1..], b, "", Step(k, cur));
      } else {
        WalkSlash(a[1..], b, cur + [a[0]], k);
      }
    }
  }

  lemma {:induction false} WalkName(n: string, cur: string, k: Key)
    requires '/' !in n
    ensures Walk(n, cur, k) == Step(k, cur + n)
    decreases |n|
  {
    if n == [] {
      assert cur + n == cur;
    } else {
      assert n[0] in n;
      WalkName(n[1..], cur + [n[0]], k);
      assert cur + [n[0]] + n[1..] == cur + n;
    }
  }

  /** Resolving `a/b` resolves a, then walks b from there. */
  lemma ResolveSlash(a: string, b: string)
    ensures Resolve(a + "/" + b) == Walk(b, "", Resolve(a))
  {
    WalkSlash(a, b, "", []);
  }

  lemma ResolveName(n: string)
    requires IsName(n)
    ensures Resolve(n) == [n]
  {
    WalkName(n, "", []);
    assert "" + n == n;
  }

  /** Every resolved component is a proper name. */
  lemma {:induction false} WalkNamed(p: string, cur: string, k: Key)
    requires '/' !in cur && forall i :: 0 <= i < |k| ==> IsName(k[i])
    ensures forall i :: 0 <= i < |Walk(p, cur, k)| ==> IsName(Walk(p, cur, k)[i])
    decreases |p|
  {
    if p != [] {
      if p[0] == '/' {
        WalkNamed(p[1..], "", Step(k, cur));
      } else {
        WalkNamed(p[1..], cur + [p[0]], k);
      }
    }
  }

  lemma ResolveNamed(p: Path)
    ensures forall i :: 0 <= i < |Resolve(p)| ==> IsName(Resolve(p)[i])
  {
    WalkNamed(p, "", []);
  }

  /** `os.path.join(a, b)`: b itself when it is absolute. */
  function Join(a: Path, b: Path): Path {
    if |b| > 0 && b[0] == '/' then b
    else if a == "" || a[|a| - 1] == '/' then a + b
    else a + "/" + b
  }

  /** Joining a name onto a path names the entry of that name inside it. */
  lemma ResolveJoin(p: Path, n: string)
    requires IsName(n)
    ensures Resolve(Join(p, n)) == Resolve(p) + [n]
  {
    ResolveName(n);
    if p == "" {
      assert Join(p, n) == n;
      assert Resolve(p) == [];
    } else if p[|p| - 1] == '/' {
      var q := p[..|p| - 1];
      assert p == q + "/" + "";
      assert p + n == q + "/" + n;
      ResolveSlash(q, "");
      ResolveSlash(q, n);
      WalkName(n, "", Resolve(q));
      assert "" + n == n;
    } else {
      ResolveSlash(p, n);
      WalkName(n, "", Resolve(p));
      assert "" + n == n;
    }
  }

  /** Position just after the last '/', or 0 when there is none. */
  function AfterLastSlash(p: string): (i: nat)
    ensures i <= |p| && '/' !in p[i..]
    ensures i > 0 ==> p[i - 1] == '/'
  {
    if p == [] then 0
    else if p[|p| - 1] == '/' then |p|
    else
      var i := AfterLastSlash(p[..|p| - 1]);
      assert p[i..] == p[..|p| - 1][i..] + [p[|p| - 1]];
      i
  }

  /** `os.path.basename(p)` */
  function Basename(p: Path): (r: string)
    ensures '/' !in r
  {
    p[AfterLastSlash(p)..]
  }

  /** `os.path.dirname(p)`: the part before the last '/', without trailing
      slashes unless it is nothing but slashes. */
  function Dirname(p: Path): string {
    var head := p[..AfterLastSlash(p)];
    if head != "" && exists i :: 0 <= i < |head| && head[i] != '/' then RStripChar(head, '/') else head
  }

  // ---------------------------------------------------------------------------
  // Queries
  // ---------------------------------------------------------------------------

  function Parent(k: Key): Key
    requires k != []
  {
    k[..|k| - 1]
  }

  /** A directory at k; the empty key is the working directory. */
  predicate DirAt(fs: Fs, k: Key) {
    k == [] || (k in fs && fs[k].Dir?)
  }

  /** `os.path.exists(p)`; the empty string names nothing. */
  predicate Exists(fs: Fs, p: Path) {
    p != "" && (Resolve(p) == [] || Resolve(p) in fs)
  }

  /** `os.path.isdir(p)` */
  predicate IsDir(fs: Fs, p: Path) {
    p != "" && DirAt(fs, Resolve(p))
  }

  predicate IsFile(fs: Fs, p: Path) {
    p != "" && Resolve(p) != [] && Resolve(p) in fs && fs[Resolve(p)].File?
  }

  /** p is a file whose content is c. */
  predicate HoldsContent(fs: Fs, p: Path, c: Content) {
    IsFile(fs, p) && fs[Resolve(p)].content == c
  }

  /** Opening p and `json.load`-ing it: `None` when open or parse raises. */
  function ReadJson(fs: Fs, p: Path): (r: Option<Obj>)
    ensures r.Some? ==> IsFile(fs, p)
  {
    if IsFile(fs, p) && fs[Resolve(p)].content.Doc? then Some(fs[Resolve(p)].content.obj) else None
  }

  /** `open(p, 'w')` succeeds: p names an entry whose directory exists and
      which is not itself a directory. */
  predicate Writable(fs: Fs, p: Path) {
    var k := Resolve(p);
    p != "" && k != [] && DirAt(fs, Parent(k)) && !(k in fs && fs[k].Dir?)
  }

  /** `os.listdir(d)` returned `names`: each entry of d exactly once, in
      some order the operating system chooses. */
  predicate IsListing(fs: Fs, d: Key, names: seq<string>) {
    && (forall i, j :: 0 <= i < j < |names| ==> names[i] != names[j])
    && (forall i :: 0 <= i < |names| ==> IsName(names[i]) && d + [names[i]] in fs)
    && (forall k :: k in fs && |k| == |d| + 1 && k[..|d|] == d ==> k[|d|] in names)
  }

  /** The names of the entries directly inside d. */
  function Children(fs: Fs, d: Key): (r: set<string>)
    ensures forall k :: k in fs && |k| == |d| + 1 && k[..|d|] == d ==> k[|d|] in r
  {
    set k | k in fs && |k| == |d| + 1 && k[..|d|] == d :: k[|d|]
  }

  lemma ChildrenNamed(fs: Fs, d: Key)
    requires WellFormed(fs)
    ensures forall n :: n in Children(fs, d) ==> IsName(n) && d + [n] in fs
  {
    forall n | n in Children(fs, d) ensures IsName(n) && d + [n] in fs {
      var k :| k in fs && |k| == |d| + 1 && k[..|d|] == d && k[|d|] == n;
      assert k == d + [n];
    }
  }

  /** The members of a set, each once, in an order chosen as the loop goes. */
  method Enumerate(s: set<string>) returns (names: seq<string>)
    ensures forall i, j :: 0 <= i < j < |names| ==> names[i] != names[j]
    ensures forall i :: 0 <= i < |names| ==> names[i] in s
    ensures forall n :: n in s ==> n in names
  {
    var left := s;
    names := [];
    while left != {}
      invariant forall i, j :: 0 <= i < j < |names| ==> names[i] != names[j]
      invariant forall i :: 0 <= i < |names| ==> names[i] in s
      invariant forall n :: n in left ==> n in s && n !in names
      invariant forall n :: n in s ==> n in names || n in left
      decreases |left|
    {
      var n :| n in left;
      names := names + [n];
      left := left - {n};
    }
  }

  /** `os.listdir(d)` on a directory: its entries, each once, in whatever
      order the operating system hands them out (here: any order at all). */
  method ListDir(fs: Fs, d: Key) returns (names: seq<string>)
    requires WellFormed(fs) && DirAt(fs, d)
    ensures IsListing(fs, d, names)
  {
    names := Enumerate(Children(fs, d));
    ChildrenNamed(fs, d);
  }

  // ---------------------------------------------------------------------------
  // Effects
  // ---------------------------------------------------------------------------

  /** Writing a file: `open(p, 'w')` then dumping c into it. */
  function WriteFile(fs: Fs, p: Path, c: Content, now: Instant): (r: Result<Fs>)
    ensures r.Ok? <==> Writable(fs, p)
    ensures r.Err? ==> r.error == OsError(p)
  {
    if Writable(fs, p) then Ok(fs[Resolve(p) := File(c, now)]) else Err(OsError(p))
  }

  /** A written object reads back unchanged. */
  lemma ReadAfterWrite(fs: Fs, p: Path, obj: Obj, now: Instant)
    requires WriteFile(fs, p, Doc(obj), now).Ok?
    ensures ReadJson(WriteFile(fs, p, Doc(obj), now).value, p) == Some(obj)
  {
  }

  /** A write changes no path that resolves elsewhere. */
  lemma WriteKeepsOthers(fs: Fs, p: Path, c: Content, now: Instant, q: Path)
    requires WriteFile(fs, p, c, now).Ok? && Resolve(q) != Resolve(p)
    ensures ReadJson(WriteFile(fs, p, c, now).value, q) == ReadJson(fs, q)
    ensures Exists(WriteFile(fs, p, c, now).value, q) <==> Exists(fs, q)
    ensures IsDir(WriteFile(fs, p, c, now).value, q) <==> IsDir(fs, q)
  {
  }

  /** `os.makedirs` on a resolved path with exist_ok=True: creates each
      missing directory from the top down; fails when a component is a file. */
  function MakeDirsAt(fs: Fs, k: Key): (r: Result<Fs>)
    ensures r.Ok? ==> DirAt(r.value, k)
    ensures r.Ok? && WellFormed(fs) ==> forall i :: 0 <= i <= |k| ==> DirAt(r.value, k[..i])
    ensures r.Ok? ==> forall j :: j in fs ==> j in r.value && r.value[j] == fs[j]
    ensures r.Ok? ==> forall j :: j in r.value && j !in fs ==> r.value[j] == Dir && j != [] && j <= k
    ensures r.Err? ==> exists i :: 0 < i <= |k| && k[..i] in fs && fs[k[..i]].File?
    ensures (forall i :: 0 < i <= |k| && k[..i] in fs ==> fs[k[..i]].Dir?) ==> r.Ok?
    decreases |k|
  {
    if k == [] then Ok(fs)
    else if k in fs then
      if fs[k].Dir? then
        AncestorsIfWellFormed(fs, k);
        Ok(fs)
      else
        assert k[..|k|] == k;
        Err(OsError(""))
    else
      var up := MakeDirsAt(fs, Parent(k));
      assert forall i :: 0 < i <= |k| - 1 ==> Parent(k)[..i] == k[..i];
      assert k[..|k|] == k;
      match up
      case Err(e) => Err(e)
      case Ok(fs1) =>
        MakeDirStep(fs, k, fs1);
        Ok(fs1[k := Dir])
  }

  /** The last step of makedirs: the missing directory k goes into a tree
      where its parent, and every ancestor, already is one. */
  lemma MakeDirStep(fs: Fs, k: Key, fs1: Fs)
    requires k != [] && k !in fs && DirAt(fs1, Parent(k))
    requires WellFormed(fs) ==> forall i :: 0 <= i <= |Parent(k)| ==> DirAt(fs1, Parent(k)[..i])
    requires forall j :: j in fs ==> j in fs1 && fs1[j] == fs[j]
    requires forall j :: j in fs1 && j !in fs ==> fs1[j] == Dir && j != [] && j <= Parent(k)
    ensures WellFormed(fs) ==> forall i :: 0 <= i <= |k| ==> DirAt(fs1[k := Dir], k[..i])
    ensures forall j :: j in fs ==> j in fs1[k := Dir] && fs1[k := Dir][j] == fs[j]
    ensures forall j :: j in fs1[k := Dir] && j !in fs ==> fs1[k := Dir][j] == Dir && j != [] && j <= k
  {
    assert forall i :: 0 <= i < |k| ==> k[..i] == Parent(k)[..i];
    assert k[..|k|] == k;
  }

  /** What every real directory tree satisfies: each entry has a proper
      name and sits in a directory. */
  predicate WellFormed(fs: Fs) {
    forall k :: k in fs ==> k != [] && IsName(k[|k| - 1]) && DirAt(fs, Parent(k))
  }

  /** In a well-formed tree every ancestor of a directory is a directory. */
  lemma {:induction false} Ancestors(fs: Fs, k: Key)
    requires WellFormed(fs) && DirAt(fs, k)
    ensures forall i :: 0 <= i <= |k| ==> DirAt(fs, k[..i])
    decreases |k|
  {
    if k != [] {
      Ancestors(fs, Parent(k));
      assert forall i :: 0 <= i < |k| ==> k[..i] == Parent(k)[..i];
      assert k[..|k|] == k;
    }
  }

  lemma AncestorsIfWellFormed(fs: Fs, k: Key)
    requires DirAt(fs, k)
    ensures WellFormed(fs) ==> forall i :: 0 <= i <= |k| ==> DirAt(fs, k[..i])
  {
    if WellFormed(fs) {
      Ancestors(fs, k);
    }
  }

  /** An entry whose directory is missing is missing too. */
  lemma AbsentParent(fs: Fs, k: Key)
    requires WellFormed(fs) && k != [] && Parent(k) != [] && Parent(k) !in fs
    ensures k !in fs
  {
  }

  lemma WriteFileWellFormed(fs: Fs, p: Path, c: Content, now: Instant)
    requires WellFormed(fs) && Writable(fs, p)
    ensures WellFormed(WriteFile(fs, p, c, now).value)
  {
    ResolveNamed(p);
  }

  lemma {:induction false} MakeDirsAtWellFormed(fs: Fs, k: Key)
    requires WellFormed(fs) && MakeDirsAt(fs, k).Ok?
    requires forall i :: 0 <= i < |k| ==> IsName(k[i])
    ensures WellFormed(MakeDirsAt(fs, k).value)
  {
    var fs' := MakeDirsAt(fs, k).value;
    forall j | j in fs' ensures j != [] && IsName(j[|j| - 1]) && DirAt(fs', Parent(j)) {
      if j !in fs {
        assert j <= k && j == k[..|j|];
        assert Parent(j) == k[..|j| - 1];
        assert j[|j| - 1] == k[|j| - 1];
      }
    }
  }

  /** `os.makedirs(p, exist_ok=True)` */
  function MakeDirs(fs: Fs, p: Path): (r: Result<Fs>)
    ensures r.Ok? ==> IsDir(r.value, p)
    ensures r.Err? ==> r.error == OsError(p)
  {
    if p == "" then Err(OsError(p))
    else match MakeDirsAt(fs, Resolve(p))
      case Ok(fs1) => Ok(fs1)
      case Err(_) => Err(OsError(p))
  }

  lemma MakeDirsWellFormed(fs: Fs, p: Path)
    requires WellFormed(fs) && MakeDirs(fs, p).Ok?
    ensures WellFormed(MakeDirs(fs, p).value)
  {
    ResolveNamed(p);
    MakeDirsAtWellFormed(fs, Resolve(p));
  }

  /** makedirs only adds directories: every existing entry stays as it was. */
  lemma MakeDirsKeeps(fs: Fs, p: Path, k: Key)
    requires MakeDirs(fs, p).Ok? && k in fs
    ensures k in MakeDirs(fs, p).value && MakeDirs(fs, p).value[k] == fs[k]
  {
  }

  /** The last component of p, trailing slashes aside. */
  function LastComponent(p: Path): (r: string)
    ensures '/' !in r
  {
    Basename(RStripChar(p, '/'))
  }

  /** A component the operating system will not remove: "." or "..". */
  predicate IsDots(c: string) {
    c == "." || c == ".."
  }

  /** os.rmdir can remove the directory p names: it is not the working
      directory and its last component is not "." or "..". */
  predicate Rmdirable(p: Path) {
    Resolve(p) != [] && !IsDots(LastComponent(p))
  }

  /** Past a directory (or nothing) and a run of name characters, the last
      slash is the one before the name. */
  lemma {:induction false} AfterLastSlashName(q: string, n: string)
    requires '/' !in n && (q == [] || q[|q| - 1] == '/')
    ensures AfterLastSlash(q + n) == |q|
    decreases |n|
  {
    if n == [] {
      assert q + n == q;
    } else {
      var m := n[..|n| - 1];
      assert n[|n| - 1] in n;
      assert (q + n)[..|q + n| - 1] == q + m;
      AfterLastSlashName(q, m);
    }
  }

  /** A name joined onto a path is that path's last component. */
  lemma LastComponentJoin(p: Path, n: string)
    requires IsName(n)
    ensures LastComponent(Join(p, n)) == n
  {
    var j := Join(p, n);
    var q := if p == "" || p[|p| - 1] == '/' then p else p + "/";
    assert j == q + n;
    assert n[|n| - 1] in n;
    assert RStripChar(j, '/') == j;
    AfterLastSlashName(q, n);
    assert j[|q|..] == n;
  }

  /** `shutil.rmtree(p)`: p must be a directory. What is below it goes
      first, then p itself with os.rmdir, which fails for the working
      directory and for a path whose last component is "." or "..": those
      are left emptied, and the call raises. */
  function RemoveTree(fs: Fs, p: Path): (r: Io<Result<()>>)
    ensures r.out.Ok? <==> IsDir(fs, p) && Rmdirable(p)
    ensures r.out.Err? ==> r.out.error == OsError(p)
    ensures !IsDir(fs, p) ==> r.fs == fs
    ensures r.out.Ok? ==> !Exists(r.fs, p)
    ensures forall j :: j in r.fs ==> j in fs && (IsDir(fs, p) ==> !(Resolve(p) < j))
    ensures forall j :: j in fs && !(Resolve(p) <= j) ==> j in r.fs && r.fs[j] == fs[j]
    ensures r.out.Err? && Resolve(p) in fs ==> Resolve(p) in r.fs && r.fs[Resolve(p)] == fs[Resolve(p)]
  {
    var k := Resolve(p);
    if !IsDir(fs, p) then Io(Err(OsError(p)), fs)
    else if !Rmdirable(p) then Io(Err(OsError(p)), map j | j in fs && !(k < j) :: fs[j])
    else Io(Ok(()), map j | j in fs && !(k <= j) :: fs[j])
  }

  lemma RemoveTreeWellFormed(fs: Fs, p: Path)
    requires WellFormed(fs)
    ensures WellFormed(RemoveTree(fs, p).fs)
  {
    var k := Resolve(p);
    var fs' := RemoveTree(fs, p).fs;
    forall j | j in fs' ensures j != [] && IsName(j[|j| - 1]) && DirAt(fs', Parent(j)) {
      var q := Parent(j);
      if q != [] && IsDir(fs, p) {
        assert j in fs && !(k < j);
        assert q in fs && fs[q].Dir?;
        assert !(k <= q) by {
          if |k| <= |q| { assert k == j[..|k|] ==> k <= j; assert q[..|k|] == j[..|k|]; }
        }
      }
    }
  }

  /** `shutil.copy2(src, dst)`: into dst when it is a directory; a file
      onto itself raises SameFileError. The copy gets a fresh ctime. */
  function Copy(fs: Fs, src: Path, dst: Path, now: Instant): (r: Result<Fs>)
    ensures r.Ok? ==> IsFile(fs, src)
    ensures r.Ok? ==> var t := CopyTarget(fs, src, dst);
      && Resolve(t) != Resolve(src)
      && r.value == fs[Resolve(t) := File(fs[Resolve(src)].content, now)]
  {
    if !IsFile(fs, src) then Err(OsError(src))
    else
      var target := CopyTarget(fs, src, dst);
      if Resolve(target) == Resolve(src) then Err(OsError(target))
      else WriteFile(fs, target, fs[Resolve(src)].content, now)
  }

  lemma CopyWellFormed(fs: Fs, src: Path, dst: Path, now: Instant)
    requires WellFormed(fs) && Copy(fs, src, dst, now).Ok?
    ensures WellFormed(Copy(fs, src, dst, now).value)
  {
    ResolveNamed(CopyTarget(fs, src, dst));
  }

  /** Where copy2 writes: dst itself, or the entry named like src inside it. */
  function CopyTarget(fs: Fs, src: Path, dst: Path): Path {
    if IsDir(fs, dst) then Join(dst, Basename(src)) else dst
  }
}
