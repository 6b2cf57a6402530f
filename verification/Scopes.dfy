/** Which sensor configuration files are loaded, and in which order. */
module Scopes {
  import opened Bytes
  import opened Sorting

  /** The components of an absolute path, below the root directory. */
  type Path = seq<Key>

  /** "sensors.cfg" */
  const INDEX: Key := [115, 101, 110, 115, 111, 114, 115, 46, 99, 102, 103]
  /** ".cfg" */
  const EXTENSION: Key := [46, 99, 102, 103]

  function Name(f: Path): Key {
    if f == [] then [] else f[|f| - 1]
  }

  function Parent(f: Path): Path {
    if f == [] then [] else f[..|f| - 1]
  }

  /** A name that only consists of the suffix has no extension. */
  predicate IsCfg(f: Path) {
    |Name(f)| > |EXTENSION| && Name(f)[|Name(f)| - |EXTENSION|..] == EXTENSION
  }

  predicate IsIndex(f: Path) {
    Name(f) == INDEX
  }

  // ---- the order of paths: component by component ----

  predicate PathLt(a: Path, b: Path)
    decreases |a|
  {
    b != [] && (a == [] || Lt(a[0], b[0]) || (a[0] == b[0] && PathLt(a[1..], b[1..])))
  }

  predicate PathLe(a: Path, b: Path) {
    a == b || PathLt(a, b)
  }

  /** Shallow paths first, and paths of one depth in their order. */
  predicate DepthLe(a: Path, b: Path) {
    |a| < |b| || (|a| == |b| && PathLe(a, b))
  }

  predicate Different(a: Path, b: Path) {
    a != b
  }

  lemma {:induction false} PathLtTotal(a: Path, b: Path)
    ensures a == b || PathLt(a, b) || PathLt(b, a)
    ensures !(PathLt(a, b) && PathLt(b, a))
    ensures !PathLt(a, a)
    decreases |a|
  {
    hide Lt;
    if a != [] {
      LtIrreflexive(a[0]);
      PathLtTotal(a[1..], a[1..]);
    }
    if a != [] && b != [] {
      LtTotal(a[0], b[0]);
      PathLtTotal(a[1..], b[1..]);
      if a[0] == b[0] && a[1..] == b[1..] {
        assert a == [a[0]] + a[1..] == [b[0]] + b[1..] == b;
      }
    }
  }

  lemma {:induction false} PathLtTransitive(a: Path, b: Path, c: Path)
    requires PathLt(a, b) && PathLt(b, c)
    ensures PathLt(a, c)
    decreases |a|
  {
    hide Lt;
    if a != [] {
      if Lt(a[0], b[0]) && Lt(b[0], c[0]) {
        LtTransitive(a[0], b[0], c[0]);
      }
      if a[0] == b[0] == c[0] && PathLt(a[1..], b[1..]) && PathLt(b[1..], c[1..]) {
        PathLtTransitive(a[1..], b[1..], c[1..]);
      }
    }
  }

  lemma PathsAreOrdered()
    ensures TotalPreorder(PathLe) && TotalPreorder(DepthLe)
    ensures forall a, b :: !(PathLt(a, b) && PathLt(b, a))
  {
    hide PathLt;
    forall a, b
      ensures PathLe(a, b) || PathLe(b, a)
      ensures !(PathLt(a, b) && PathLt(b, a))
    {
      PathLtTotal(a, b);
    }
    forall a, b, c | PathLe(a, b) && PathLe(b, c)
      ensures PathLe(a, c)
    {
      if PathLt(a, b) && PathLt(b, c) {
        PathLtTransitive(a, b, c);
      }
    }
  }

  lemma {:induction false} SortedPaths(l: seq<Path>)
    requires Pairwise(l, Different)
    ensures Pairwise(Sort(l, PathLe), PathLt)
    ensures forall f :: f in Sort(l, PathLe) <==> f in l
  {
    PathsAreOrdered();
    SortOrdered(l, PathLe);
    SortPairwise(l, PathLe, Different);
    SortContents(l, PathLe);
  }

  // ---- listing ----

  /** The files that a walk yields, in the order in which it happens to meet them. */
  type Walk = w: seq<Path> | Pairwise(w, Different)

  function CfgUnder(dir: Path): Path -> bool {
    (f: Path) => dir <= f && IsCfg(f)
  }

  function NotIndex(): Path -> bool {
    (f: Path) => !IsIndex(f)
  }

  function Index(): Path -> bool {
    (f: Path) => IsIndex(f)
  }

  function ListCfgFiles(files: Walk, dir: Path): seq<Path> {
    Sort(Filter(files, CfgUnder(dir)), PathLe)
  }

  lemma Listed(files: Walk, dir: Path)
    ensures Pairwise(ListCfgFiles(files, dir), PathLt)
    ensures forall f :: f in ListCfgFiles(files, dir) <==> f in files && dir <= f && IsCfg(f)
  {
    hide PathLt, IsCfg;
    FilterContents(files, CfgUnder(dir));
    FilterPairwise(files, CfgUnder(dir), Different);
    SortedPaths(Filter(files, CfgUnder(dir)));
  }

  // ---- scope roots ----

  /** A directory of a listed index. */
  ghost predicate IsIndexDir(files: Walk, p: Path, d: Path) {
    d + [INDEX] in files && p <= d + [INDEX]
  }

  /** A scope root: an index directory without an index directory properly above it. */
  ghost predicate IsRoot(files: Walk, p: Path, d: Path) {
    IsIndexDir(files, p, d) && forall a :: IsIndexDir(files, p, a) && a <= d ==> a == d
  }

  /** The scope roots of a walk in path order. */
  ghost predicate AreRoots(roots: seq<Path>, files: Walk, p: Path) {
    Pairwise(roots, PathLt) && forall d :: d in roots <==> IsRoot(files, p, d)
  }

  /** The directories of an index list that have no other one of them above. */
  ghost predicate Tops(roots: seq<Path>, idxs: seq<Path>) {
    && Pairwise(roots, Different)
    && (forall d :: d in roots <==> d + [INDEX] in idxs && forall a :: a + [INDEX] in idxs && a <= d ==> a == d)
  }

  /** Above every index directory there is a top one. */
  lemma {:induction false} TopAbove(roots: seq<Path>, idxs: seq<Path>, d: Path)
    requires Tops(roots, idxs) && d + [INDEX] in idxs
    ensures exists r :: r in roots && r <= d
    decreases |d|
  {
    if d !in roots {
      var a :| a + [INDEX] in idxs && a <= d && a != d;
      TopAbove(roots, idxs, a);
      var r :| r in roots && r <= a;
      assert r <= d;
    }
  }

  lemma TopStep(roots: seq<Path>, idxs: seq<Path>, d: Path)
    requires Tops(roots, idxs) && d + [INDEX] !in idxs
    requires forall f :: f in idxs ==> |f| <= |d| + 1
    ensures Tops(if exists r :: r in roots && r <= d then roots else roots + [d], idxs + [d + [INDEX]])
  {
    hide Tops;
    TopsWithMore(roots, idxs, d);
    if exists a :: a + [INDEX] in idxs && a <= d {
      var a :| a + [INDEX] in idxs && a <= d;
      TopAbove(roots, idxs, a);
      var r :| r in roots && r <= a;
      assert r <= d;
    } else {
      RootsAreIndexed(roots, idxs);
    }
  }

  lemma RootsAreIndexed(roots: seq<Path>, idxs: seq<Path>)
    requires Tops(roots, idxs)
    ensures forall r :: r in roots ==> r + [INDEX] in idxs
  {
  }

  lemma TopsWithMore(roots: seq<Path>, idxs: seq<Path>, d: Path)
    requires Tops(roots, idxs) && d + [INDEX] !in idxs
    requires forall f :: f in idxs ==> |f| <= |d| + 1
    ensures (exists a :: a + [INDEX] in idxs && a <= d) ==> Tops(roots, idxs + [d + [INDEX]])
    ensures !(exists a :: a + [INDEX] in idxs && a <= d) ==> Tops(roots + [d], idxs + [d + [INDEX]])
  {
    var more := idxs + [d + [INDEX]];
    forall a
      ensures a + [INDEX] in more <==> a + [INDEX] in idxs || a == d
    {
      assert a + [INDEX] == d + [INDEX] ==> (a + [INDEX])[..|a|] == a && (d + [INDEX])[..|d|] == d;
    }
    forall a | a + [INDEX] in idxs
      ensures d <= a ==> a == d
    {
      assert |a + [INDEX]| == |a| + 1;
    }
  }

  /** Shallow indexes first, and none below a directory that is already a root. */
  method ScopeRoots(ghost files: Walk, ghost p: Path, found: seq<Path>) returns (roots: seq<Path>)
    requires found == Filter(ListCfgFiles(files, p), Index())
    ensures AreRoots(roots, files, p)
  {
    hide ListCfgFiles, Sort, Filter, PathLt, Tops, IsIndexDir;
    var idxs := Sort(found, DepthLe);
    IndexList(files, p, idxs);
    roots := [];
    NoTops();
    for i := 0 to |idxs|
      invariant Tops(roots, idxs[..i])
    {
      var dir := Parent(idxs[i]);
      NextIndex(idxs, i);
      TopStep(roots, idxs[..i], dir);
      if exists r :: r in roots && r <= dir {
        continue;
      }
      roots := roots + [dir];
    }
    assert idxs[..|idxs|] == idxs;
    TopsAreRoots(roots, idxs, files, p);
    roots := Sort(roots, PathLe);
  }

  lemma NoTops()
    ensures Tops([], [])
  {
  }

  lemma NextIndex(idxs: seq<Path>, i: nat)
    requires i < |idxs| && Parent(idxs[i]) + [INDEX] == idxs[i] && idxs[i] !in idxs[..i]
    requires forall j :: 0 <= j < i ==> |idxs[j]| <= |idxs[i]|
    ensures idxs[..i + 1] == idxs[..i] + [Parent(idxs[i]) + [INDEX]]
    ensures forall f :: f in idxs[..i] ==> |f| <= |Parent(idxs[i])| + 1
  {
  }

  lemma {:induction false} TopsAreRoots(roots: seq<Path>, idxs: seq<Path>, files: Walk, p: Path)
    requires Tops(roots, idxs)
    requires forall d :: d + [INDEX] in idxs <==> IsIndexDir(files, p, d)
    ensures AreRoots(Sort(roots, PathLe), files, p)
  {
    hide IsIndexDir, PathLt;
    SortedPaths(roots);
  }

  lemma IndexList(files: Walk, p: Path, idxs: seq<Path>)
    requires idxs == Sort(Filter(ListCfgFiles(files, p), Index()), DepthLe)
    ensures forall i :: 0 <= i < |idxs| ==> Parent(idxs[i]) + [INDEX] == idxs[i] && idxs[i] !in idxs[..i]
    ensures forall i, j :: 0 <= i < j < |idxs| ==> |idxs[i]| <= |idxs[j]|
    ensures forall d :: d + [INDEX] in idxs <==> IsIndexDir(files, p, d)
  {
    hide Sort, Filter, PathLt, IsCfg, IsIndex, ListCfgFiles;
    var all := ListCfgFiles(files, p);
    Listed(files, p);
    FilterContents(all, Index());
    FilterPairwise(all, Index(), PathLt);
    SortedByDepth(Filter(all, Index()));
    forall f
      ensures IsIndex(f) <==> f == Parent(f) + [INDEX]
      ensures IsIndex(f) ==> IsCfg(f)
    {
      IndexFile(f);
    }
    forall i | 0 <= i < |idxs|
      ensures Parent(idxs[i]) + [INDEX] == idxs[i]
    {
      assert idxs[i] in idxs;
    }
  }

  lemma IndexFile(f: Path)
    ensures IsIndex(f) <==> f == Parent(f) + [INDEX]
    ensures IsIndex(f) ==> IsCfg(f)
  {
    assert INDEX[7..] == EXTENSION;
  }

  lemma {:induction false} SortedByDepth(l: seq<Path>)
    requires Pairwise(l, PathLt)
    ensures forall f :: f in Sort(l, DepthLe) <==> f in l
    ensures Pairwise(Sort(l, DepthLe), DepthLe) && Pairwise(Sort(l, DepthLe), Different)
  {
    hide Sort, PathLt;
    PathsAreOrdered();
    SortContents(l, DepthLe);
    SortOrdered(l, DepthLe);
    SortPairwise(l, DepthLe, Different);
  }

  // ---- chunks ----

  function Others(files: Walk, root: Path): seq<Path> {
    Filter(ListCfgFiles(files, root), NotIndex())
  }

  /** One scope: its index, then every other configuration file below it in path order. */
  function Scope(files: Walk, root: Path): seq<Path> {
    [root + [INDEX]] + Others(files, root)
  }

  function AllScopes(files: Walk, roots: seq<Path>): seq<Path> {
    if roots == [] then [] else AllScopes(files, roots[..|roots| - 1]) + Scope(files, roots[|roots| - 1])
  }

  predicate InScope(files: Walk, root: Path, f: Path) {
    f == root + [INDEX] || (f in files && root <= f && IsCfg(f) && !IsIndex(f))
  }

  lemma OthersContents(files: Walk, root: Path)
    ensures forall f :: f in Others(files, root) <==> f in files && root <= f && IsCfg(f) && !IsIndex(f)
    ensures Pairwise(Others(files, root), PathLt)
  {
    hide ListCfgFiles, Filter, PathLt, IsCfg, IsIndex;
    Listed(files, root);
    FilterContents(ListCfgFiles(files, root), NotIndex());
    FilterPairwise(ListCfgFiles(files, root), NotIndex(), PathLt);
  }

  lemma ScopeContents(files: Walk, root: Path)
    ensures forall f :: f in Scope(files, root) <==> InScope(files, root, f)
  {
    hide Others, IsCfg, IsIndex;
    OthersContents(files, root);
  }

  lemma {:induction false} AllScopesContents(files: Walk, roots: seq<Path>)
    ensures forall f :: f in AllScopes(files, roots) <==> exists r :: r in roots && InScope(files, r, f)
    decreases |roots|
  {
    if roots != [] {
      hide Scope, InScope;
      var front, last := roots[..|roots| - 1], roots[|roots| - 1];
      assert roots == front + [last];
      AllScopesContents(files, front);
      ScopeContents(files, last);
      forall f
        ensures f in AllScopes(files, roots) <==> exists r :: r in roots && InScope(files, r, f)
      {
        assert (exists r :: r in roots && InScope(files, r, f)) <==>
               (exists r :: r in front && InScope(files, r, f)) || InScope(files, last, f);
      }
    }
  }

  /** No root lies below another one, so a file is below one root at most. */
  lemma OneRoot(files: Walk, p: Path, r: Path, q: Path, f: Path)
    requires IsRoot(files, p, r) && IsRoot(files, p, q) && r <= f && q <= f
    ensures r == q
  {
    assert r <= q || q <= r;
  }

  lemma {:induction false} NotYetIncluded(files: Walk, p: Path, roots: seq<Path>, i: nat, f: Path)
    requires AreRoots(roots, files, p) && i < |roots|
    requires f == roots[i] + [INDEX] || f in Others(files, roots[i])
    ensures f !in AllScopes(files, roots[..i])
    ensures f in Others(files, roots[i]) ==> f != roots[i] + [INDEX]
  {
    hide Others, AllScopes, PathLt, IsRoot;
    OthersContents(files, roots[i]);
    IndexFile(roots[i] + [INDEX]);
    AllScopesContents(files, roots[..i]);
    forall r | r in roots[..i] && InScope(files, r, f)
      ensures false
    {
      var j :| 0 <= j < i && roots[j] == r;
      assert r in roots && roots[i] in roots;
      OneRoot(files, p, r, roots[i], f);
      assert PathLt(roots[j], roots[i]);
      PathLtTotal(r, r);
    }
  }

  lemma {:induction false} NoRoots(files: Walk, p: Path)
    requires Filter(ListCfgFiles(files, p), Index()) == []
    ensures AreRoots([], files, p) && AllScopes(files, []) == []
  {
    hide ListCfgFiles, Filter, PathLt;
    IndexList(files, p, Sort(Filter(ListCfgFiles(files, p), Index()), DepthLe));
    forall d
      ensures !IsRoot(files, p, d)
    {
    }
  }

  lemma {:induction false} NextScope(files: Walk, p: Path, roots: seq<Path>, i: nat)
    requires AreRoots(roots, files, p) && i < |roots|
    ensures roots[i] + [INDEX] in files
    ensures AllScopes(files, roots[..i + 1]) ==
            AllScopes(files, roots[..i]) + [roots[i] + [INDEX]] + Others(files, roots[i])
  {
    hide Others, PathLt;
    assert roots[i] in roots;
    assert roots[..i + 1][..i] == roots[..i];
  }

  lemma {:induction false} FreshOther(files: Walk, p: Path, roots: seq<Path>, i: nat, j: nat)
    requires AreRoots(roots, files, p) && i < |roots| && j < |Others(files, roots[i])|
    ensures var sub := Others(files, roots[i]);
            && sub[j] !in AllScopes(files, roots[..i]) + [roots[i] + [INDEX]] + sub[..j]
            && sub[..j + 1] == sub[..j] + [sub[j]]
  {
    hide Others, AllScopes, PathLt, IsRoot;
    var sub := Others(files, roots[i]);
    NotYetIncluded(files, p, roots, i, sub[j]);
    OthersContents(files, roots[i]);
    forall k | 0 <= k < j
      ensures sub[k] != sub[j]
    {
      PathLtTotal(sub[j], sub[j]);
    }
  }

  /** The configuration chunks of a directory, scope by scope. */
  method CollectChunks(files: Walk, p: Path) returns (chunks: seq<Path>)
    ensures exists roots :: AreRoots(roots, files, p) && chunks == AllScopes(files, roots)
    ensures forall f :: f in chunks ==> f in files && HasCfgName(f)
    ensures var index := [0x73, 0x65, 0x6E, 0x73, 0x6F, 0x72, 0x73, 0x2E, 0x63, 0x66, 0x67];
            forall f, d | f in files && HasCfgName(f) && f[|f| - 1] != index && d + [index] in files
                          && p <= d + [index] && d <= f :: f in chunks
  {
    hide AreRoots, ListCfgFiles, Filter, HasCfgName;
    var all := ListCfgFiles(files, p);
    var idxs := Filter(all, Index());
    if idxs == [] {
      NoRoots(files, p);
      ChunkNames(files, p, []);
      return [];
    }
    var dirs := ScopeRoots(files, p, idxs);
    chunks := [];
    var included: set<Path> := {};
    assert AllScopes(files, []) == [];
    for i := 0 to |dirs|
      invariant chunks == AllScopes(files, dirs[..i])
      invariant forall f :: f in included <==> f in chunks
    {
      var idx := dirs[i] + [INDEX];
      NextScope(files, p, dirs, i);
      if idx in files {
        chunks := chunks + [idx];
        included := included + {idx};
      }
      var sub := Filter(ListCfgFiles(files, dirs[i]), NotIndex());
      assert sub == Others(files, dirs[i]);
      for j := 0 to |sub|
        invariant chunks == AllScopes(files, dirs[..i]) + [idx] + sub[..j]
        invariant forall f :: f in included <==> f in chunks
      {
        FreshOther(files, p, dirs, i, j);
        if sub[j] !in included {
          included := included + {sub[j]};
          chunks := chunks + [sub[j]];
        }
      }
      assert sub[..|sub|] == sub;
    }
    assert dirs[..|dirs|] == dirs;
    ChunkNames(files, p, dirs);
  }

  // ---- what the chunk list holds ----

  lemma {:induction false} RootAbove(files: Walk, p: Path, d: Path)
    requires IsIndexDir(files, p, d)
    ensures exists r :: IsRoot(files, p, r) && r <= d
    decreases |d|
  {
    if !IsRoot(files, p, d) {
      var a :| IsIndexDir(files, p, a) && a <= d && a != d;
      RootAbove(files, p, a);
      var r :| IsRoot(files, p, r) && r <= a;
      assert r <= d;
    }
  }

  /** An index is loaded exactly when no other index lies above its directory; any other
      configuration file exactly when some index does. */
  lemma {:induction false} ChunksExact(files: Walk, p: Path, roots: seq<Path>)
    requires AreRoots(roots, files, p)
    ensures forall f :: f in AllScopes(files, roots) <==>
              || (IsIndex(f) && IsRoot(files, p, Parent(f)))
              || (f in files && IsCfg(f) && !IsIndex(f) && exists d :: IsIndexDir(files, p, d) && d <= f)
  {
    hide AllScopes, IsCfg, IsIndex, PathLt;
    AllScopesContents(files, roots);
    forall f
      ensures f in AllScopes(files, roots) <==>
              || (IsIndex(f) && IsRoot(files, p, Parent(f)))
              || (f in files && IsCfg(f) && !IsIndex(f) && exists d :: IsIndexDir(files, p, d) && d <= f)
    {
      hide AreRoots, IsRoot;
      assert forall r :: r in roots <==> IsRoot(files, p, r) by {
        assert AreRoots(roots, files, p);
      }
      ChunkExact(files, p, roots, f);
    }
  }

  lemma ChunkExact(files: Walk, p: Path, roots: seq<Path>, f: Path)
    requires forall r :: r in roots <==> IsRoot(files, p, r)
    ensures (exists r :: r in roots && InScope(files, r, f)) <==>
              || (IsIndex(f) && IsRoot(files, p, Parent(f)))
              || (f in files && IsCfg(f) && !IsIndex(f) && exists d :: IsIndexDir(files, p, d) && d <= f)
  {
    hide IsCfg, IsIndex;
    IndexFile(f);
    if r :| r in roots && InScope(files, r, f) {
      IndexFile(r + [INDEX]);
      assert Parent(r + [INDEX]) == r;
    }
    if IsIndex(f) && IsRoot(files, p, Parent(f)) {
      assert InScope(files, Parent(f), f);
    }
    if d :| f in files && IsCfg(f) && !IsIndex(f) && IsIndexDir(files, p, d) && d <= f {
      RootAbove(files, p, d);
      var r :| IsRoot(files, p, r) && r <= d;
      assert r <= f;
      assert InScope(files, r, f);
    }
  }

  /** Scope by scope in path order, and in a scope its index first, then the rest in path order. */
  predicate Precedes(r: Path, a: Path, q: Path, b: Path) {
    PathLt(r, q) || (r == q && a != b && (IsIndex(a) || (!IsIndex(b) && PathLt(a, b))))
  }

  ghost function LoadedBefore(roots: seq<Path>): (Path, Path) -> bool {
    (a: Path, b: Path) => forall r, q :: r in roots && q in roots && r <= a && q <= b ==> Precedes(r, a, q, b)
  }

  lemma ConcatPairwise(a: seq<Path>, b: seq<Path>, rel: (Path, Path) -> bool)
    requires Pairwise(a, rel) && Pairwise(b, rel)
    requires forall x, y :: x in a && y in b ==> rel(x, y)
    ensures Pairwise(a + b, rel)
  {
  }

  lemma ScopeOrdered(files: Walk, p: Path, roots: seq<Path>, i: nat)
    requires AreRoots(roots, files, p) && i < |roots|
    ensures Pairwise(Scope(files, roots[i]), LoadedBefore(roots))
  {
    hide Others, IsIndex, PathLt, IsRoot, IsCfg;
    var root, sub := roots[i], Others(files, roots[i]);
    OthersContents(files, root);
    IndexFile(root + [INDEX]);
    assert root in roots;
    var l := Scope(files, root);
    forall x, y | 0 <= x < y < |l|
      ensures LoadedBefore(roots)(l[x], l[y])
    {
      assert l[y] in sub && root <= l[y];
      assert x > 0 ==> l[x] in sub && PathLt(sub[x - 1], sub[y - 1]);
      assert root <= l[x];
      PathLtTotal(l[x], l[y]);
      assert Precedes(root, l[x], root, l[y]);
      forall r, q | r in roots && q in roots && r <= l[x] && q <= l[y]
        ensures Precedes(r, l[x], q, l[y])
      {
        OneRoot(files, p, r, root, l[x]);
        OneRoot(files, p, q, root, l[y]);
      }
    }
  }

  lemma {:induction false} AcrossScopes(files: Walk, p: Path, roots: seq<Path>, i: nat, a: Path, b: Path)
    requires AreRoots(roots, files, p) && i < |roots|
    requires a in AllScopes(files, roots[..i]) && b in Scope(files, roots[i])
    ensures LoadedBefore(roots)(a, b)
  {
    hide AllScopes, Scope, IsIndex, PathLt, IsRoot, IsCfg;
    AllScopesContents(files, roots[..i]);
    ScopeContents(files, roots[i]);
    var s :| s in roots[..i] && InScope(files, s, a);
    var j :| 0 <= j < i && roots[j] == s;
    assert s in roots && roots[i] in roots && s <= a && roots[i] <= b;
    assert PathLt(roots[j], roots[i]);
    forall r, q | r in roots && q in roots && r <= a && q <= b
      ensures Precedes(r, a, q, b)
    {
      OneRoot(files, p, r, s, a);
      OneRoot(files, p, q, roots[i], b);
    }
  }

  lemma {:induction false} ScopesOrdered(files: Walk, p: Path, roots: seq<Path>, n: nat)
    requires AreRoots(roots, files, p) && n <= |roots|
    ensures Pairwise(AllScopes(files, roots[..n]), LoadedBefore(roots))
    decreases n
  {
    hide AreRoots, Scope, LoadedBefore;
    if n > 0 {
      ScopesOrdered(files, p, roots, n - 1);
      ScopeOrdered(files, p, roots, n - 1);
      assert roots[..n][..n - 1] == roots[..n - 1];
      forall a, b | a in AllScopes(files, roots[..n - 1]) && b in Scope(files, roots[n - 1])
        ensures LoadedBefore(roots)(a, b)
      {
        AcrossScopes(files, p, roots, n - 1, a, b);
      }
      ConcatPairwise(AllScopes(files, roots[..n - 1]), Scope(files, roots[n - 1]), LoadedBefore(roots));
    }
  }

  /** The chunk list has no duplicates; every chunk has exactly one scope root; the scopes follow one
      another in path order, each with its index in front. */
  lemma {:induction false} ChunksOrdered(files: Walk, p: Path, roots: seq<Path>)
    requires AreRoots(roots, files, p)
    ensures Pairwise(AllScopes(files, roots), LoadedBefore(roots))
    ensures Pairwise(AllScopes(files, roots), Different)
    ensures forall f :: f in AllScopes(files, roots) ==>
              exists r :: r in roots && r <= f && forall q :: q in roots && q <= f ==> q == r
  {
    hide AllScopes, PathLt, IsIndex, IsRoot, IsCfg;
    assert roots[..|roots|] == roots;
    ScopesOrdered(files, p, roots, |roots|);
    AllScopesContents(files, roots);
    var l := AllScopes(files, roots);
    forall f | f in l
      ensures exists r :: r in roots && r <= f && forall q :: q in roots && q <= f ==> q == r
    {
      var r :| r in roots && InScope(files, r, f);
      forall q | q in roots && q <= f
        ensures q == r
      {
        OneRoot(files, p, q, r, f);
      }
    }
    forall i, j | 0 <= i < j < |l|
      ensures Different(l[i], l[j])
    {
      assert l[i] in l;
      var r :| r in roots && r <= l[i];
      PathLtTotal(r, r);
      assert LoadedBefore(roots)(l[i], l[j]);
    }
  }

  /** The chunk list does not depend on the order in which a walk meets the files. */
  lemma {:induction false} WalkOrderIrrelevant(files: Walk, others: Walk, p: Path, roots: seq<Path>, dirs: seq<Path>)
    requires AreRoots(roots, files, p) && AreRoots(dirs, others, p)
    requires forall f :: f in files <==> f in others
    ensures roots == dirs && AllScopes(files, roots) == AllScopes(others, dirs)
  {
    hide AllScopes, PathLt;
    PathsAreOrdered();
    forall d
      ensures IsRoot(files, p, d) <==> IsRoot(others, p, d)
    {
      assert forall a :: IsIndexDir(files, p, a) <==> IsIndexDir(others, p, a);
    }
    OrderedUnique(roots, dirs, PathLt);
    SameScopes(files, others, roots);
  }

  lemma {:induction false} SameScopes(files: Walk, others: Walk, roots: seq<Path>)
    requires forall f :: f in files <==> f in others
    ensures AllScopes(files, roots) == AllScopes(others, roots)
    decreases |roots|
  {
    if roots != [] {
      hide Others, PathLt, IsCfg, IsIndex;
      var last := roots[|roots| - 1];
      SameScopes(files, others, roots[..|roots| - 1]);
      OthersContents(files, last);
      OthersContents(others, last);
      PathsAreOrdered();
      OrderedUnique(Others(files, last), Others(others, last), PathLt);
    }
  }

  /** A name with something in front of ".cfg". */
  ghost predicate HasCfgName(f: Path) {
    f != [] && exists stem: Key :: stem != [] && f[|f| - 1] == stem + [0x2E, 0x63, 0x66, 0x67]
  }

  lemma CfgName(f: Path)
    ensures (IsCfg(f) <==> HasCfgName(f)) && (HasCfgName(f) ==> f != [])
  {
    var n := Name(f);
    if IsCfg(f) {
      var stem := n[..|n| - 4];
      assert n == stem + [0x2E, 0x63, 0x66, 0x67] && stem != [];
    }
  }

  lemma IndexName(f: Path)
    ensures IsIndex(f) <==>
              f != [] && f[|f| - 1] == [0x73, 0x65, 0x6E, 0x73, 0x6F, 0x72, 0x73, 0x2E, 0x63, 0x66, 0x67]
  {
  }

  /** The chunks by their names: below a scope root every walked file that is called something and ".cfg", other
      than "sensors.cfg", is a chunk; nothing else is one but the roots' own "sensors.cfg". */
  lemma {:induction false} ChunksByName(files: Walk, p: Path, roots: seq<Path>, f: Path)
    requires AreRoots(roots, files, p)
    ensures var index := [0x73, 0x65, 0x6E, 0x73, 0x6F, 0x72, 0x73, 0x2E, 0x63, 0x66, 0x67];
            f in AllScopes(files, roots) <==>
              || (f != [] && f[|f| - 1] == index && f[..|f| - 1] in roots)
              || (HasCfgName(f) && f[|f| - 1] != index && f in files && exists r :: r in roots && r <= f)
  {
    hide AllScopes, AreRoots, IsCfg, IsIndex, HasCfgName;
    AllScopesContents(files, roots);
    CfgName(f);
    IndexName(f);
    IndexFile(f);
    if f != [] && IsIndex(f) && f[..|f| - 1] in roots {
      assert InScope(files, f[..|f| - 1], f);
    }
    if r :| r in roots && r <= f && IsCfg(f) && !IsIndex(f) && f in files {
      assert InScope(files, r, f);
    }
    if r :| r in roots && InScope(files, r, f) {
      IndexFile(r + [INDEX]);
      assert Parent(r + [INDEX]) == r;
    }
  }

  /** And a scope root is a directory with a "sensors.cfg" below the given one, under no other such directory. */
  lemma {:induction false} RootsByName(files: Walk, p: Path, roots: seq<Path>, d: Path)
    requires AreRoots(roots, files, p)
    ensures var index := [0x73, 0x65, 0x6E, 0x73, 0x6F, 0x72, 0x73, 0x2E, 0x63, 0x66, 0x67];
            d in roots <==>
              && d + [index] in files && p <= d + [index]
              && forall a :: a + [index] in files && p <= a + [index] && a <= d ==> a == d
  {
    hide PathLt;
    assert INDEX == [0x73, 0x65, 0x6E, 0x73, 0x6F, 0x72, 0x73, 0x2E, 0x63, 0x66, 0x67];
    assert d in roots <==> IsRoot(files, p, d);
    assert forall a :: IsIndexDir(files, p, a) <==> a + [INDEX] in files && p <= a + [INDEX];
    hide IsIndexDir;
  }

  ghost predicate FirstDifferentPart(a: Path, b: Path, i: nat) {
    i < |a| && i < |b| && a[..i] == b[..i] && Lt(a[i], b[i])
  }

  /** Path order in full: a directory before what is in it, else by the first different component. */
  lemma {:induction false} PathLtIff(a: Path, b: Path)
    ensures PathLt(a, b) <==> (a <= b && a != b) || exists i: nat :: FirstDifferentPart(a, b, i)
    decreases |a|
  {
    hide Lt;
    if a != [] && b != [] {
      var x, y := a[1..], b[1..];
      assert a == [a[0]] + x && b == [b[0]] + y;
      PathLtIff(x, y);
      LtIrreflexive(a[0]);
      if i: nat :| FirstDifferentPart(x, y, i) && a[0] == b[0] {
        assert a[..i + 1] == [a[0]] + x[..i] && b[..i + 1] == [b[0]] + y[..i];
        assert FirstDifferentPart(a, b, i + 1);
      }
      if Lt(a[0], b[0]) {
        assert FirstDifferentPart(a, b, 0);
      }
      if i: nat :| FirstDifferentPart(a, b, i) && !Lt(a[0], b[0]) {
        assert i > 0;
        assert a[..i][0] == b[..i][0] && a[..i][1..] == x[..i - 1] && b[..i][1..] == y[..i - 1];
        assert FirstDifferentPart(x, y, i - 1);
      }
    }
  }

  /** What a caller sees of the chunk list. */
  lemma {:induction false} ChunkNames(files: Walk, p: Path, roots: seq<Path>)
    requires AreRoots(roots, files, p)
    ensures forall f :: f in AllScopes(files, roots) ==> f in files && HasCfgName(f)
    ensures var index := [0x73, 0x65, 0x6E, 0x73, 0x6F, 0x72, 0x73, 0x2E, 0x63, 0x66, 0x67];
            forall f, d | f in files && HasCfgName(f) && f[|f| - 1] != index && d + [index] in files
                          && p <= d + [index] && d <= f :: f in AllScopes(files, roots)
  {
    hide AllScopes, AreRoots, IsRoot, PathLt, HasCfgName;
    var index := [0x73, 0x65, 0x6E, 0x73, 0x6F, 0x72, 0x73, 0x2E, 0x63, 0x66, 0x67];
    assert INDEX == index;
    ChunksExact(files, p, roots);
    forall f
      ensures HasCfgName(f) ==> f != []
    {
      CfgName(f);
    }
    forall f | f in AllScopes(files, roots)
      ensures f in files && HasCfgName(f)
    {
      CfgName(f);
      IndexFile(f);
      if IsIndex(f) && IsRoot(files, p, Parent(f)) {
        RootIsListed(files, p, Parent(f));
      }
    }
    forall f, d | f in files && HasCfgName(f) && f[|f| - 1] != index && d + [index] in files
                  && p <= d + [index] && d <= f
      ensures f in AllScopes(files, roots)
    {
      CfgName(f);
      IndexName(f);
      assert IsIndexDir(files, p, d);
    }
  }

  lemma RootIsListed(files: Walk, p: Path, d: Path)
    requires IsRoot(files, p, d)
    ensures d + [INDEX] in files
  {
  }
}
