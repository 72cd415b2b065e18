/** The directory tree synthesized from a flat list of archive paths, as a value: node records,
    each node's children in order, and each node's parent. Node 0 is the root. */
module TreeIndex {
  import opened Common

  const NAME_KEPT: nat := 127
  const DIR_MODE: nat := 493
  const FILE_MODE: nat := 420

  type Name = seq<byte>
  type Path = seq<Name>

  datatype Rec = Rec(name: Name, dir: bool, mode: nat, data: seq<byte>)

  datatype Tree = Tree(recs: seq<Rec>, kids: seq<seq<nat>>, up: seq<nat>)

  /** An archive entry: its path below the prefix, split at the slashes, and its payload. */
  datatype Entry = Entry(path: Path, data: seq<byte>)

  ghost predicate Wf(t: Tree) {
    && |t.recs| == |t.kids| == |t.up| > 0 && t.recs[0].dir
    && (forall p, j | 0 <= p < |t.kids| && 0 <= j < |t.kids[p]| ::
      p < t.kids[p][j] < |t.recs|
      && t.up[t.kids[p][j]] == p)
    && (forall p | 0 <= p < |t.kids| :: NoDup(t.kids[p]))
    && (forall n | 0 < n < |t.recs| :: t.up[n] < n && n in t.kids[t.up[n]])
  }

  function Root(): Tree { Tree([Rec([], true, DIR_MODE, [])], [[]], [0]) }

  /** _find: the first node of the list with this name. */
  function FindIn(t: Tree, ks: seq<nat>, name: Name): (r: Option<nat>)
    requires forall j | 0 <= j < |ks| :: ks[j] < |t.recs|
    ensures r.Some? ==> r.value in ks && r.value < |t.recs| && t.recs[r.value].name == name
    ensures r.None? ==> forall j | 0 <= j < |ks| :: t.recs[ks[j]].name != name
  {
    if ks == [] then None
    else if t.recs[ks[0]].name == name then Some(ks[0])
    else FindIn(t, ks[1..], name)
  }

  /** The child of p that a lookup of this name finds. */
  function Child(t: Tree, p: nat, name: Name): (r: Option<nat>)
    requires Wf(t) && p < |t.recs|
    ensures r.Some? ==> p < r.value < |t.recs| && t.up[r.value] == p && t.recs[r.value].name == name
  { FindIn(t, t.kids[p], name) }

  /** Names are stored in 128 bytes with a terminator. */
  function Stored(name: Name): Name { if |name| < NAME_KEPT then name else name[..NAME_KEPT] }

  /** _new_node and _append: a new last child. */
  function AddChild(t: Tree, p: nat, r: Rec): Tree
    requires Wf(t) && p < |t.recs|
  { Tree(t.recs + [r], t.kids[p := t.kids[p] + [|t.recs|]] + [[]], t.up + [p]) }

  /** _insert from node p on: directories are found or made, an excluded first-level directory
      or an empty component stops it, and the first file of a name wins. */
  ghost function InsertAt(t: Tree, p: nat, path: Path, data: seq<byte>, rootMode: nat, exclude: set<Name>): (t': Tree)
    requires Wf(t) && p < |t.recs|
    ensures Wf(t')
    decreases |path|
  {
    if path == [] || path[0] == [] then t
    else if |path| == 1 then
      if Child(t, p, path[0]).Some? then t
      else
        AddChildWf(t, p, Rec(Stored(path[0]), false, if p == 0 then rootMode else FILE_MODE, data));
        AddChild(t, p, Rec(Stored(path[0]), false, if p == 0 then rootMode else FILE_MODE, data))
    else if p == 0 && path[0] in exclude then t
    else
      match Child(t, p, path[0])
      case Some(d) => InsertAt(t, d, path[1..], data, rootMode, exclude)
      case None =>
        AddChildWf(t, p, Rec(Stored(path[0]), true, DIR_MODE, []));
        InsertAt(AddChild(t, p, Rec(Stored(path[0]), true, DIR_MODE, [])), |t.recs|, path[1..], data, rootMode, exclude)
  }

  /** cctkfs_tree_build: the entries in archive order. */
  ghost function BuildFrom(t: Tree, entries: seq<Entry>, rootMode: nat, exclude: set<Name>): (t': Tree)
    requires Wf(t)
    ensures Wf(t')
    decreases |entries|
  {
    if entries == [] then t
    else
      var n := |entries| - 1;
      InsertAt(BuildFrom(t, entries[..n], rootMode, exclude), 0, entries[n].path, entries[n].data, rootMode, exclude)
  }

  ghost function Build(entries: seq<Entry>, rootMode: nat, exclude: set<Name>): (t: Tree)
    ensures Wf(t)
  { BuildFrom(Root(), entries, rootMode, exclude) }

  /** Walking a path one component at a time; only directories can be walked. */
  function Resolve(t: Tree, s: nat, q: Path): (r: Option<nat>)
    requires Wf(t) && s < |t.recs|
    ensures r.Some? ==> r.value < |t.recs|
    decreases |q|
  {
    if q == [] then Some(s)
    else if !t.recs[s].dir then None
    else match Child(t, s, q[0]) case None => None case Some(k) => Resolve(t, k, q[1..])
  }

  // ---------------------------------------------------------------- one new child

  lemma AddChildWf(t: Tree, p: nat, r: Rec)
    requires Wf(t) && p < |t.recs|
    ensures Wf(AddChild(t, p, r))
  {
    var t', n := AddChild(t, p, r), |t.recs|;
    forall m | 0 < m < |t'.recs| ensures t'.up[m] < m && m in t'.kids[t'.up[m]] {
      if m == n {
        assert t'.kids[p][|t.kids[p]|] == n;
      } else {
        assert m in t.kids[t.up[m]];
        var j :| 0 <= j < |t.kids[t.up[m]]| && t.kids[t.up[m]][j] == m;
        assert t'.kids[t.up[m]][j] == m;
      }
    }
  }

  lemma {:induction false} FindSame(t: Tree, t': Tree, ks: seq<nat>, name: Name)
    requires |t.recs| <= |t'.recs| && t'.recs[..|t.recs|] == t.recs
    requires forall j | 0 <= j < |ks| :: ks[j] < |t.recs|
    ensures FindIn(t', ks, name) == FindIn(t, ks, name)
  {
    if ks != [] {
      assert t'.recs[ks[0]] == t'.recs[..|t.recs|][ks[0]];
      FindSame(t, t', ks[1..], name);
    }
  }

  lemma {:induction false} FindSnoc(t: Tree, ks: seq<nat>, n: nat, name: Name)
    requires n < |t.recs| && forall j | 0 <= j < |ks| :: ks[j] < |t.recs|
    ensures FindIn(t, ks + [n], name) ==
      if FindIn(t, ks, name).Some? then FindIn(t, ks, name) else if t.recs[n].name == name then Some(n) else None
  {
    if ks == [] {
      assert [n][1..] == [];
    } else {
      FindSnoc(t, ks[1..], n, name);
      assert (ks + [n])[1..] == ks[1..] + [n];
    }
  }

  /** The new node is found under its own parent and name, unless an older one was there. */
  lemma AddChildFind(t: Tree, p: nat, r: Rec, s: nat, name: Name)
    requires Wf(t) && p < |t.recs| && s < |t.recs|
    ensures var t' := AddChild(t, p, r);
      Wf(t') && Child(t', s, name) ==
      if Child(t, s, name).Some? then Child(t, s, name)
      else if s == p && r.name == name then Some(|t.recs|) else None
  {
    AddChildWf(t, p, r);
    var t' := AddChild(t, p, r);
    FindSame(t, t', t.kids[s], name);
    if s == p { FindSnoc(t', t.kids[p], |t.recs|, name); }
  }

  /** A new child changes no walk that succeeds, and makes exactly one more succeed. */
  lemma {:induction false} AddChildResolve(t: Tree, p: nat, r: Rec, s: nat, q: Path)
    requires Wf(t) && p < |t.recs| && s < |t.recs|
    ensures var t' := AddChild(t, p, r);
      Wf(t') && Resolve(t', s, q) ==
      if Resolve(t, s, q).Some? then Resolve(t, s, q)
      else if Resolve(t, s, q[..|q| - 1]) == Some(p) && t.recs[p].dir && q[|q| - 1] == r.name then Some(|t.recs|)
      else None
    decreases |q|
  {
    hide Wf, AddChild, Child;
    AddChildWf(t, p, r);
    NewRecs(t, p, r);
    var t' := AddChild(t, p, r);
    if q != [] && t.recs[s].dir {
      AddChildFind(t, p, r, s, q[0]);
      var f := Child(t, s, q[0]);
      var init := q[..|q| - 1];
      if f.Some? {
        AddChildResolve(t, p, r, f.value, q[1..]);
        if |q| > 1 { assert init[0] == q[0] && init[1..] == q[1..][..|q| - 2]; }
      } else if |q| > 1 {
        assert init[0] == q[0];
        if s == p && r.name == q[0] { NewHasNoKids(t, p, r, q[1..]); }
      }
    }
  }

  lemma NewRecs(t: Tree, p: nat, r: Rec)
    requires Wf(t) && p < |t.recs|
    ensures var t' := AddChild(t, p, r);
      |t'.recs| == |t.recs| + 1 && t'.recs[..|t.recs|] == t.recs
      && t'.recs[|t.recs|] == r
  {}

  lemma NewHasNoKids(t: Tree, p: nat, r: Rec, q: Path)
    requires Wf(t) && p < |t.recs| && q != []
    ensures var t' := AddChild(t, p, r); Wf(t') && Resolve(t', |t.recs|, q) == None
  { AddChildWf(t, p, r); }

  /** The names from the root down to a node. */
  function PathTo(t: Tree, n: nat): Path
    requires Wf(t) && n < |t.recs|
    decreases n
  { if n == 0 then [] else PathTo(t, t.up[n]) + [t.recs[n].name] }

  lemma {:induction false} ResolvePath(t: Tree, s: nat, q: Path)
    requires Wf(t) && s < |t.recs| && Resolve(t, s, q).Some?
    ensures PathTo(t, Resolve(t, s, q).value) == PathTo(t, s) + q
    decreases |q|
  {
    if q != [] {
      var k := Child(t, s, q[0]).value;
      ResolvePath(t, k, q[1..]);
      assert PathTo(t, s) + [q[0]] + q[1..] == PathTo(t, s) + q;
    }
  }

  lemma {:induction false} ResolveSnoc(t: Tree, s: nat, q: Path, name: Name)
    requires Wf(t) && s < |t.recs|
    ensures Resolve(t, s, q + [name]) ==
      match Resolve(t, s, q)
      case None => None
      case Some(p) => if t.recs[p].dir then Child(t, p, name) else None
    decreases |q|
  {
    if q == [] {
      assert (q + [name])[1..] == [];
    } else {
      assert (q + [name])[1..] == q[1..] + [name];
      if t.recs[s].dir && Child(t, s, q[0]).Some? { ResolveSnoc(t, Child(t, s, q[0]).value, q[1..], name); }
    }
  }

  /** Nothing resolves below what does not, or below a file. */
  lemma {:induction false} ResolveBelow(t: Tree, s: nat, q: Path, r: Path)
    requires Wf(t) && s < |t.recs| && r != []
    requires Resolve(t, s, q).None? || !t.recs[Resolve(t, s, q).value].dir
    ensures Resolve(t, s, q + r) == None
    decreases |q|
  {
    if q == [] {
      assert q + r == r;
    } else {
      assert (q + r)[1..] == q[1..] + r;
      if t.recs[s].dir && Child(t, s, q[0]).Some? { ResolveBelow(t, Child(t, s, q[0]).value, q[1..], r); }
    }
  }

  // ---------------------------------------------------------------- what a walk finds

  datatype Kind = Absent | IsDir | IsFile(data: seq<byte>)

  function KindOf(r: Rec): Kind { if r.dir then IsDir else IsFile(r.data) }

  function KindAt(t: Tree, q: Path): Kind
    requires Wf(t)
  { match Resolve(t, 0, q) case None => Absent case Some(n) => KindOf(t.recs[n]) }

  lemma AddChildKind(t: Tree, p: nat, prefix: Path, r: Rec, q: Path)
    requires Wf(t) && Resolve(t, 0, prefix) == Some(p) && t.recs[p].dir
    ensures var t' := AddChild(t, p, r);
      Wf(t') && KindAt(t', q) == if KindAt(t, q) != Absent then KindAt(t, q) else if q == prefix + [r.name] then
        KindOf(r) else Absent
  {
    hide Wf, Child;
    AddChildResolve(t, p, r, 0, q);
    NewRecs(t, p, r);
    if q != [] {
      var init := q[..|q| - 1];
      assert q == init + [q[|q| - 1]];
      RootPath(t, prefix);
      if Resolve(t, 0, init) == Some(p) { RootPath(t, init); }
    } else {
      assert Resolve(t, 0, q) == Some(0);
    }
  }

  lemma RootPath(t: Tree, q: Path)
    requires Wf(t) && Resolve(t, 0, q).Some?
    ensures PathTo(t, Resolve(t, 0, q).value) == q
  { ResolvePath(t, 0, q); }

  predicate GoodName(name: Name) { 0 < |name| <= NAME_KEPT }
  ghost predicate GoodPath(path: Path) { path != [] && forall j | 0 <= j < |path| :: GoodName(path[j]) }

  /** Exclusion concerns only directories of the first level. */
  predicate Excluded(path: Path, exclude: set<Name>) { |path| > 1 && path[0] in exclude }

  /** No file stands on the way and no directory at the end. */
  ghost predicate Clear(t: Tree, prefix: Path, path: Path)
    requires Wf(t)
  {
    && (forall j | 0 < j < |path| :: !KindAt(t, prefix + path[..j]).IsFile?)
    && !KindAt(t, prefix + path).IsDir?
  }

  /** What inserting a path below `prefix` adds: the directories on the way and the file. */
  function Added(was: Kind, prefix: Path, path: Path, data: seq<byte>, q: Path): Kind {
    if was != Absent then was
    else if |q| > |prefix| && q <= prefix + path then (if q == prefix + path then IsFile(data) else IsDir)
    else Absent
  }

  ghost predicate Placed(t: Tree, p: nat, prefix: Path, path: Path, exclude: set<Name>) {
    && Wf(t) && Resolve(t, 0, prefix) == Some(p) && t.recs[p].dir
    && GoodPath(path) && (prefix == [] ==> !Excluded(path, exclude)) && Clear(t, prefix, path)
  }

  lemma AtRoot(t: Tree, p: nat, prefix: Path)
    requires Wf(t) && Resolve(t, 0, prefix) == Some(p)
    ensures p == 0 <==> prefix == []
  { RootPath(t, prefix); }

  /** One step of the insertion loop: the next directory exists, or is made. */
  lemma DirStep(t: Tree, p: nat, prefix: Path, path: Path, exclude: set<Name>)
    requires Placed(t, p, prefix, path, exclude) && |path| > 1
    ensures Stored(path[0]) == path[0]
    ensures var r, f := Rec(path[0], true, DIR_MODE, []), Child(t, p, path[0]);
      && (f.Some? ==>
        Placed(t, f.value, prefix + [path[0]], path[1..], exclude)
        && KindAt(t, prefix + [path[0]]) == IsDir)
      && (f.None? ==>
        KindAt(t, prefix + [path[0]]) == Absent
        && Placed(AddChild(t, p, r), |t.recs|, prefix + [path[0]], path[1..], exclude))
  {
    hide Wf, Child, Resolve, AddChild;
    assert GoodName(path[0]);
    var f, c := Child(t, p, path[0]), prefix + [path[0]];
    ResolveSnoc(t, 0, prefix, path[0]);
    assert path[..1] == [path[0]];
    assert KindAt(t, prefix + path[..1]) == KindAt(t, c);
    Regroup(prefix, path);
    if f.None? {
      var r := Rec(path[0], true, DIR_MODE, []);
      var t' := AddChild(t, p, r);
      AddChildWf(t, p, r);
      NewRecs(t, p, r);
      AddChildResolve(t, p, r, 0, c);
      assert c[..|c| - 1] == prefix;
      forall j | 0 < j < |path[1..]| ensures !KindAt(t', c + path[1..][..j]).IsFile? {
        AddChildKind(t, p, prefix, r, c + path[1..][..j]);
        assert c + path[1..][..j] == prefix + path[..j + 1];
      }
      AddChildKind(t, p, prefix, r, c + path[1..]);
    } else {
      forall j | 0 < j < |path[1..]| ensures !KindAt(t, c + path[1..][..j]).IsFile? {
        assert c + path[1..][..j] == prefix + path[..j + 1];
      }
    }
  }

  lemma Regroup(prefix: Path, path: Path)
    requires path != []
    ensures prefix + [path[0]] + path[1..] == prefix + path
  {}

  lemma {:induction false} InsertKind(t: Tree, p: nat, prefix: Path, path: Path, data: seq<byte>, rootMode: nat,
    exclude: set<Name>, q: Path)
    requires Placed(t, p, prefix, path, exclude)
    ensures KindAt(InsertAt(t, p, path, data, rootMode, exclude), q) == Added(KindAt(t, q), prefix, path, data, q)
    decreases |path|
  {
    hide Wf, KindAt, Clear, GoodPath, AddChild, Child;
    AtRoot(t, p, prefix);
    GoodFirst(path);
    if |path| == 1 {
      FileStep(t, p, prefix, path, data, rootMode, q);
    } else {
      var c := prefix + [path[0]];
      DirStep(t, p, prefix, path, exclude);
      Regroup(prefix, path);
      PrefixStep(q, prefix, path);
      var f := Child(t, p, path[0]);
      if f.Some? {
        InsertKind(t, f.value, c, path[1..], data, rootMode, exclude, q);
      } else {
        var r := Rec(path[0], true, DIR_MODE, []);
        AddChildKind(t, p, prefix, r, q);
        InsertKind(AddChild(t, p, r), |t.recs|, c, path[1..], data, rootMode, exclude, q);
      }
    }
  }

  lemma GoodFirst(path: Path)
    requires GoodPath(path)
    ensures path != [] && path[0] != [] && Stored(path[0]) == path[0]
  { assert GoodName(path[0]); }

  /** A path at or below the prefix is the next directory or lies below it. */
  lemma PrefixStep(q: Path, prefix: Path, path: Path)
    requires path != []
    ensures |q| > |prefix| && q <= prefix + path <==>
      q == prefix + [path[0]]
      || (|q| > |prefix| + 1 && q <= prefix + path)
  {
    var c := prefix + [path[0]];
    if |q| == |prefix| + 1 && q <= prefix + path { assert q == (prefix + path)[..|q|] == c; }
    if q == c { assert (prefix + path)[..|q|] == c; }
  }

  lemma FileStep(t: Tree, p: nat, prefix: Path, path: Path, data: seq<byte>, rootMode: nat, q: Path)
    requires Wf(t) && Resolve(t, 0, prefix) == Some(p) && t.recs[p].dir && |path| == 1 && GoodPath(path)
      && Clear(t, prefix, path)
    ensures var r, f := Rec(path[0], false, if p == 0 then rootMode else FILE_MODE, data), Child(t, p, path[0]);
      && (f.Some? <==> KindAt(t, prefix + path).IsFile?) && (f.None? <==> KindAt(t, prefix + path) == Absent)
      && (f.Some? ==> Added(KindAt(t, q), prefix, path, data, q) == KindAt(t, q))
      && Wf(AddChild(t, p, r))
      && (f.None? ==> Added(KindAt(t, q), prefix, path, data, q) == KindAt(AddChild(t, p, r), q))
  {
    hide Wf, Child;
    var r := Rec(path[0], false, if p == 0 then rootMode else FILE_MODE, data);
    ResolveSnoc(t, 0, prefix, path[0]);
    assert prefix + path == prefix + [path[0]];
    AddChildKind(t, p, prefix, r, q);
    PrefixStep(q, prefix, path);
    assert |q| > |prefix| + 1 ==> !(q <= prefix + path);
  }

  // ---------------------------------------------------------------- the faithful index

  /** The first entry, not excluded, with this path. */
  function FirstEntry(entries: seq<Entry>, exclude: set<Name>, q: Path): (r: Option<nat>)
    ensures r.Some? ==> r.value < |entries| && entries[r.value].path == q && !Excluded(q, exclude)
    ensures r.Some? ==> forall j | 0 <= j < r.value :: entries[j].path != q
    ensures r.None? ==> Excluded(q, exclude) || forall j | 0 <= j < |entries| :: entries[j].path != q
  {
    if entries == [] then None
    else
      var n := |entries| - 1;
      var f := FirstEntry(entries[..n], exclude, q);
      if f.Some? then f else if entries[n].path == q && !Excluded(q, exclude) then Some(n) else None
  }

  ghost predicate OnTheWay(entries: seq<Entry>, exclude: set<Name>, q: Path) {
    exists j :: 0 <= j < |entries| && !Excluded(entries[j].path, exclude) && q < entries[j].path
  }

  /** What a flat list of paths says about q. */
  ghost function Expected(entries: seq<Entry>, exclude: set<Name>, q: Path): Kind {
    match FirstEntry(entries, exclude, q)
    case Some(i) => IsFile(entries[i].data)
    case None => if OnTheWay(entries, exclude, q) then IsDir else Absent
  }

  ghost predicate GoodPaths(entries: seq<Entry>) { forall j | 0 <= j < |entries| :: GoodPath(entries[j].path) }

  /** No path that is not excluded is a proper prefix of another. */
  ghost predicate PrefixFree(entries: seq<Entry>, exclude: set<Name>) {
    forall i, j | 0 <= i < |entries| && 0 <= j < |entries| && !Excluded(entries[i].path, exclude)
      && !Excluded(entries[j].path, exclude) ::
      !(entries[i].path < entries[j].path)
  }

  lemma {:induction false} BuildKinds(entries: seq<Entry>, rootMode: nat, exclude: set<Name>, q: Path)
    requires GoodPaths(entries) && PrefixFree(entries, exclude) && q != []
    ensures KindAt(Build(entries, rootMode, exclude), q) == Expected(entries, exclude, q)
    decreases |entries|
  {
    hide Wf, InsertAt, KindAt, GoodPath;
    if entries == [] {
      RootEmpty(q);
    } else {
      var n := |entries| - 1;
      var before, e := entries[..n], entries[n];
      assert forall j | 0 <= j < n :: before[j] == entries[j];
      var t := Build(before, rootMode, exclude);
      BuildKinds(before, rootMode, exclude, q);
      if Excluded(e.path, exclude) {
        ExcludedStays(t, e, rootMode, exclude);
        ExpectedSkips(before, e, exclude, q);
      } else {
        ReadyToInsert(entries, rootMode, exclude);
        InsertKind(t, 0, [], e.path, e.data, rootMode, exclude, q);
        ExpectedAdds(before, e, exclude, q);
      }
      assert before + [e] == entries;
    }
  }

  lemma RootEmpty(q: Path)
    requires q != []
    ensures Wf(Root()) && KindAt(Root(), q) == Absent
  {}

  lemma RootIsDir(t: Tree)
    requires Wf(t)
    ensures Resolve(t, 0, []) == Some(0) && t.recs[0].dir
  {}

  lemma ExcludedStays(t: Tree, e: Entry, rootMode: nat, exclude: set<Name>)
    requires Wf(t) && Excluded(e.path, exclude)
    ensures InsertAt(t, 0, e.path, e.data, rootMode, exclude) == t
  {}

  /** Prefixes of the new path are no files, since no earlier path is a prefix of it. */
  lemma WayIsClear(entries: seq<Entry>, exclude: set<Name>, rootMode: nat, j: nat)
    requires GoodPaths(entries) && PrefixFree(entries, exclude) && entries != []
    requires var e := entries[|entries| - 1]; !Excluded(e.path, exclude) && 0 < j < |e.path|
    ensures !KindAt(Build(entries[..|entries| - 1], rootMode, exclude), entries[|entries| - 1].path[..j]).IsFile?
    decreases |entries|, 0
  {
    hide Wf, InsertAt, KindAt, GoodPath;
    var n := |entries| - 1;
    var before, e := entries[..n], entries[n];
    var q := e.path[..j];
    assert q < e.path;
    BuildKinds(before, rootMode, exclude, q);
  }

  lemma EndIsClear(entries: seq<Entry>, exclude: set<Name>, rootMode: nat)
    requires GoodPaths(entries) && PrefixFree(entries, exclude) && entries != []
    requires !Excluded(entries[|entries| - 1].path, exclude)
    ensures !KindAt(Build(entries[..|entries| - 1], rootMode, exclude), entries[|entries| - 1].path).IsDir?
    decreases |entries|, 0
  {
    hide Wf, InsertAt, KindAt;
    var n := |entries| - 1;
    var before, e := entries[..n], entries[n];
    assert GoodPath(e.path);
    BuildKinds(before, rootMode, exclude, e.path);
  }

  lemma ExpectedSkips(before: seq<Entry>, e: Entry, exclude: set<Name>, q: Path)
    requires Excluded(e.path, exclude)
    ensures Expected(before + [e], exclude, q) == Expected(before, exclude, q)
  {
    var all := before + [e];
    assert all[..|before|] == before;
    assert OnTheWay(before, exclude, q) ==> OnTheWay(all, exclude, q) by {
      if OnTheWay(before, exclude, q) {
        var j :| 0 <= j < |before| && !Excluded(before[j].path, exclude) && q < before[j].path;
        assert all[j] == before[j];
      }
    }
  }

  lemma ExpectedAdds(before: seq<Entry>, e: Entry, exclude: set<Name>, q: Path)
    requires !Excluded(e.path, exclude) && q != [] && (q == e.path ==> !OnTheWay(before, exclude, q))
    ensures Expected(before + [e], exclude, q) == Added(Expected(before, exclude, q), [], e.path, e.data, q)
  {
    var all := before + [e];
    assert all[..|before|] == before && [] + e.path == e.path;
    if OnTheWay(before, exclude, q) {
      var j :| 0 <= j < |before| && !Excluded(before[j].path, exclude) && q < before[j].path;
      assert all[j] == before[j];
    }
    if q < e.path { assert all[|before|] == e; }
  }

  /** Walking q finds a file exactly when the archive has it, and it is the first entry's. */
  ghost predicate FaithfulAt(t: Tree, entries: seq<Entry>, exclude: set<Name>, q: Path)
    requires Wf(t)
  {
    match FirstEntry(entries, exclude, q)
    case Some(i) => KindAt(t, q) == IsFile(entries[i].data)
    case None => !KindAt(t, q).IsFile?
  }

  /** With components that are not empty and fit the name field, the tree is a faithful index
      of the archive exactly when no path is a proper prefix of another. */
  lemma FaithfulIff(entries: seq<Entry>, rootMode: nat, exclude: set<Name>)
    requires GoodPaths(entries)
    ensures PrefixFree(entries, exclude) <==> forall q: Path | q != [] ::
      FaithfulAt(Build(entries, rootMode, exclude), entries, exclude, q)
  {
    hide Wf, KindAt, InsertAt, Build;
    var t := Build(entries, rootMode, exclude);
    if PrefixFree(entries, exclude) {
      forall q: Path | q != [] ensures FaithfulAt(t, entries, exclude, q) { BuildKinds(entries, rootMode, exclude, q); }
    } else {
      var i, j :| 0 <= i < |entries| && 0 <= j < |entries| && !Excluded(entries[i].path, exclude)
        && !Excluded(entries[j].path, exclude)
        && entries[i].path < entries[j].path;
      var p, r := entries[i].path, entries[j].path;
      assert GoodPath(p) && GoodPath(r);
      FileHidesBelow(t, p, r);
      assert !FaithfulAt(t, entries, exclude, p) || !FaithfulAt(t, entries, exclude, r);
    }
  }

  lemma FileHidesBelow(t: Tree, p: Path, r: Path)
    requires Wf(t) && p < r
    ensures !(KindAt(t, p).IsFile? && KindAt(t, r).IsFile?)
  {
    assert r == p + r[|p|..];
    if KindAt(t, p).IsFile? { ResolveBelow(t, 0, p, r[|p|..]); }
  }

  // ---------------------------------------------------------------- counting

  function FileFlags(t: Tree): seq<bool> { seq(|t.recs|, n requires 0 <= n < |t.recs| => !t.recs[n].dir) }

  /** The number of file nodes. */
  function NumFiles(t: Tree): nat { Count(FileFlags(t)) }

  lemma AddChildNum(t: Tree, p: nat, r: Rec)
    requires Wf(t) && p < |t.recs|
    ensures NumFiles(AddChild(t, p, r)) == NumFiles(t) + (if r.dir then 0 else 1)
  {
    CountSnoc(FileFlags(t), !r.dir);
    assert FileFlags(AddChild(t, p, r)) == FileFlags(t) + [!r.dir];
  }

  /** Only directories have children. */
  ghost predicate FilesBare(t: Tree)
    requires Wf(t)
  { forall n | 0 <= n < |t.recs| && t.kids[n] != [] :: t.recs[n].dir }

  lemma AddChildBare(t: Tree, p: nat, r: Rec)
    requires Wf(t) && FilesBare(t) && p < |t.recs| && t.recs[p].dir
    ensures Wf(AddChild(t, p, r)) && FilesBare(AddChild(t, p, r))
  { AddChildWf(t, p, r); }

  /** _count: the files met walking down the directories below s. */
  function CountIn(t: Tree, s: nat): nat
    requires Wf(t) && s < |t.recs|
    decreases |t.recs| - s, 1, 0
  { CountList(t, s, t.kids[s]) }

  function CountList(t: Tree, s: nat, ks: seq<nat>): nat
    requires Wf(t) && s < |t.recs| && forall j | 0 <= j < |ks| :: s < ks[j] < |t.recs|
    decreases |t.recs| - s, 0, |ks|
  { if ks == [] then 0 else (if t.recs[ks[0]].dir then CountIn(t, ks[0]) else 1) + CountList(t, s, ks[1..]) }

  /** s is p or above it. */
  function Under(t: Tree, s: nat, p: nat): bool
    requires Wf(t) && p < |t.recs|
    decreases p
  { s == p || (p > 0 && Under(t, s, t.up[p])) }

  lemma {:induction false} UnderLess(t: Tree, s: nat, p: nat)
    requires Wf(t) && p < |t.recs|
    ensures Under(t, s, p) ==> s <= p
    ensures Under(t, 0, p)
    decreases p
  { if p > 0 { UnderLess(t, s, t.up[p]); } }

  lemma {:induction false} UnderDir(t: Tree, s: nat, p: nat)
    requires Wf(t) && FilesBare(t) && p < |t.recs| && t.recs[p].dir && s < |t.recs| && Under(t, s, p)
    ensures t.recs[s].dir
    decreases p
  {
    if s != p {
      assert p in t.kids[t.up[p]];
      UnderDir(t, s, t.up[p]);
    }
  }

  /** Of two nodes above p, one is above the other. */
  lemma {:induction false} UnderLinear(t: Tree, a: nat, b: nat, p: nat)
    requires Wf(t) && 0 < a < |t.recs| && 0 < b < |t.recs| && p < |t.recs| && Under(t, a, p) && Under(t, b, p)
    ensures a == b || Under(t, a, t.up[b]) || Under(t, b, t.up[a])
    decreases p
  { if a != p && b != p { UnderLinear(t, a, b, t.up[p]); } }

  /** Two children of one node are not both above p. */
  lemma OneToward(t: Tree, a: nat, b: nat, p: nat)
    requires Wf(t) && 0 < a < |t.recs| && 0 < b < |t.recs| && p < |t.recs| && t.up[a] == t.up[b] && Under(t, a, p)
      && Under(t, b, p)
    ensures a == b
  {
    UnderLinear(t, a, b, p);
    UnderLess(t, a, t.up[b]);
    UnderLess(t, b, t.up[a]);
  }

  /** The child of s on the way to p. */
  lemma {:induction false} Toward(t: Tree, s: nat, p: nat) returns (k: nat)
    requires Wf(t) && p < |t.recs| && s < |t.recs| && Under(t, s, p) && s != p
    ensures k in t.kids[s] && k < |t.recs| && Under(t, k, p)
    decreases p
  {
    if t.up[p] == s {
      k := p;
    } else {
      k := Toward(t, s, t.up[p]);
    }
  }

  function Hits(t: Tree, ks: seq<nat>, p: nat): nat
    requires Wf(t) && p < |t.recs|
  { if ks == [] then 0 else (if Under(t, ks[0], p) then 1 else 0) + Hits(t, ks[1..], p) }

  lemma {:induction false} HitsOne(t: Tree, ks: seq<nat>, p: nat, k: nat)
    requires Wf(t) && p < |t.recs| && NoDup(ks) && forall j | 0 <= j < |ks| :: Under(t, ks[j], p) <==> ks[j] == k
    ensures Hits(t, ks, p) == if k in ks then 1 else 0
  {
    if ks != [] {
      HitsOne(t, ks[1..], p, k);
      assert k in ks <==> ks[0] == k || k in ks[1..];
    }
  }

  lemma KidsHit(t: Tree, s: nat, p: nat)
    requires Wf(t) && p < |t.recs| && s < |t.recs|
    ensures Hits(t, t.kids[s], p) == if Under(t, s, p) && s != p then 1 else 0
  {
    var ks := t.kids[s];
    if Under(t, s, p) && s != p {
      var k := Toward(t, s, p);
      forall j | 0 <= j < |ks| ensures Under(t, ks[j], p) <==> ks[j] == k
        { if Under(t, ks[j], p) { OneToward(t, ks[j], k, p); } }
      HitsOne(t, ks, p, k);
    } else {
      forall j | 0 <= j < |ks| ensures !Under(t, ks[j], p) {
        UnderLess(t, ks[j], p);
        if Under(t, ks[j], p) { UnderUp(t, ks[j], p); }
      }
      HitsOne(t, ks, p, 0);
    }
  }

  lemma {:induction false} UnderUp(t: Tree, k: nat, p: nat)
    requires Wf(t) && p < |t.recs| && 0 < k < |t.recs| && Under(t, k, p)
    ensures Under(t, t.up[k], p)
    decreases p
  { if k != p { UnderUp(t, k, t.up[p]); } }

  /** A new child of a directory counts once for every directory above it. */
  lemma {:induction false} AddChildCount(t: Tree, p: nat, r: Rec, s: nat)
    requires Wf(t) && FilesBare(t) && p < |t.recs| && t.recs[p].dir && s < |t.recs|
    ensures Wf(AddChild(t, p, r))
    ensures CountIn(AddChild(t, p, r), s) == CountIn(t, s) + (if Under(t, s, p) && !r.dir then 1 else 0)
    decreases |t.recs| - s, 1, 0
  {
    AddChildWf(t, p, r);
    var t', n := AddChild(t, p, r), |t.recs|;
    AddChildList(t, p, r, s, t.kids[s]);
    KidsHit(t, s, p);
    if s == p {
      CountSnocList(t', s, t.kids[s], n);
      assert t'.kids[n] == [];
    }
  }

  lemma {:induction false} CountSnocList(t: Tree, s: nat, ks: seq<nat>, n: nat)
    requires Wf(t) && s < n < |t.recs| && forall j | 0 <= j < |ks| :: s < ks[j] < |t.recs|
    ensures CountList(t, s, ks + [n]) == CountList(t, s, ks) + (if t.recs[n].dir then CountIn(t, n) else 1)
  {
    hide Wf;
    if ks == [] {
      assert [n][1..] == [];
    } else {
      CountSnocList(t, s, ks[1..], n);
      assert (ks + [n])[1..] == ks[1..] + [n];
    }
  }

  lemma {:induction false} AddChildList(t: Tree, p: nat, r: Rec, s: nat, ks: seq<nat>)
    requires Wf(t) && FilesBare(t) && p < |t.recs| && t.recs[p].dir && s < |t.recs| && forall j | 0 <= j < |ks| ::
      s < ks[j] < |t.recs|
    ensures Wf(AddChild(t, p, r))
    ensures CountList(AddChild(t, p, r), s, ks) == CountList(t, s, ks) + (if r.dir then 0 else Hits(t, ks, p))
    decreases |t.recs| - s, 0, |ks|
  {
    hide Wf, FilesBare, CountIn;
    AddChildWf(t, p, r);
    if ks != [] {
      var k := ks[0];
      NewRecs(t, p, r);
      assert AddChild(t, p, r).recs[k] == t.recs[k];
      if t.recs[k].dir {
        AddChildCount(t, p, r, k);
      } else if Under(t, k, p) {
        UnderDir(t, k, p);
      }
      AddChildList(t, p, r, s, ks[1..]);
    }
  }

  /** The walk of _count meets every file node once. */
  ghost predicate Counted(t: Tree)
    requires Wf(t)
  { FilesBare(t) && CountIn(t, 0) == NumFiles(t) }

  lemma AddChildCounted(t: Tree, p: nat, r: Rec)
    requires Wf(t) && Counted(t) && p < |t.recs| && t.recs[p].dir
    ensures Wf(AddChild(t, p, r)) && Counted(AddChild(t, p, r))
      && NumFiles(AddChild(t, p, r)) == NumFiles(t) + (if r.dir then 0 else 1)
  {
    AddChildBare(t, p, r);
    AddChildNum(t, p, r);
    AddChildCount(t, p, r, 0);
    UnderLess(t, 0, p);
  }

  lemma {:induction false} InsertNum(t: Tree, p: nat, prefix: Path, path: Path, data: seq<byte>, rootMode: nat,
    exclude: set<Name>)
    requires Placed(t, p, prefix, path, exclude) && Counted(t)
    ensures var t' := InsertAt(t, p, path, data, rootMode, exclude);
      Counted(t') && NumFiles(t') == NumFiles(t) + (if KindAt(t, prefix + path) == Absent then 1 else 0)
    decreases |path|
  {
    hide Wf, KindAt, Clear, GoodPath, AddChild, Child, NumFiles, Counted;
    AtRoot(t, p, prefix);
    GoodFirst(path);
    if |path| == 1 {
      FileStep(t, p, prefix, path, data, rootMode, []);
      var r := Rec(path[0], false, if p == 0 then rootMode else FILE_MODE, data);
      AddChildCounted(t, p, r);
    } else {
      DirStep(t, p, prefix, path, exclude);
      Regroup(prefix, path);
      var f, c := Child(t, p, path[0]), prefix + [path[0]];
      if f.Some? {
        InsertNum(t, f.value, c, path[1..], data, rootMode, exclude);
      } else {
        var r := Rec(path[0], true, DIR_MODE, []);
        AddChildCounted(t, p, r);
        AddChildKind(t, p, prefix, r, prefix + path);
        InsertNum(AddChild(t, p, r), |t.recs|, c, path[1..], data, rootMode, exclude);
      }
    }
  }

  /** The number of distinct paths that are not excluded. */
  function Distinct(entries: seq<Entry>, exclude: set<Name>): nat {
    if entries == [] then 0
    else
      var n := |entries| - 1;
      Distinct(entries[..n], exclude) +
      (if Excluded(entries[n].path, exclude) || FirstEntry(entries[..n], exclude, entries[n].path).Some? then 0 else 1)
  }

  lemma {:induction false} BuildNum(entries: seq<Entry>, rootMode: nat, exclude: set<Name>)
    requires GoodPaths(entries) && PrefixFree(entries, exclude)
    ensures Counted(Build(entries, rootMode, exclude))
    ensures NumFiles(Build(entries, rootMode, exclude)) == Distinct(entries, exclude)
  {
    hide Wf, KindAt, InsertAt, NumFiles, Counted, GoodPath;
    if entries == [] {
      RootNum();
    } else {
      var n := |entries| - 1;
      var before, e := entries[..n], entries[n];
      assert forall j | 0 <= j < n :: before[j] == entries[j];
      var t := Build(before, rootMode, exclude);
      BuildNum(before, rootMode, exclude);
      if Excluded(e.path, exclude) {
        ExcludedStays(t, e, rootMode, exclude);
      } else {
        ReadyToInsert(entries, rootMode, exclude);
        InsertNum(t, 0, [], e.path, e.data, rootMode, exclude);
        assert [] + e.path == e.path;
        NonEmpty(e.path);
        BuildKinds(before, rootMode, exclude, e.path);
        EndIsClear(entries, exclude, rootMode);
      }
    }
  }

  lemma NonEmpty(path: Path)
    requires GoodPath(path)
    ensures path != []
  {}

  lemma ReadyToInsert(entries: seq<Entry>, rootMode: nat, exclude: set<Name>)
    requires GoodPaths(entries) && PrefixFree(entries, exclude) && entries != []
    requires !Excluded(entries[|entries| - 1].path, exclude)
    ensures Placed(Build(entries[..|entries| - 1], rootMode, exclude), 0, [], entries[|entries| - 1].path, exclude)
    decreases |entries|, 1
  {
    hide Wf, InsertAt, KindAt, GoodPath, Build;
    var n := |entries| - 1;
    var t, e := Build(entries[..n], rootMode, exclude), entries[n];
    assert GoodPath(e.path);
    forall j | 0 < j < |e.path| ensures !KindAt(t, [] + e.path[..j]).IsFile? {
      assert [] + e.path[..j] == e.path[..j];
      WayIsClear(entries, exclude, rootMode, j);
    }
    EndIsClear(entries, exclude, rootMode);
    assert [] + e.path == e.path;
    RootIsDir(t);
  }

  lemma RootNum()
    ensures Wf(Root()) && Counted(Root()) && NumFiles(Root()) == 0
  { assert FileFlags(Root()) == [false]; }

  ghost function Paths(entries: seq<Entry>, exclude: set<Name>): set<Path> {
    set j | 0 <= j < |entries| && !Excluded(entries[j].path, exclude) :: entries[j].path
  }

  lemma InPaths(entries: seq<Entry>, exclude: set<Name>, q: Path)
    ensures q in Paths(entries, exclude) <==> FirstEntry(entries, exclude, q).Some?
  {
    var f := FirstEntry(entries, exclude, q);
    if f.Some? { assert entries[f.value].path == q; }
  }

  lemma PathsSnoc(before: seq<Entry>, e: Entry, exclude: set<Name>)
    ensures Paths(before + [e], exclude) == Paths(before, exclude) + (if Excluded(e.path, exclude) then
      {} else {e.path})
  {
    hide Excluded;
    var all := before + [e];
    forall q | q in Paths(before, exclude) ensures q in Paths(all, exclude) {
      var j :| 0 <= j < |before| && !Excluded(before[j].path, exclude) && before[j].path == q;
      assert all[j] == before[j];
    }
    assert all[|before|] == e;
  }

  lemma {:induction false} DistinctIsCardinality(entries: seq<Entry>, exclude: set<Name>)
    ensures Distinct(entries, exclude) == |Paths(entries, exclude)|
  {
    hide Excluded, FirstEntry, Paths;
    if entries == [] {
      NoPaths(exclude);
    } else {
      var n := |entries| - 1;
      var before, e := entries[..n], entries[n];
      DistinctIsCardinality(before, exclude);
      assert before + [e] == entries;
      PathsSnoc(before, e, exclude);
      InPaths(before, exclude, e.path);
    }
  }

  lemma NoPaths(exclude: set<Name>)
    ensures Paths([], exclude) == {}
  {}

  /** The file count reported for the tree is the number of distinct paths. */
  lemma CountIsDistinct(entries: seq<Entry>, rootMode: nat, exclude: set<Name>)
    requires GoodPaths(entries) && PrefixFree(entries, exclude)
    ensures CountIn(Build(entries, rootMode, exclude), 0) == |Paths(entries, exclude)|
  {
    hide Wf, InsertAt, CountIn;
    BuildNum(entries, rootMode, exclude);
    DistinctIsCardinality(entries, exclude);
  }
}
