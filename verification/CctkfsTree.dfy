/** The synthesized directory tree as linked nodes: every node has a next sibling and a first
    child, named by their place in the node heap (-1 is the null pointer). Nodes are only ever
    added. The links are those of a `TreeIndex` value, whose properties are proved there. */
module CctkfsTree {
  import opened Common
  import opened TreeIndex

  const SLASH: byte := 47

  datatype Node = Node(rec: Rec, child: int, next: int)

  function LinkAt(ks: seq<nat>, j: nat): int { if j < |ks| then ks[j] else -1 }

  ghost predicate LinkedAt(nodes: seq<Node>, t: Tree, p: nat)
    requires Wf(t) && |nodes| == |t.recs| && p < |nodes|
  {
    && nodes[p].rec == t.recs[p] && nodes[p].child == LinkAt(t.kids[p], 0)
    && forall j {:trigger nodes[t.kids[p][j]]} | 0 <= j < |t.kids[p]| ::
      nodes[t.kids[p][j]].next == LinkAt(t.kids[p], j + 1)
  }

  ghost predicate Linked(nodes: seq<Node>, t: Tree) {
    Wf(t) && |nodes| == |t.recs| && forall p: nat | p < |nodes| :: LinkedAt(nodes, t, p)
  }

  // ---------------------------------------------------------------- paths as strings

  /** The components of a relative path. */
  function Split(s: seq<byte>): (r: Path)
    ensures |r| >= 1
    decreases |s|
  {
    var k := SlashFrom(s, 0);
    if k == |s| then [s] else [s[..k]] + Split(s[k + 1..])
  }

  function SlashFrom(s: seq<byte>, i: nat): (k: nat)
    requires i <= |s|
    ensures i <= k <= |s|
    decreases |s| - i
  { if i == |s| || s[i] == SLASH then i else SlashFrom(s, i + 1) }

  lemma {:induction false} SlashAt(s: seq<byte>, i: nat, k: nat)
    requires i <= k <= |s| && (k == |s| || s[k] == SLASH) && forall j | i <= j < k :: s[j] != SLASH
    ensures SlashFrom(s, i) == k
    decreases k - i
  { if i < k { SlashAt(s, i + 1, k); } }

  /** A file the archive offers: its full path and payload; None is an entry that is refused. */
  type Offer = Option<(seq<byte>, seq<byte>)>

  /** The entries below the prefix, in archive order. */
  function Offered(items: seq<Offer>, prefix: seq<byte>): seq<Entry> {
    if items == [] then []
    else
      var n := |items| - 1;
      var rest := Offered(items[..n], prefix);
      if items[n].Some? && prefix <= items[n].value.0 then
        rest + [Entry(Split(items[n].value.0[|prefix|..]), items[n].value.1)]
      else rest
  }

  // ---------------------------------------------------------------- the linked tree

  class Synth {
    var nodes: seq<Node>
    var built: bool
    const rootMode: nat
    const exclude: set<Name>
    ghost var tree: Tree

    ghost predicate Valid()
      reads this
    { built ==> Linked(nodes, tree) }

    constructor (mode: nat, excluded: set<Name>)
      ensures Valid() && !built && rootMode == mode && exclude == excluded
    { nodes, built, rootMode, exclude, tree := [], false, mode, excluded, Root(); }

    /** _find, and _list_walk on a list of children. */
    method Find(p: nat, name: Name) returns (r: int)
      requires Linked(nodes, tree) && p < |nodes|
      ensures r == match Child(tree, p, name) case Some(k) => k case None => -1
    {
      hide Wf;
      Kids(p);
      ghost var ks, j := tree.kids[p], 0;
      var c := nodes[p].child;
      assert ks[0..] == ks;
      while c >= 0
        invariant 0 <= j <= |ks| && c == LinkAt(ks, j)
        invariant FindIn(tree, ks, name) == FindIn(tree, ks[j..], name)
        decreases |ks| - j
      {
        Sibling(p, j);
        if nodes[c].rec.name == name { ChildIs(p, name); return c; }
        assert ks[j..][1..] == ks[j + 1..];
        c := nodes[c].next;
        j := j + 1;
      }
      ChildIs(p, name);
      return -1;
    }

    lemma Kids(p: nat)
      requires Linked(nodes, tree) && p < |nodes|
      ensures |tree.kids| == |tree.recs| && nodes[p].child == LinkAt(tree.kids[p], 0)
      ensures forall j | 0 <= j < |tree.kids[p]| :: tree.kids[p][j] < |tree.recs|
    { assert LinkedAt(nodes, tree, p); }

    lemma Sibling(p: nat, j: nat)
      requires Linked(nodes, tree) && p < |nodes| && |tree.kids| == |nodes| && j < |tree.kids[p]|
      ensures var k := tree.kids[p][j];
        k < |nodes| && nodes[k].rec == tree.recs[k] && nodes[k].next == LinkAt(tree.kids[p], j + 1)
    {
      assert LinkedAt(nodes, tree, p);
      assert LinkedAt(nodes, tree, tree.kids[p][j]);
    }

    lemma ChildIs(p: nat, name: Name)
      requires Wf(tree) && p < |tree.recs|
      ensures |tree.kids| == |tree.recs| && (forall j | 0 <= j < |tree.kids[p]| :: tree.kids[p][j] < |tree.recs|)
      ensures Child(tree, p, name) == FindIn(tree, tree.kids[p], name)
    {}

    /** _append of a new node to the children of p: walk to the last sibling and link it. */
    method Append(p: nat, r: Rec) returns (n: nat)
      requires Linked(nodes, tree) && p < |nodes|
      modifies this`nodes, this`tree
      ensures Linked(nodes, tree) && n == |old(nodes)| && tree == AddChild(old(tree), p, r)
    {
      hide Wf, LinkedAt, AddChild;
      AddChildWf(tree, p, r);
      Kids(p);
      n := |nodes|;
      ghost var ks, before := tree.kids[p], nodes;
      nodes := nodes + [Node(r, -1, -1)];
      if nodes[p].child < 0 {
        nodes := nodes[p := nodes[p].(child := n)];
        tree := AddChild(tree, p, r);
        AppendFirst(before, nodes, old(tree), p, r);
        return;
      }
      var t: nat := nodes[p].child;
      ghost var j := 0;
      Sibling0(before, old(tree), p, 0);
      while nodes[t].next >= 0
        modifies {}
        invariant 0 <= j < |ks| && t == ks[j] && t < |before| && nodes == before + [Node(r, -1, -1)]
        invariant nodes[t].next == LinkAt(ks, j + 1)
        decreases |ks| - j
      {
        t := nodes[t].next;
        j := j + 1;
        Sibling0(before, old(tree), p, j);
      }
      nodes := nodes[t := nodes[t].(next := n)];
      tree := AddChild(tree, p, r);
      AppendLast(before, nodes, old(tree), p, r, t);
    }

    /** _insert: the components are cut out of the string one by one. */
    method Insert(rel: seq<byte>, data: seq<byte>)
      requires Linked(nodes, tree)
      modifies this`nodes, this`tree
      ensures Linked(nodes, tree) && tree == InsertAt(old(tree), 0, Split(rel), data, rootMode, exclude)
    {
      hide Wf, LinkedAt, AddChild, Child, InsertAt, Split, Stored;
      RootThere(tree);
      ghost var goal := InsertAt(tree, 0, Split(rel), data, rootMode, exclude);
      var headOf: nat, p := 0, 0;
      assert rel[0..] == rel;
      while true
        invariant 0 <= p <= |rel| && Linked(nodes, tree) && headOf < |nodes|
        invariant InsertAt(tree, headOf, Split(rel[p..]), data, rootMode, exclude) == goal
        decreases |rel| - p
      {
        var slash := p;
        while slash < |rel| && rel[slash] != SLASH
          modifies {}
          invariant p <= slash <= |rel| && forall j | p <= j < slash :: rel[j] != SLASH
        { slash := slash + 1; }
        SplitAt(rel, p, slash);
        var name := rel[p..slash];
        ghost var rest := if slash == |rel| then [] else Split(rel[slash + 1..]);
        assert [name] == [name] + [];
        InsertTurn(tree, headOf, name, rest, data, rootMode, exclude);
        if slash - p <= 0 { return; }
        var found := Find(headOf, name);
        if slash == |rel| {
          if found >= 0 { return; }
          var _ := Append(headOf, Rec(Stored(name), false, if headOf == 0 then rootMode else FILE_MODE, data));
          return;
        }
        if headOf == 0 && name in exclude { return; }
        if found < 0 { headOf := Append(headOf, Rec(Stored(name), true, DIR_MODE, [])); } else { headOf := found; }
        p := slash + 1;
      }
    }

    /** cctkfs_tree_build, once: every offered path below the prefix is inserted. */
    method Build(items: seq<Offer>, prefix: seq<byte>)
      requires Valid()
      modifies this
      ensures Valid() && built
      ensures if old(built) then nodes == old(nodes) && tree == old(tree)
              else tree == TreeIndex.Build(Offered(items, prefix), rootMode, exclude)
    {
      hide InsertAt, Split, LinkedAt, Wf, Offered, TreeIndex.Build, Root;
      if built { return; }
      nodes := [Node(Rec([], true, DIR_MODE, []), -1, -1)];
      tree, built := Root(), true;
      RootLinked(nodes);
      BuildNone(prefix, rootMode, exclude);
      var i := 0;
      assert items[..0] == [];
      while i < |items|
        invariant 0 <= i <= |items| && built && Linked(nodes, tree)
        invariant tree == TreeIndex.Build(Offered(items[..i], prefix), rootMode, exclude)
      {
        BuildSnoc(items, i, prefix, rootMode, exclude);
        if items[i].Some? && prefix <= items[i].value.0 {
          Insert(items[i].value.0[|prefix|..], items[i].value.1);
        }
        i := i + 1;
      }
      assert items[..|items|] == items;
    }

    /** Walking a path: one _list_walk per component, and only directories have a walk. */
    method Walk(q: Path) returns (r: int)
      requires Linked(nodes, tree)
      ensures r == match Resolve(tree, 0, q) case Some(n) => n case None => -1
    {
      hide LinkedAt, Child;
      var n: nat, i := 0, 0;
      assert q[0..] == q;
      while i < |q|
        invariant 0 <= i <= |q| && n < |nodes| && Resolve(tree, n, q[i..]) == Resolve(tree, 0, q)
      {
        RecIs(n);
        if !nodes[n].rec.dir { return -1; }
        assert q[i..][1..] == q[i + 1..];
        var k := Find(n, q[i]);
        if k < 0 { return -1; }
        n := k;
        i := i + 1;
      }
      return n;
    }

    lemma RecIs(n: nat)
      requires Linked(nodes, tree) && n < |nodes|
      ensures nodes[n].rec == tree.recs[n]
    { assert LinkedAt(nodes, tree, n); }

    /** _count over the children of s. */
    method CountFiles(s: nat) returns (files: nat)
      requires Linked(nodes, tree) && s < |nodes|
      ensures files == CountIn(tree, s)
      decreases |nodes| - s
    {
      hide LinkedAt, Wf;
      Kids(s);
      KidsAbove(s);
      ghost var ks, j := tree.kids[s], 0;
      var c := nodes[s].child;
      files := 0;
      assert ks[0..] == ks;
      while c >= 0
        invariant 0 <= j <= |ks| && c == LinkAt(ks, j)
        invariant files + CountList(tree, s, ks[j..]) == CountList(tree, s, ks)
        decreases |ks| - j
      {
        Sibling(s, j);
        assert ks[j..][1..] == ks[j + 1..];
        if nodes[c].rec.dir {
          var below := CountFiles(c);
          files := files + below;
        } else {
          files := files + 1;
        }
        c := nodes[c].next;
        j := j + 1;
      }
    }

    lemma KidsAbove(s: nat)
      requires Wf(tree) && s < |tree.recs|
      ensures |tree.kids| == |tree.recs| && forall j | 0 <= j < |tree.kids[s]| :: s < tree.kids[s][j] < |tree.recs|
    {}
  }

  // ---------------------------------------------------------------- links of the grown tree

  lemma Sibling0(nodes: seq<Node>, t: Tree, p: nat, j: nat)
    requires Linked(nodes, t) && p < |nodes| && |t.kids| == |nodes| && j < |t.kids[p]|
    ensures var k := t.kids[p][j]; k < |nodes| && nodes[k].rec == t.recs[k] && nodes[k].next == LinkAt(t.kids[p], j + 1)
  {
    assert LinkedAt(nodes, t, p);
    assert LinkedAt(nodes, t, t.kids[p][j]);
  }

  lemma AppendFirst(before: seq<Node>, after: seq<Node>, t: Tree, p: nat, r: Rec)
    requires Linked(before, t) && p < |before| && before[p].child < 0
    requires after == (before + [Node(r, -1, -1)])[p := before[p].(child := |before|)]
    ensures Linked(after, AddChild(t, p, r))
  {
    AddChildWf(t, p, r);
    var t' := AddChild(t, p, r);
    assert LinkedAt(before, t, p);
    assert t'.kids[p] == [|before|];
    forall q: nat | q < |after| ensures LinkedAt(after, t', q) {
      if q < |before| { assert LinkedAt(before, t, q); }
    }
  }

  lemma AppendLast(before: seq<Node>, after: seq<Node>, t: Tree, p: nat, r: Rec, last: nat)
    requires Linked(before, t) && p < |before| && |t.kids| == |before| && t.kids[p] != []
      && last == t.kids[p][|t.kids[p]| - 1] < |before|
    requires after == (before + [Node(r, -1, -1)])[last := before[last].(next := |before|)]
    ensures Linked(after, AddChild(t, p, r))
  {
    AddChildWf(t, p, r);
    var t' := AddChild(t, p, r);
    forall q: nat | q < |after| ensures LinkedAt(after, t', q) {
      if q < |before| { AppendLastAt(before, after, t, p, r, last, q); }
    }
  }

  lemma AppendLastAt(before: seq<Node>, after: seq<Node>, t: Tree, p: nat, r: Rec, last: nat, q: nat)
    requires Linked(before, t) && p < |before| && q < |before| && |t.kids| == |before| && t.kids[p] != []
      && last == t.kids[p][|t.kids[p]| - 1] < |before|
    requires after == (before + [Node(r, -1, -1)])[last := before[last].(next := |before|)]
    requires Wf(AddChild(t, p, r))
    ensures LinkedAt(after, AddChild(t, p, r), q)
  {
    var t', ks := AddChild(t, p, r), t.kids[q];
    assert LinkedAt(before, t, q);
    forall j | 0 <= j < |t'.kids[q]| ensures after[t'.kids[q][j]].next == LinkAt(t'.kids[q], j + 1) {
      if j < |ks| {
        assert before[ks[j]].next == LinkAt(ks, j + 1);
        assert t.up[ks[j]] == q && t.up[last] == p;
      }
    }
  }

  lemma RootThere(t: Tree)
    requires Wf(t)
    ensures |t.recs| > 0
  {}

  lemma RootLinked(nodes: seq<Node>)
    requires nodes == [Node(Rec([], true, DIR_MODE, []), -1, -1)]
    ensures Linked(nodes, Root())
  { assert LinkedAt(nodes, Root(), 0); }

  lemma SplitAt(rel: seq<byte>, p: nat, slash: nat)
    requires p <= slash <= |rel| && (slash == |rel| || rel[slash] == SLASH) && forall j | p <= j < slash ::
      rel[j] != SLASH
    ensures Split(rel[p..]) == if slash == |rel| then [rel[p..slash]] else [rel[p..slash]] + Split(rel[slash + 1..])
  {
    var s := rel[p..];
    SlashAt(s, 0, slash - p);
    assert s[..slash - p] == rel[p..slash];
    if slash < |rel| { assert s[slash - p + 1..] == rel[slash + 1..]; } else { assert s == rel[p..slash]; }
  }

  /** One turn of the insertion loop. */
  lemma InsertTurn(t: Tree, p: nat, name: Name, rest: Path, data: seq<byte>, rootMode: nat, exclude: set<Name>)
    requires Wf(t) && p < |t.recs|
    ensures var dir, file := Rec(Stored(name), true, DIR_MODE, []), Rec(Stored(name), false, if p == 0 then rootMode
      else FILE_MODE, data);
      && Wf(AddChild(t, p, dir)) && |AddChild(t, p, dir).recs| == |t.recs| + 1
      && InsertAt(t, p, [name] + rest, data, rootMode, exclude) ==
         if name == [] then t
         else if rest == [] then (if Child(t, p, name).Some? then t else AddChild(t, p, file))
         else if p == 0 && name in exclude then t
         else match Child(t, p, name)
              case Some(d) => InsertAt(t, d, rest, data, rootMode, exclude)
              case None => InsertAt(AddChild(t, p, dir), |t.recs|, rest, data, rootMode, exclude)
  {
    hide Wf, Child;
    var dir := Rec(Stored(name), true, DIR_MODE, []);
    AddChildWf(t, p, dir);
    assert ([name] + rest)[1..] == rest;
  }

  lemma BuildNone(prefix: seq<byte>, rootMode: nat, exclude: set<Name>)
    ensures TreeIndex.Build(Offered([], prefix), rootMode, exclude) == Root()
  {}

  /** One more item is one more insertion, or none. */
  lemma BuildSnoc(items: seq<Offer>, i: nat, prefix: seq<byte>, rootMode: nat, exclude: set<Name>)
    requires i < |items|
    ensures var t, t' := TreeIndex.Build(Offered(items[..i], prefix), rootMode, exclude),
      TreeIndex.Build(Offered(items[..i + 1], prefix), rootMode, exclude);
      && Wf(t) && |t.recs| > 0
      && t' == if items[i].Some? && prefix <= items[i].value.0
               then InsertAt(t, 0, Split(items[i].value.0[|prefix|..]), items[i].value.1, rootMode, exclude) else t
  {
    hide InsertAt, Split;
    assert items[..i + 1][..i] == items[..i];
    var rest, all := Offered(items[..i], prefix), Offered(items[..i + 1], prefix);
    if items[i].Some? && prefix <= items[i].value.0 {
      assert all[..|all| - 1] == rest;
    }
  }
}
