/**
 The node record of the move tree and the structural vocabulary shared by
 every operation: paths from the root, subtree size, the set of ids, and the
 append-only growth relation between an old and a new version of a tree.

 A node owns its children by value, so the tree is a strict rooted tree by
 construction: no sharing, no cycles, and the root is the only node without a
 parent. A parent link is replaced by the path of child indices that leads
 to a node.
 */
module MoveNode {
  import opened Wrappers

  type Id = nat

  /** Child indices from the root; `[]` is the root itself. */
  type Path = seq<nat>

  /** Sentinel SAN and squares of the synthetic root node. */
  const StartSan: string := "start"
  const RootSquare: string := "a0"

  datatype Node = Node(
    id: Id,
    san: string,
    fen: string,
    from: string,
    to: string,
    comment: Option<string>,
    nags: Option<seq<nat>>,
    children: seq<Node>)

  /** A node as `createNode` makes it: no comment, no nags, no children. */
  function NewNode(id: Id, san: string, fen: string, from: string, to: string): Node
  {
    Node(id, san, fen, from, to, None, None, [])
  }

  /** The root node for a starting position. */
  function StartNode(id: Id, fen: string): Node
  {
    NewNode(id, StartSan, fen, RootSquare, RootSquare)
  }

  predicate IsStartNode(n: Node)
  {
    n.san == StartSan && n.from == RootSquare && n.to == RootSquare
    && n.comment == None && n.nags == None
  }

  /*--------------------------------------------------------------------
   Paths
   --------------------------------------------------------------------*/

  predicate ValidPath(n: Node, p: Path)
    decreases p
  {
    |p| == 0 || (p[0] < |n.children| && ValidPath(n.children[p[0]], p[1..]))
  }

  function NodeAt(n: Node, p: Path): Node
    requires ValidPath(n, p)
    decreases p
  {
    if |p| == 0 then n else NodeAt(n.children[p[0]], p[1..])
  }

  /** Extending a valid path by one existing child index stays valid and lands on that child. */
  lemma {:induction false} PathExtend(n: Node, p: Path, i: nat)
    requires ValidPath(n, p)
    requires i < |NodeAt(n, p).children|
    ensures ValidPath(n, p + [i])
    ensures NodeAt(n, p + [i]) == NodeAt(n, p).children[i]
    decreases p
  {
    if |p| > 0 {
      assert (p + [i])[1..] == p[1..] + [i];
      PathExtend(n.children[p[0]], p[1..], i);
    }
  }

  /** Every prefix of a valid path is valid, and the last step is a child step. */
  lemma {:induction false} PathPrefix(n: Node, p: Path, k: nat)
    requires ValidPath(n, p)
    requires k <= |p|
    ensures ValidPath(n, p[..k])
    ensures k < |p| ==> p[k] < |NodeAt(n, p[..k]).children|
    ensures k < |p| ==> ValidPath(n, p[..k + 1])
                        && NodeAt(n, p[..k + 1]) == NodeAt(n, p[..k]).children[p[k]]
    decreases p
  {
    if k > 0 {
      assert p[..k][1..] == p[1..][..k - 1];
      if k < |p| {
        assert p[..k + 1][1..] == p[1..][..k];
      }
      PathPrefix(n.children[p[0]], p[1..], k - 1);
    }
  }

  /*--------------------------------------------------------------------
   Size and ids
   --------------------------------------------------------------------*/

  /** Number of nodes in the subtree. */
  function Size(n: Node): nat
    decreases n, 1
  {
    1 + SizeAll(n.children)
  }

  function SizeAll(cs: seq<Node>): nat
    decreases cs, 0
  {
    if |cs| == 0 then 0 else Size(cs[0]) + SizeAll(cs[1..])
  }

  /** Ids of every node of the subtree. */
  function IdSet(n: Node): set<Id>
    decreases n, 1
  {
    {n.id} + IdSetAll(n.children)
  }

  function IdSetAll(cs: seq<Node>): set<Id>
    decreases cs, 0
  {
    if |cs| == 0 then {} else IdSet(cs[0]) + IdSetAll(cs[1..])
  }

  /** Every node of the subtree has its own id: there are as many ids as nodes. */
  predicate UniqueIds(n: Node)
  {
    |IdSet(n)| == Size(n)
  }

  predicate IdsBelow(n: Node, bound: Id)
  {
    forall x :: x in IdSet(n) ==> x < bound
  }

  lemma {:induction false} SizeAllConcat(a: seq<Node>, b: seq<Node>)
    ensures SizeAll(a + b) == SizeAll(a) + SizeAll(b)
    decreases a
  {
    if |a| == 0 {
      assert a + b == b;
    } else {
      assert (a + b)[1..] == a[1..] + b;
      SizeAllConcat(a[1..], b);
    }
  }

  lemma {:induction false} IdSetAllConcat(a: seq<Node>, b: seq<Node>)
    ensures IdSetAll(a + b) == IdSetAll(a) + IdSetAll(b)
    decreases a
  {
    if |a| == 0 {
      assert a + b == b;
    } else {
      assert (a + b)[1..] == a[1..] + b;
      IdSetAllConcat(a[1..], b);
    }
  }

  lemma SizeAllSingle(c: Node)
    ensures SizeAll([c]) == Size(c)
    ensures IdSetAll([c]) == IdSet(c)
  {
    assert [c][1..] == [];
  }

  /** Replacing one child changes the counts by the difference of the two subtrees. */
  lemma UpdateChild(cs: seq<Node>, i: nat, x: Node)
    requires i < |cs|
    ensures SizeAll(cs[i := x]) + Size(cs[i]) == SizeAll(cs) + Size(x)
    ensures IdSetAll(cs[i := x]) == IdSetAll(cs[..i]) + IdSet(x) + IdSetAll(cs[i + 1..])
    ensures IdSetAll(cs) == IdSetAll(cs[..i]) + IdSet(cs[i]) + IdSetAll(cs[i + 1..])
  {
    assert cs == cs[..i] + [cs[i]] + cs[i + 1..];
    assert cs[i := x] == cs[..i] + [x] + cs[i + 1..];
    SizeAllConcat(cs[..i] + [cs[i]], cs[i + 1..]);
    SizeAllConcat(cs[..i], [cs[i]]);
    SizeAllConcat(cs[..i] + [x], cs[i + 1..]);
    SizeAllConcat(cs[..i], [x]);
    IdSetAllConcat(cs[..i] + [cs[i]], cs[i + 1..]);
    IdSetAllConcat(cs[..i], [cs[i]]);
    IdSetAllConcat(cs[..i] + [x], cs[i + 1..]);
    IdSetAllConcat(cs[..i], [x]);
    SizeAllSingle(cs[i]);
    SizeAllSingle(x);
  }

  /** A node's own subtree ids include every descendant's id. */
  lemma {:induction false} IdAtPath(n: Node, p: Path)
    requires ValidPath(n, p)
    ensures NodeAt(n, p).id in IdSet(n)
    decreases p
  {
    if |p| > 0 {
      var c := n.children[p[0]];
      IdAtPath(c, p[1..]);
      UpdateChild(n.children, p[0], c);
    }
  }

  /*--------------------------------------------------------------------
   Sibling SANs and append-only growth
   --------------------------------------------------------------------*/

  /** No two children of one node carry the same SAN, anywhere in the subtree. */
  predicate DistinctSans(n: Node)
  {
    && (forall i, j :: 0 <= i < j < |n.children| ==> n.children[i].san != n.children[j].san)
    && (forall i :: 0 <= i < |n.children| ==> DistinctSans(n.children[i]))
  }

  /**
   `b` is `a` grown by appending: every node of `a` is still in `b` at the same
   place, with the same id, move data, comment and nags, and its old children
   are a prefix of its new children.
   */
  predicate Extends(a: Node, b: Node)
  {
    && a.id == b.id && a.san == b.san && a.fen == b.fen
    && a.from == b.from && a.to == b.to
    && a.comment == b.comment && a.nags == b.nags
    && |a.children| <= |b.children|
    && (forall i :: 0 <= i < |a.children| ==> Extends(a.children[i], b.children[i]))
  }

  lemma {:induction false} ExtendsRefl(a: Node)
    ensures Extends(a, a)
    decreases a
  {
    forall i | 0 <= i < |a.children| {
      ExtendsRefl(a.children[i]);
    }
  }

  lemma {:induction false} ExtendsTrans(a: Node, b: Node, c: Node)
    requires Extends(a, b) && Extends(b, c)
    ensures Extends(a, c)
    decreases a
  {
    forall i | 0 <= i < |a.children| ensures Extends(a.children[i], c.children[i]) {
      ExtendsTrans(a.children[i], b.children[i], c.children[i]);
    }
  }

  /** Growth keeps every old path valid and the node there recognisably the same. */
  lemma {:induction false} ExtendsKeepsPath(a: Node, b: Node, p: Path)
    requires Extends(a, b)
    requires ValidPath(a, p)
    ensures ValidPath(b, p)
    ensures Extends(NodeAt(a, p), NodeAt(b, p))
    decreases p
  {
    if |p| > 0 {
      ExtendsKeepsPath(a.children[p[0]], b.children[p[0]], p[1..]);
    }
  }

  /** `a` and `b` record the same moves: equal at every node except for ids. */
  predicate SameMoves(a: Node, b: Node)
    decreases a, 1
  {
    && a.san == b.san && a.fen == b.fen && a.from == b.from && a.to == b.to
    && a.comment == b.comment && a.nags == b.nags
    && SameMovesAll(a.children, b.children)
  }

  predicate SameMovesAll(xs: seq<Node>, ys: seq<Node>)
    decreases xs, 0
  {
    |xs| == |ys| && forall i :: 0 <= i < |xs| ==> SameMoves(xs[i], ys[i])
  }

  lemma SameMovesAllConcat(xs: seq<Node>, ys: seq<Node>, xs': seq<Node>, ys': seq<Node>)
    requires SameMovesAll(xs, ys) && SameMovesAll(xs', ys')
    ensures SameMovesAll(xs + xs', ys + ys')
  {
    forall i | 0 <= i < |xs + xs'| ensures SameMoves((xs + xs')[i], (ys + ys')[i]) {
      if i < |xs| {
        assert (xs + xs')[i] == xs[i] && (ys + ys')[i] == ys[i];
      } else {
        assert (xs + xs')[i] == xs'[i - |xs|] && (ys + ys')[i] == ys'[i - |xs|];
      }
    }
  }

  /**
   Appends `c` as the last child of the node at `p`. This is the only way the
   tree ever changes: `children.push` in the source.
   */
  function AppendChildAt(n: Node, p: Path, c: Node): (r: Node)
    requires ValidPath(n, p)
    ensures ValidPath(r, p)
    ensures NodeAt(r, p) == NodeAt(n, p).(children := NodeAt(n, p).children + [c])
    ensures Extends(n, r)
    ensures Size(r) == Size(n) + Size(c)
    ensures IdSet(r) == IdSet(n) + IdSet(c)
    decreases p
  {
    if |p| == 0 then
      var r := n.(children := n.children + [c]);
      SizeAllConcat(n.children, [c]);
      IdSetAllConcat(n.children, [c]);
      SizeAllSingle(c);
      forall i | 0 <= i < |n.children| ensures Extends(n.children[i], r.children[i]) {
        ExtendsRefl(n.children[i]);
      }
      r
    else
      var i := p[0];
      var x := AppendChildAt(n.children[i], p[1..], c);
      var r := n.(children := n.children[i := x]);
      UpdateChild(n.children, i, x);
      forall k | 0 <= k < |n.children| ensures Extends(n.children[k], r.children[k]) {
        if k != i { ExtendsRefl(n.children[k]); }
      }
      r
  }

  /** Appending a leaf whose SAN is new among its siblings keeps sibling SANs distinct. */
  lemma {:induction false} AppendKeepsDistinctSans(n: Node, p: Path, c: Node)
    requires ValidPath(n, p)
    requires DistinctSans(n)
    requires DistinctSans(c)
    requires forall i :: 0 <= i < |NodeAt(n, p).children| ==> NodeAt(n, p).children[i].san != c.san
    ensures DistinctSans(AppendChildAt(n, p, c))
    decreases p
  {
    var r := AppendChildAt(n, p, c);
    if |p| == 0 {
      assert r.children == n.children + [c];
      forall i | 0 <= i < |r.children| ensures DistinctSans(r.children[i]) {
        if i < |n.children| { assert r.children[i] == n.children[i]; }
      }
    } else {
      AppendKeepsDistinctSans(n.children[p[0]], p[1..], c);
      assert r.children == n.children[p[0] := AppendChildAt(n.children[p[0]], p[1..], c)];
    }
  }

  /** No node of the subtree carries a comment or NAGs. */
  predicate Unannotated(n: Node)
  {
    && n.comment.None? && n.nags.None?
    && forall i :: 0 <= i < |n.children| ==> Unannotated(n.children[i])
  }

  /** Appending an unannotated subtree keeps the whole tree unannotated. */
  lemma {:induction false} AppendKeepsUnannotated(n: Node, p: Path, c: Node)
    requires ValidPath(n, p)
    requires Unannotated(n) && Unannotated(c)
    ensures Unannotated(AppendChildAt(n, p, c))
    decreases p
  {
    var r := AppendChildAt(n, p, c);
    if |p| == 0 {
      assert r.children == n.children + [c];
      forall i | 0 <= i < |r.children| ensures Unannotated(r.children[i]) {
        if i < |n.children| { assert r.children[i] == n.children[i]; }
      }
    } else {
      AppendKeepsUnannotated(n.children[p[0]], p[1..], c);
      assert r.children == n.children[p[0] := AppendChildAt(n.children[p[0]], p[1..], c)];
    }
  }

  /*--------------------------------------------------------------------
   The mainline below a node: the `children[0]` chain
   --------------------------------------------------------------------*/

  /** Number of `children[0]` steps below `n`. */
  function MainDepth(n: Node): nat
  {
    if |n.children| == 0 then 0 else 1 + MainDepth(n.children[0])
  }

  /** The node `k` mainline steps below `n`. */
  function MainNode(n: Node, k: nat): Node
    requires k <= MainDepth(n)
  {
    if k == 0 then n else MainNode(n.children[0], k - 1)
  }
}
