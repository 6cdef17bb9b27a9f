/**
 The depth-first lookup inside `goToNode` (src/lib/MoveTree.ts:80-95): test
 the node, then each child subtree in order, returning the first hit. The
 result is a path rather than a node reference, so the cursor can move there.
 */
module Search {
  import opened Wrappers
  import opened MoveNode

  /** `findNode(n)`: the path to the first node with id `id` in pre-order. */
  function FindPath(n: Node, id: Id): (r: Option<Path>)
    ensures r.Some? ==> ValidPath(n, r.value) && NodeAt(n, r.value).id == id
    ensures r.None? <==> id !in IdSet(n)
    decreases n, 1
  {
    if n.id == id then Some([]) else FindInChildren(n, 0, id)
  }

  /** The search over the children (src/lib/MoveTree.ts:83-86), in order, from child `i` on. */
  function FindInChildren(n: Node, i: nat, id: Id): (r: Option<Path>)
    requires i <= |n.children|
    ensures r.Some? ==> ValidPath(n, r.value) && NodeAt(n, r.value).id == id
    ensures r.None? <==> id !in IdSetAll(n.children[i..])
    decreases n, 0, |n.children| - i
  {
    if i == |n.children| then None
    else
      assert n.children[i..][1..] == n.children[i + 1..];
      match FindPath(n.children[i], id)
      case Some(p) =>
        assert ([i] + p)[1..] == p;
        Some([i] + p)
      case None => FindInChildren(n, i + 1, id)
  }

  /*--------------------------------------------------------------------
   Reference: scan the pre-order listing of all paths
   --------------------------------------------------------------------*/

  /** Every path of the subtree, in pre-order: the node, then each child's listing in turn. */
  function PreOrder(n: Node): seq<Path>
    decreases n, 1
  {
    [[]] + PreOrderFrom(n, 0)
  }

  function PreOrderFrom(n: Node, i: nat): seq<Path>
    requires i <= |n.children|
    decreases n, 0, |n.children| - i
  {
    if i == |n.children| then [] else Under(i, PreOrder(n.children[i])) + PreOrderFrom(n, i + 1)
  }

  /** Paths of child `i`'s subtree, seen from its parent. */
  function Under(i: nat, ps: seq<Path>): (r: seq<Path>)
    ensures |r| == |ps|
    ensures forall k :: 0 <= k < |ps| ==> r[k] == [i] + ps[k]
  {
    seq(|ps|, k requires 0 <= k < |ps| => [i] + ps[k])
  }

  predicate HasId(n: Node, p: Path, id: Id)
  {
    ValidPath(n, p) && NodeAt(n, p).id == id
  }

  /** Linear scan: the first path of `ps` that leads to a node with id `id`. */
  function FirstWithId(n: Node, ps: seq<Path>, id: Id): Option<Path>
  {
    if |ps| == 0 then None
    else if HasId(n, ps[0], id) then Some(ps[0])
    else FirstWithId(n, ps[1..], id)
  }

  lemma {:induction false} FirstWithIdConcat(n: Node, ps: seq<Path>, qs: seq<Path>, id: Id)
    ensures FirstWithId(n, ps + qs, id)
            == if FirstWithId(n, ps, id).Some? then FirstWithId(n, ps, id) else FirstWithId(n, qs, id)
    decreases ps
  {
    if |ps| == 0 {
      assert ps + qs == qs;
    } else {
      assert (ps + qs)[0] == ps[0] && (ps + qs)[1..] == ps[1..] + qs;
      FirstWithIdConcat(n, ps[1..], qs, id);
    }
  }

  /** Scanning a child's listing from the parent finds the child's answer, one level down. */
  lemma {:induction false} FirstWithIdUnder(n: Node, i: nat, ps: seq<Path>, id: Id)
    requires i < |n.children|
    ensures FirstWithId(n, Under(i, ps), id)
            == match FirstWithId(n.children[i], ps, id)
               case None => None
               case Some(p) => Some([i] + p)
    decreases ps
  {
    if |ps| > 0 {
      var u := Under(i, ps);
      assert u[0] == [i] + ps[0];
      assert ([i] + ps[0])[1..] == ps[0];
      assert HasId(n, u[0], id) == HasId(n.children[i], ps[0], id);
      assert u[1..] == Under(i, ps[1..]);
      FirstWithIdUnder(n, i, ps[1..], id);
    }
  }

  /** The recursive search returns exactly the first pre-order path whose node has the id. */
  lemma {:induction false} FindPathIsFirstInPreOrder(n: Node, id: Id)
    ensures FindPath(n, id) == FirstWithId(n, PreOrder(n), id)
    decreases n, 1
  {
    var ps := PreOrder(n);
    assert ps[0] == [] && ps[1..] == PreOrderFrom(n, 0);
    assert HasId(n, [], id) == (n.id == id);
    if n.id != id {
      FindInChildrenIsFirst(n, 0, id);
    }
  }

  lemma {:induction false} FindInChildrenIsFirst(n: Node, i: nat, id: Id)
    requires i <= |n.children|
    ensures FindInChildren(n, i, id) == FirstWithId(n, PreOrderFrom(n, i), id)
    decreases n, 0, |n.children| - i
  {
    if i < |n.children| {
      var c := n.children[i];
      FirstWithIdConcat(n, Under(i, PreOrder(c)), PreOrderFrom(n, i + 1), id);
      FirstWithIdUnder(n, i, PreOrder(c), id);
      FindPathIsFirstInPreOrder(c, id);
      FindInChildrenIsFirst(n, i + 1, id);
    }
  }
}
