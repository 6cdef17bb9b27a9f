/**
 The chess rules library (chess.js) as an abstract oracle. The move tree
 never decides legality itself: it asks `apply` for the canonical SAN, the
 resulting FEN and the squares of a move, and records the answer. An illegal
 move, a falsy result and a thrown exception are all `None`.
 */
module Rules {
  import opened Wrappers
  import opened MoveNode

  /** What `chess.move` accepts: SAN text or a from/to descriptor. */
  datatype MoveInput =
    | San(text: string)
    | Squares(from: string, to: string, promotion: Option<string>)

  /** The part of chess.js's move result the tree keeps, plus `chess.fen()` after the move. */
  datatype MoveResult = MoveResult(san: string, fen: string, from: string, to: string)

  /**
   `apply(fen, input)` is `chess.load(fen); chess.move(input)`; `acceptsFen`
   says whether `new Chess(fen)` succeeds instead of throwing.
   */
  datatype Rules = Rules(
    apply: (string, MoveInput) -> Option<MoveResult>,
    acceptsFen: string -> bool)

  /**
   The oracle's one assumed law: replaying the SAN it returned, from the same
   position, is accepted and gives back the same move.
   */
  ghost predicate ReplayStable(rules: Rules)
  {
    forall fen, m :: ReplaysAt(rules, fen, m)
  }

  /** The replay law at one position and input. */
  ghost predicate ReplaysAt(rules: Rules, fen: string, m: MoveInput)
  {
    rules.apply(fen, m).Some? ==>
      rules.apply(fen, San(rules.apply(fen, m).value.san)) == rules.apply(fen, m)
  }

  /** `child` is the move its SAN names from position `fen`, as the oracle judges it. */
  predicate EdgeOk(rules: Rules, fen: string, child: Node)
  {
    rules.apply(fen, San(child.san)) == Some(MoveResult(child.san, child.fen, child.from, child.to))
  }

  /** Every edge of the subtree is a move the oracle accepts from the parent's position. */
  predicate Consistent(rules: Rules, n: Node)
    decreases n, 1
  {
    ConsistentAll(rules, n.fen, n.children)
  }

  /** Nodes that may all hang under a parent at position `fen`. */
  predicate ConsistentAll(rules: Rules, fen: string, cs: seq<Node>)
    decreases cs, 0
  {
    forall i :: 0 <= i < |cs| ==> EdgeOk(rules, fen, cs[i]) && Consistent(rules, cs[i])
  }

  lemma ConsistentAllConcat(rules: Rules, fen: string, a: seq<Node>, b: seq<Node>)
    requires ConsistentAll(rules, fen, a) && ConsistentAll(rules, fen, b)
    ensures ConsistentAll(rules, fen, a + b)
  {
    forall i | 0 <= i < |a + b|
      ensures EdgeOk(rules, fen, (a + b)[i]) && Consistent(rules, (a + b)[i])
    {
      if i < |a| {
        assert (a + b)[i] == a[i];
      } else {
        assert (a + b)[i] == b[i - |a|];
      }
    }
  }

  lemma ConsistentAllTail(rules: Rules, fen: string, cs: seq<Node>)
    requires |cs| > 0
    requires ConsistentAll(rules, fen, cs)
    ensures EdgeOk(rules, fen, cs[0]) && Consistent(rules, cs[0])
    ensures ConsistentAll(rules, fen, cs[1..])
  {
    assert forall i :: 0 <= i < |cs[1..]| ==> cs[1..][i] == cs[i + 1];
  }

  /** Appending an oracle-approved leaf keeps the whole tree consistent with the oracle. */
  lemma {:induction false} AppendKeepsConsistent(rules: Rules, n: Node, p: Path, c: Node)
    requires ValidPath(n, p)
    requires Consistent(rules, n)
    requires c.children == []
    requires EdgeOk(rules, NodeAt(n, p).fen, c)
    ensures Consistent(rules, AppendChildAt(n, p, c))
    decreases p
  {
    var r := AppendChildAt(n, p, c);
    if |p| == 0 {
      assert r.children == n.children + [c];
      assert Consistent(rules, c);
      ConsistentAllConcat(rules, n.fen, n.children, [c]);
    } else {
      AppendKeepsConsistent(rules, n.children[p[0]], p[1..], c);
      assert r.children == n.children[p[0] := AppendChildAt(n.children[p[0]], p[1..], c)];
    }
  }
}
