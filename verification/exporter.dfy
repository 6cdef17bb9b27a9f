/**
 The PGN exporter: `buildPgnMoves` (src/lib/MoveTree.ts:173-188).

 `children[0]` of a node is its mainline continuation and becomes the next
 entry of the move list; `children[1..]` become the variations of that entry.
 As written, the source exports variation `i` as `buildPgnMoves(children[i])`,
 which starts from the children OF `children[i]`: the first move of every
 variation is lost. `BuildPgnMoves` models that code; `ExportMoves` is the
 corrected exporter, whose variations start with the variation's own move.
 */
module Exporter {
  import opened Wrappers
  import opened MoveNode
  import opened Pgn

  /** The move-list entry for node `c`, with the given variations. */
  function EntryOf(c: Node, vs: seq<Line>): PgnMove
  {
    PgnMove(c.san, c.comment, c.nags, vs)
  }

  /*--------------------------------------------------------------------
   As written
   --------------------------------------------------------------------*/

  /** `buildPgnMoves(n)` exactly as the source computes it. */
  function BuildPgnMoves(n: Node): (r: seq<PgnMove>)
    ensures |r| == MainDepth(n)
    ensures forall k :: 0 <= k < |r| ==>
              && r[k].notation == MainNode(n, k + 1).san
              && r[k].comment == MainNode(n, k + 1).comment
              && r[k].nags == MainNode(n, k + 1).nags
              && |r[k].variations| + 1 == |MainNode(n, k).children|
    decreases n, 1
  {
    if |n.children| == 0 then []
    else
      var rest := BuildPgnMoves(n.children[0]);
      assert forall k :: 1 <= k <= MainDepth(n) ==> MainNode(n, k) == MainNode(n.children[0], k - 1);
      var r := [EntryOf(n.children[0], VariationsAsWritten(n.children[1..]))] + rest;
      assert forall k :: 1 <= k < |r| ==> r[k] == rest[k - 1];
      r
  }

  /** One variation per child, each exported from that child's own children. */
  function VariationsAsWritten(cs: seq<Node>): (r: seq<Line>)
    ensures |r| == |cs|
    decreases cs, 0
  {
    if |cs| == 0 then [] else [Line(BuildPgnMoves(cs[0]))] + VariationsAsWritten(cs[1..])
  }

  /**
   Variation `i` of entry `k` is the export of the `i+1`-th child's subtree
   WITHOUT that child: it begins with the child's own mainline continuation,
   so the variation's first move never appears.
   */
  lemma {:induction false} AsWrittenVariationSkipsHead(n: Node, k: nat, i: nat)
    requires k < MainDepth(n)
    requires i + 1 < |MainNode(n, k).children|
    ensures i < |BuildPgnMoves(n)[k].variations|
    ensures BuildPgnMoves(n)[k].variations[i] == Line(BuildPgnMoves(MainNode(n, k).children[i + 1]))
    decreases k
  {
    if k == 0 {
      VariationsAsWrittenAt(n.children[1..], i);
    } else {
      AsWrittenVariationSkipsHead(n.children[0], k - 1, i);
    }
  }

  lemma {:induction false} VariationsAsWrittenAt(cs: seq<Node>, i: nat)
    requires i < |cs|
    ensures VariationsAsWritten(cs)[i] == Line(BuildPgnMoves(cs[i]))
    decreases i
  {
    if i > 0 {
      VariationsAsWrittenAt(cs[1..], i - 1);
    }
  }

  /*--------------------------------------------------------------------
   Corrected
   --------------------------------------------------------------------*/

  /** The exporter with variation heads kept: what the source's own test expects. */
  function ExportMoves(n: Node): (r: seq<PgnMove>)
    ensures |r| == MainDepth(n)
    ensures forall k :: 0 <= k < |r| ==>
              && r[k].notation == MainNode(n, k + 1).san
              && r[k].comment == MainNode(n, k + 1).comment
              && r[k].nags == MainNode(n, k + 1).nags
              && |r[k].variations| + 1 == |MainNode(n, k).children|
    decreases n, 1
  {
    if |n.children| == 0 then []
    else
      var rest := ExportMoves(n.children[0]);
      assert forall k :: 1 <= k <= MainDepth(n) ==> MainNode(n, k) == MainNode(n.children[0], k - 1);
      var r := [EntryOf(n.children[0], Variations(n.children[1..]))] + rest;
      assert forall k :: 1 <= k < |r| ==> r[k] == rest[k - 1];
      r
  }

  /** One variation per child, starting with the child's own move. */
  function Variations(cs: seq<Node>): (r: seq<Line>)
    ensures |r| == |cs|
    ensures forall i :: 0 <= i < |r| ==>
              && |r[i].moves| >= 1
              && r[i].moves[0] == EntryOf(cs[i], [])
    decreases cs, 0
  {
    if |cs| == 0 then []
    else
      var r := [Line([EntryOf(cs[0], [])] + ExportMoves(cs[0]))] + Variations(cs[1..]);
      assert forall i :: 1 <= i < |r| ==> r[i] == Variations(cs[1..])[i - 1];
      r
  }

  /**
   Variation `i` of entry `k` is the `i+1`-th child's own move followed by
   the export of that child's subtree: the variation's first move is kept.
   */
  lemma {:induction false} ExportVariationKeepsHead(n: Node, k: nat, i: nat)
    requires k < MainDepth(n)
    requires i + 1 < |MainNode(n, k).children|
    ensures i < |ExportMoves(n)[k].variations|
    ensures var c := MainNode(n, k).children[i + 1];
            ExportMoves(n)[k].variations[i] == Line([EntryOf(c, [])] + ExportMoves(c))
    decreases k
  {
    if k == 0 {
      VariationsAt(n.children[1..], i);
    } else {
      ExportVariationKeepsHead(n.children[0], k - 1, i);
    }
  }

  lemma {:induction false} VariationsAt(cs: seq<Node>, i: nat)
    requires i < |cs|
    ensures Variations(cs)[i] == Line([EntryOf(cs[i], [])] + ExportMoves(cs[i]))
    decreases i
  {
    if i > 0 {
      VariationsAt(cs[1..], i - 1);
    }
  }

  /*--------------------------------------------------------------------
   How many moves each exporter emits
   --------------------------------------------------------------------*/

  /** Every node has at most one child: a single line with no variations. */
  predicate Linear(n: Node)
  {
    |n.children| <= 1 && forall i :: 0 <= i < |n.children| ==> Linear(n.children[i])
  }

  /** Number of variation children in the subtree: every child beyond the first, at every node. */
  function Branches(n: Node): nat
    decreases n, 1
  {
    (if |n.children| == 0 then 0 else |n.children| - 1) + BranchesAll(n.children)
  }

  function BranchesAll(cs: seq<Node>): nat
    decreases cs, 0
  {
    if |cs| == 0 then 0 else Branches(cs[0]) + BranchesAll(cs[1..])
  }

  lemma {:induction false} NoBranchesIsLinear(n: Node)
    requires Branches(n) == 0
    ensures Linear(n)
    decreases n, 1
  {
    NoBranchesAllIsLinear(n.children);
  }

  lemma {:induction false} NoBranchesAllIsLinear(cs: seq<Node>)
    requires BranchesAll(cs) == 0
    ensures forall i :: 0 <= i < |cs| ==> Linear(cs[i])
    decreases cs, 0
  {
    if |cs| > 0 {
      NoBranchesIsLinear(cs[0]);
      NoBranchesAllIsLinear(cs[1..]);
      assert forall i :: 1 <= i < |cs| ==> cs[i] == cs[1..][i - 1];
    }
  }

  lemma EntryCountCons(m: PgnMove, rest: seq<PgnMove>)
    ensures EntryCount([m] + rest) == 1 + VariationEntryCount(m.variations) + EntryCount(rest)
  {
    assert ([m] + rest)[1..] == rest;
  }

  lemma VariationEntryCountCons(l: Line, rest: seq<Line>)
    ensures VariationEntryCount([l] + rest) == EntryCount(l.moves) + VariationEntryCount(rest)
  {
    assert ([l] + rest)[1..] == rest;
  }

  /**
   The as-written exporter emits one entry per node below `n`, except that
   every variation child is missing.
   */
  lemma {:induction false} AsWrittenEntryCount(n: Node)
    ensures EntryCount(BuildPgnMoves(n)) + Branches(n) == SizeAll(n.children)
    decreases n, 1
  {
    if |n.children| > 0 {
      var cs := n.children[1..];
      EntryCountCons(EntryOf(n.children[0], VariationsAsWritten(cs)), BuildPgnMoves(n.children[0]));
      AsWrittenEntryCount(n.children[0]);
      AsWrittenVariationsEntryCount(cs);
      assert BranchesAll(n.children) == Branches(n.children[0]) + BranchesAll(cs);
    }
  }

  lemma {:induction false} AsWrittenVariationsEntryCount(cs: seq<Node>)
    ensures VariationEntryCount(VariationsAsWritten(cs)) + |cs| + BranchesAll(cs) == SizeAll(cs)
    decreases cs, 0
  {
    if |cs| > 0 {
      VariationEntryCountCons(Line(BuildPgnMoves(cs[0])), VariationsAsWritten(cs[1..]));
      AsWrittenEntryCount(cs[0]);
      AsWrittenVariationsEntryCount(cs[1..]);
    }
  }

  /** The corrected exporter emits exactly one entry per node below `n`. */
  lemma {:induction false} ExportEntryCount(n: Node)
    ensures EntryCount(ExportMoves(n)) == SizeAll(n.children)
    decreases n, 1
  {
    if |n.children| > 0 {
      var cs := n.children[1..];
      EntryCountCons(EntryOf(n.children[0], Variations(cs)), ExportMoves(n.children[0]));
      ExportEntryCount(n.children[0]);
      VariationsEntryCount(cs);
    }
  }

  lemma {:induction false} VariationsEntryCount(cs: seq<Node>)
    ensures VariationEntryCount(Variations(cs)) == SizeAll(cs)
    decreases cs, 0
  {
    if |cs| > 0 {
      var head := EntryOf(cs[0], []);
      VariationEntryCountCons(Line([head] + ExportMoves(cs[0])), Variations(cs[1..]));
      EntryCountCons(head, ExportMoves(cs[0]));
      assert VariationEntryCount(head.variations) == 0;
      ExportEntryCount(cs[0]);
      VariationsEntryCount(cs[1..]);
    }
  }

  /** On a tree without variations the two exporters agree. */
  lemma {:induction false} LinearExportsAgree(n: Node)
    requires Linear(n)
    ensures BuildPgnMoves(n) == ExportMoves(n)
    decreases n
  {
    if |n.children| > 0 {
      LinearExportsAgree(n.children[0]);
      assert n.children[1..] == [];
    }
  }
}
