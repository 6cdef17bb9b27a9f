/**
 Import after export. With the corrected exporter every tree consistent with
 the oracle comes back with the same moves, comments, nags and child order
 (only the ids are new). With the exporter as written this holds only for
 trees without variations; any variation costs at least one move.
 */
module RoundTrip {
  import opened Wrappers
  import opened MoveNode
  import opened Rules
  import opened Pgn
  import opened Importer
  import opened Exporter

  /**
   Importing `ExportMoves(n)` under a parent at `n`'s position rebuilds
   `n`'s children exactly, up to ids.
   */
  lemma {:induction false} ExportThenImport(rules: Rules, n: Node, next: Id)
    requires Consistent(rules, n)
    ensures SameMovesAll(BuildLine(rules, n.fen, ExportMoves(n), next).nodes, n.children)
    decreases n, 1
  {
    if |n.children| > 0 {
      var c := n.children[0];
      var cs := n.children[1..];
      var moves := ExportMoves(n);
      ExportMovesUnfold(n);
      ConsistentAllTail(rules, n.fen, n.children);
      var res := MoveResult(c.san, c.fen, c.from, c.to);
      var vars := BuildVariations(rules, n.fen, Variations(cs), next + 1);
      VariationsThenImport(rules, n.fen, cs, next + 1);
      var rest := BuildLine(rules, c.fen, ExportMoves(c), vars.next);
      ExportThenImport(rules, c, vars.next);
      BuildLineAccepted(rules, n.fen, moves, next, res);
      var head := Node(next, c.san, c.fen, c.from, c.to, c.comment, c.nags, rest.nodes);
      SameMovesCons(head, c, vars.nodes, cs);
      assert [c] + cs == n.children;
    }
  }

  /** The first step of the corrected export. */
  lemma ExportMovesUnfold(n: Node)
    requires |n.children| > 0
    ensures |ExportMoves(n)| > 0
    ensures ExportMoves(n)[0] == EntryOf(n.children[0], Variations(n.children[1..]))
    ensures ExportMoves(n)[1..] == ExportMoves(n.children[0])
  {
    var moves := ExportMoves(n);
    assert moves == [EntryOf(n.children[0], Variations(n.children[1..]))] + ExportMoves(n.children[0]);
  }

  /** A node with the same moves, in front of lists with the same moves. */
  lemma SameMovesCons(a: Node, b: Node, xs: seq<Node>, ys: seq<Node>)
    requires SameMoves(a, b)
    requires SameMovesAll(xs, ys)
    ensures SameMovesAll([a] + xs, [b] + ys)
  {
    assert SameMovesAll([a], [b]);
    SameMovesAllConcat([a], [b], xs, ys);
  }

  lemma {:induction false} VariationsThenImport(rules: Rules, fen: string, cs: seq<Node>, next: Id)
    requires ConsistentAll(rules, fen, cs)
    ensures SameMovesAll(BuildVariations(rules, fen, Variations(cs), next).nodes, cs)
    decreases cs, 0
  {
    if |cs| > 0 {
      var vs := Variations(cs);
      assert vs == [Line([EntryOf(cs[0], [])] + ExportMoves(cs[0]))] + Variations(cs[1..]);
      assert vs[1..] == Variations(cs[1..]);
      ConsistentAllTail(rules, fen, cs);
      var first := BuildLine(rules, fen, vs[0].moves, next);
      VariationHeadThenImport(rules, fen, cs[0], next);
      BuildVariationsCons(rules, fen, vs, next);
      var others := BuildVariations(rules, fen, vs[1..], first.next);
      VariationsThenImport(rules, fen, cs[1..], first.next);
      SameMovesAllConcat(first.nodes, [cs[0]], others.nodes, cs[1..]);
      assert [cs[0]] + cs[1..] == cs;
    }
  }

  /** One exported variation imports back as exactly its head node and subtree. */
  lemma {:induction false} VariationHeadThenImport(rules: Rules, fen: string, c: Node, next: Id)
    requires EdgeOk(rules, fen, c) && Consistent(rules, c)
    ensures SameMovesAll(BuildLine(rules, fen, [EntryOf(c, [])] + ExportMoves(c), next).nodes, [c])
    decreases c, 2
  {
    var line := [EntryOf(c, [])] + ExportMoves(c);
    assert line[0] == EntryOf(c, []) && line[1..] == ExportMoves(c);
    var res := MoveResult(c.san, c.fen, c.from, c.to);
    BuildLineAccepted(rules, fen, line, next, res);
    assert BuildVariations(rules, fen, [], next + 1) == Built([], next + 1);
    var rest := BuildLine(rules, c.fen, ExportMoves(c), next + 1);
    ExportThenImport(rules, c, next + 1);
    var head := Node(next, c.san, c.fen, c.from, c.to, c.comment, c.nags, rest.nodes);
    assert BuildLine(rules, fen, line, next).nodes == [head];
    assert SameMoves(head, c);
  }

  /**
   The exporter as written round-trips a tree without variations: every
   SAN, comment and nags value comes back in order.
   */
  lemma {:induction false} LinearRoundTrip(rules: Rules, n: Node, next: Id)
    requires Consistent(rules, n)
    requires Linear(n)
    ensures SameMovesAll(BuildLine(rules, n.fen, BuildPgnMoves(n), next).nodes, n.children)
  {
    LinearExportsAgree(n);
    ExportThenImport(rules, n, next);
  }

  /**
   The exporter as written loses moves on every tree with a variation:
   importing its output yields strictly fewer nodes, whatever the oracle.
   */
  lemma AsWrittenLosesMoves(rules: Rules, n: Node, next: Id)
    requires !Linear(n)
    ensures SizeAll(BuildLine(rules, n.fen, BuildPgnMoves(n), next).nodes) < SizeAll(n.children)
  {
    if Branches(n) == 0 {
      NoBranchesIsLinear(n);
    }
    AsWrittenEntryCount(n);
    ImportSizeBound(rules, n.fen, BuildPgnMoves(n), next);
  }
}
