/**
 Whole editing sessions: a tree made by the constructor and then any
 sequence of `addMove`, `goBack`, `goForward` and `goToNode` calls. The
 lemmas here state what holds of every such tree, and that writing it as PGN
 and loading it back reproduces it.
 */
module Session {
  import opened Wrappers
  import opened MoveNode
  import opened Rules
  import opened Pgn
  import opened Importer
  import opened Exporter
  import opened RoundTrip
  import opened MoveTree

  /** One call on the public surface of the tree. */
  datatype Op =
    | Add(input: MoveInput)
    | Back
    | Forward(index: int)
    | GoTo(id: Id)

  function Perform(rules: Rules, t: Tree, op: Op): (r: Tree)
    requires Valid(t)
    ensures Valid(r)
    ensures Extends(t.root, r.root)
  {
    ExtendsRefl(t.root);
    match op
    case Add(m) => AddMove(rules, t, m).tree
    case Back => GoBack(t).tree
    case Forward(i) => GoForward(t, i).tree
    case GoTo(id) => GoToNode(t, id).tree
  }

  /** The tree after performing `ops` in order; nodes are only ever appended. */
  function Run(rules: Rules, t: Tree, ops: seq<Op>): (r: Tree)
    requires Valid(t)
    ensures Valid(r)
    ensures Extends(t.root, r.root)
    decreases |ops|
  {
    if |ops| == 0 then
      ExtendsRefl(t.root);
      t
    else
      var t1 := Perform(rules, t, ops[0]);
      var r := Run(rules, t1, ops[1..]);
      ExtendsTrans(t.root, t1.root, r.root);
      r
  }

  /**
   Re-entering a move that was just played (go back, play the same input
   again) returns to the very same node and creates nothing.
   */
  lemma TranspositionMerge(rules: Rules, t: Tree, m: MoveInput)
    requires Valid(t)
    requires rules.apply(Current(t).fen, m).Some?
    ensures var first := AddMove(rules, t, m);
            var again := AddMove(rules, GoBack(first.tree).tree, m);
            again == first
  {
    var first := AddMove(rules, t, m);
    var back := GoBack(first.tree);
    var res := rules.apply(Current(t).fen, m).value;
    assert back.tree.cursor == t.cursor;
    ExtendsKeepsPath(t.root, first.tree.root, t.cursor);
    var kids := Current(back.tree).children;
    var k := first.tree.cursor[|t.cursor|];
    assert first.tree.cursor == t.cursor + [k];
    PathExtend(first.tree.root, t.cursor, k);
    assert kids[k].san == res.san;
    assert forall j :: 0 <= j < k ==> kids[j].san != res.san;
  }

  /** Trees made only through the public operations never hold two siblings with the same SAN. */
  lemma {:induction false} RunKeepsDistinctSans(rules: Rules, t: Tree, ops: seq<Op>)
    requires Valid(t)
    requires DistinctSans(t.root)
    ensures DistinctSans(Run(rules, t, ops).root)
    decreases |ops|
  {
    if |ops| > 0 {
      if ops[0].Add? {
        AddMoveKeepsDistinctSans(rules, t, ops[0].input);
      }
      RunKeepsDistinctSans(rules, Perform(rules, t, ops[0]), ops[1..]);
    }
  }

  /** A session without `loadPgn` creates no comments or NAGs. */
  lemma {:induction false} RunKeepsUnannotated(rules: Rules, t: Tree, ops: seq<Op>)
    requires Valid(t)
    requires Unannotated(t.root)
    ensures Unannotated(Run(rules, t, ops).root)
    decreases |ops|
  {
    if |ops| > 0 {
      if ops[0].Add? {
        AddMoveKeepsUnannotated(rules, t, ops[0].input);
      }
      RunKeepsUnannotated(rules, Perform(rules, t, ops[0]), ops[1..]);
    }
  }

  /** Under the replay law, every edge such a session creates is a move the oracle accepts. */
  lemma {:induction false} RunKeepsConsistent(rules: Rules, t: Tree, ops: seq<Op>)
    requires Valid(t)
    requires ReplayStable(rules)
    requires Consistent(rules, t.root)
    ensures Consistent(rules, Run(rules, t, ops).root)
    decreases |ops|
  {
    if |ops| > 0 {
      if ops[0].Add? {
        AddMoveKeepsConsistent(rules, t, ops[0].input);
      }
      RunKeepsConsistent(rules, Perform(rules, t, ops[0]), ops[1..]);
    }
  }

  /**
   Loading what `toPgn` writes gives back the same start position and the
   same moves, comments, nags and child order, with the cursor at the root.
   */
  lemma PgnRoundTrip(rules: Rules, t: Tree, other: Tree)
    requires Valid(t)
    requires Consistent(rules, t.root)
    requires rules.acceptsFen(t.root.fen)
    requires t.root.fen != ""
    ensures var r := LoadPgn(rules, other, [ToPgn(t)]);
            && r.Ok?
            && r.value.cursor == []
            && SameMoves(r.value.root, t.root)
  {
    var g := ToPgn(t);
    var fen := t.root.fen;
    StartFenRoundTrip(fen);
    var r := LoadPgn(rules, other, [g]);
    var b := BuildLine(rules, fen, ExportMoves(t.root), other.nextId + 1);
    LoadedRoot(rules, other, g, fen);
    ExportThenImport(rules, t.root, other.nextId + 1);
    SameStartNode(r.value.root, t.root);
  }

  /** What `loadPgn` builds from one game whose start position is accepted. */
  lemma LoadedRoot(rules: Rules, t: Tree, g: Game, fen: string)
    requires StartFen(g.headers) == fen
    requires rules.acceptsFen(fen)
    ensures var r := LoadPgn(rules, t, [g]);
            && r.Ok?
            && r.value.cursor == []
            && r.value.root == StartNode(t.nextId, fen).(children := BuildLine(rules, fen, g.moves, t.nextId + 1).nodes)
  {
    var gs := [g];
    assert gs[0] == g;
  }

  /** Two start roots at the same position with the same moves below them. */
  lemma SameStartNode(a: Node, b: Node)
    requires a.san == b.san && a.from == b.from && a.to == b.to
    requires a.comment == b.comment && a.nags == b.nags
    requires a.fen == b.fen
    requires SameMovesAll(a.children, b.children)
    ensures SameMoves(a, b)
  {
  }

  /**
   Any tree built from a start position by the public operations has
   distinct sibling SANs and survives `toPgn` followed by `loadPgn`.
   */
  lemma SessionRoundTrip(rules: Rules, fen: string, ops: seq<Op>, other: Tree)
    requires ReplayStable(rules)
    requires rules.acceptsFen(fen)
    requires fen != ""
    ensures var t := Run(rules, Create(rules, fen).value, ops);
            var r := LoadPgn(rules, other, [ToPgn(t)]);
            && DistinctSans(t.root)
            && Unannotated(t.root)
            && r.Ok?
            && SameMoves(r.value.root, t.root)
  {
    var t0 := Create(rules, fen).value;
    var t := Run(rules, t0, ops);
    RunKeepsDistinctSans(rules, t0, ops);
    RunKeepsUnannotated(rules, t0, ops);
    RunKeepsConsistent(rules, t0, ops);
    assert t.root.fen == fen;
    PgnRoundTrip(rules, t, other);
  }
}
