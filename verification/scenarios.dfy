/**
 Concrete instances of the model on a toy rules oracle, following the source's own
 test scenarios (src/lib/MoveTree.test.ts). The toy oracle accepts every
 non-empty SAN text, returns it unchanged as the canonical SAN, and records
 the move by appending it to the position string; that is enough to follow
 the tree's bookkeeping, which never looks inside a position.
 */
module Scenarios {
  import opened Wrappers
  import opened MoveNode
  import opened Rules
  import opened Pgn
  import opened Importer
  import opened Exporter
  import opened MoveTree

  function ToyApply(fen: string, m: MoveInput): (r: Option<MoveResult>)
    ensures r.Some? <==> m.San? && m.text != ""
    ensures r.Some? ==> r.value.san == m.text && r.value.fen == fen + " " + m.text
  {
    match m
    case San(text) => if text == "" then None else Some(MoveResult(text, fen + " " + text, "", ""))
    case Squares(_, _, _) => None
  }

  /** An accepted move, as one value. */
  lemma ToyAccepts(fen: string, text: string)
    requires text != ""
    ensures ToyApply(fen, San(text)) == Some(MoveResult(text, fen + " " + text, "", ""))
  {
    var v := ToyApply(fen, San(text)).value;
    assert v.san == text && v.fen == fen + " " + text && v.from == "" && v.to == "";
  }

  function Toy(): Rules
  {
    Rules(ToyApply, fen => fen != "")
  }

  /** Calling the oracle through the record is calling `ToyApply`. */
  lemma ToyIsToyApply(fen: string, m: MoveInput)
    ensures Toy().apply(fen, m) == ToyApply(fen, m)
  {
  }

  /**
   The toy oracle satisfies the replay law, so the general lemmas that
   assume `ReplayStable` do not hold vacuously.
   */
  lemma ToyReplayStable()
    ensures ReplayStable(Toy())
  {
    forall fen, m ensures ReplaysAt(Toy(), fen, m) {
      if ToyApply(fen, m).Some? {
        assert ToyApply(fen, San(ToyApply(fen, m).value.san)) == ToyApply(fen, m);
      }
    }
  }

  function Entry(san: string, vs: seq<Line>): PgnMove
  {
    PgnMove(san, None, None, vs)
  }

  /*--------------------------------------------------------------------
   The serialisation test: play e4 and e5, go back twice, play d4
   --------------------------------------------------------------------*/

  const E4Fen: string := DefaultFen + " " + "e4"
  const E5Fen: string := E4Fen + " " + "e5"
  const D4Fen: string := DefaultFen + " " + "d4"

  function E4(children: seq<Node>): Node { NewNode(1, "e4", E4Fen, "", "").(children := children) }
  function E5(): Node { NewNode(2, "e5", E5Fen, "", "") }
  function D4(): Node { NewNode(3, "d4", D4Fen, "", "") }
  function Root(children: seq<Node>): Node { StartNode(0, DefaultFen).(children := children) }

  lemma CreateStep()
    ensures Create(Toy(), DefaultFen) == Ok(Tree(Root([]), [], 1))
  {
  }

  /** e4 from the start: a new first child of the root. */
  lemma PlayE4()
    ensures AddMove(Toy(), Tree(Root([]), [], 1), San("e4")).tree == Tree(Root([E4([])]), [0], 2)
  {
    var t := Tree(Root([]), [], 1);
    ToyAccepts(DefaultFen, "e4");
    ToyIsToyApply(DefaultFen, San("e4"));
    assert Current(t).fen == t.root.fen;
    assert Toy().apply(Current(t).fen, San("e4")) == Some(MoveResult("e4", E4Fen, "", ""));
    var r := AddMove(Toy(), t, San("e4")).tree;
    assert r.cursor == [0] && r.nextId == 2;
    assert Current(r) == E4([]);
    assert r.root.children == [E4([])];
  }

  /** e5 after e4: a new child of e4. */
  lemma PlayE5()
    ensures AddMove(Toy(), Tree(Root([E4([])]), [0], 2), San("e5")).tree == Tree(Root([E4([E5()])]), [0, 0], 3)
  {
    var t := Tree(Root([E4([])]), [0], 2);
    assert Current(t) == E4([]);
    ToyAccepts(E4Fen, "e5");
    ToyIsToyApply(E4Fen, San("e5"));
    assert Toy().apply(Current(t).fen, San("e5")) == Some(MoveResult("e5", E5Fen, "", ""));
    var r := AddMove(Toy(), t, San("e5")).tree;
    assert r.cursor == [0, 0] && r.nextId == 3;
    assert Current(r) == E5();
    assert NodeAt(r.root, [0]).children == [E5()];
    assert r.root.children[0] == E4([E5()]);
    assert |r.root.children| == 1;
    assert r.root.children == [E4([E5()])];
  }

  /** Two steps back from e5 reach the root. */
  lemma BackTwice()
    ensures var t := Tree(Root([E4([E5()])]), [0, 0], 3);
            GoBack(GoBack(t).tree).tree == Tree(Root([E4([E5()])]), [], 3)
  {
    var t := Tree(Root([E4([E5()])]), [0, 0], 3);
    assert GoBack(t).tree == t.(cursor := [0]);
  }

  /** d4 from the root: a second child, after e4. */
  lemma PlayD4()
    ensures AddMove(Toy(), Tree(Root([E4([E5()])]), [], 3), San("d4")).tree
            == Tree(Root([E4([E5()]), D4()]), [1], 4)
  {
    var t := Tree(Root([E4([E5()])]), [], 3);
    ToyAccepts(DefaultFen, "d4");
    ToyIsToyApply(DefaultFen, San("d4"));
    assert Current(t).fen == t.root.fen;
    assert Toy().apply(Current(t).fen, San("d4")) == Some(MoveResult("d4", D4Fen, "", ""));
    var r := AddMove(Toy(), t, San("d4")).tree;
    assert r.cursor == [1] && r.nextId == 4;
    assert Current(r) == D4();
    assert r.root.children == [E4([E5()]), D4()];
  }

  /** The tree of the serialisation test, reached through the public operations. */
  function TestTree(): (t: Tree)
    ensures Valid(t)
  {
    var t0 := Create(Toy(), DefaultFen).value;
    var t1 := AddMove(Toy(), t0, San("e4")).tree;
    var t2 := AddMove(Toy(), t1, San("e5")).tree;
    var t3 := GoBack(GoBack(t2).tree).tree;
    AddMove(Toy(), t3, San("d4")).tree
  }

  /** The root then has e4 (followed by e5) and, as a variation, d4. */
  lemma TestTreeShape()
    ensures TestTree() == Tree(TestRoot(), [1], 4)
  {
    CreateStep();
    PlayE4();
    PlayE5();
    BackTwice();
    PlayD4();
  }

  function TestRoot(): Node
  {
    Root([E4([E5()]), D4()])
  }

  lemma AsWrittenMovesOfTestRoot()
    ensures BuildPgnMoves(TestRoot()) == [Entry("e4", [Line([])]), Entry("e5", [])]
  {
    var r := TestRoot();
    assert r.children[1..] == [D4()];
    assert BuildPgnMoves(D4()) == [];
    assert VariationsAsWritten([D4()]) == [Line([])];
    assert BuildPgnMoves(E5()) == [];
    assert E4([E5()]).children[1..] == [];
    assert BuildPgnMoves(E4([E5()])) == [Entry("e5", [])];
  }

  /** Importing e4 with one empty variation, then e5: the empty variation adds nothing. */
  lemma ImportAsWrittenMoves()
    ensures var b := BuildLine(Toy(), DefaultFen, [Entry("e4", [Line([])]), Entry("e5", [])], 1);
            |b.nodes| == 1 && b.nodes[0].san == "e4" && |b.nodes[0].children| == 1
  {
    var moves := [Entry("e4", [Line([])]), Entry("e5", [])];
    ToyAccepts(DefaultFen, "e4");
    ToyIsToyApply(DefaultFen, San("e4"));
    ToyAccepts(E4Fen, "e5");
    ToyIsToyApply(E4Fen, San("e5"));
    assert moves[1..] == [Entry("e5", [])];
    BuildVariationsCons(Toy(), DefaultFen, [Line([])], 2);
    assert BuildVariations(Toy(), DefaultFen, [Line([])], 2) == Built([], 2);
    var rest := BuildLine(Toy(), E4Fen, [Entry("e5", [])], 2);
    assert |rest.nodes| == 1;
    BuildLineAccepted(Toy(), DefaultFen, moves, 1, MoveResult("e4", E4Fen, "", ""));
  }

  /**
   The source's exporter on that tree: the variation for d4 comes out empty,
   so the game `1. e4 (1. d4) 1... e5` the test expects is not what it writes.
   Reading the written moves back gives e4 and e5 only: d4 is lost.
   */
  lemma AsWrittenExportOfTestTree()
    ensures BuildPgnMoves(TestTree().root) == [Entry("e4", [Line([])]), Entry("e5", [])]
    ensures var b := BuildLine(Toy(), DefaultFen, BuildPgnMoves(TestTree().root), 1);
            |b.nodes| == 1 && b.nodes[0].san == "e4" && |b.nodes[0].children| == 1
    ensures Size(TestTree().root) == 4
  {
    TestTreeShape();
    AsWrittenMovesOfTestRoot();
    ImportAsWrittenMoves();
    TestRootSize();
  }

  lemma TestRootSize()
    ensures Size(TestRoot()) == 4
  {
    assert Size(E4([E5()])) == 2;
    assert Size(D4()) == 1;
    assert SizeAll([E4([E5()]), D4()]) == 3;
  }

  /** The corrected exporter writes exactly the parsed form of `1. e4 (1. d4) 1... e5`. */
  lemma ExportOfTestTree()
    ensures ExportMoves(TestTree().root)
            == [Entry("e4", [Line([Entry("d4", [])])]), Entry("e5", [])]
  {
    TestTreeShape();
    ExportMovesOfTestRoot();
  }

  lemma ExportMovesOfTestRoot()
    ensures ExportMoves(TestRoot()) == [Entry("e4", [Line([Entry("d4", [])])]), Entry("e5", [])]
  {
    var r := TestRoot();
    assert r.children[1..] == [D4()];
    VariationsOfD4();
    ExportMovesOfE4();
  }

  lemma VariationsOfD4()
    ensures Variations([D4()]) == [Line([Entry("d4", [])])]
  {
    assert ExportMoves(D4()) == [];
    assert [EntryOf(D4(), [])] + [] == [Entry("d4", [])];
  }

  lemma ExportMovesOfE4()
    ensures ExportMoves(E4([E5()])) == [Entry("e5", [])]
  {
    assert ExportMoves(E5()) == [];
    assert E4([E5()]).children[1..] == [];
  }

  /** The parsed form of `1. e4 (1. d4) 1... e5`. */
  function TestGame(): Game
  {
    Game([], [Entry("e4", [Line([Entry("d4", [])])]), Entry("e5", [])])
  }

  /** A one-move line whose move the toy oracle accepts: a single leaf. */
  lemma ImportSingle(fen: string, san: string, next: Id)
    requires san != ""
    ensures BuildLine(Toy(), fen, [Entry(san, [])], next)
            == Built([NewNode(next, san, fen + " " + san, "", "")], next + 1)
  {
    ToyAccepts(fen, san);
    ToyIsToyApply(fen, San(san));
    var moves := [Entry(san, [])];
    assert moves[1..] == [];
    BuildLineAccepted(Toy(), fen, moves, next, MoveResult(san, fen + " " + san, "", ""));
  }

  /** The moves of `1. e4 (1. d4) 1... e5`: e4 (continued by e5), then d4, under one parent. */
  lemma ImportTestMoves(next: Id)
    ensures var b := BuildLine(Toy(), DefaultFen, TestGame().moves, next);
            && |b.nodes| == 2
            && b.nodes[0].san == "e4" && b.nodes[1].san == "d4"
            && |b.nodes[0].children| == 1 && b.nodes[0].children[0].san == "e5"
  {
    var moves := TestGame().moves;
    ToyAccepts(DefaultFen, "e4");
    ToyIsToyApply(DefaultFen, San("e4"));
    ImportSingle(DefaultFen, "d4", next + 1);
    BuildVariationsCons(Toy(), DefaultFen, [Line([Entry("d4", [])])], next + 1);
    var vars := BuildVariations(Toy(), DefaultFen, [Line([Entry("d4", [])])], next + 1);
    assert [Line([Entry("d4", [])])][1..] == [];
    assert vars == Built([NewNode(next + 1, "d4", D4Fen, "", "")], next + 2);
    assert moves[1..] == [Entry("e5", [])];
    ImportSingle(E4Fen, "e5", next + 2);
    BuildLineAccepted(Toy(), DefaultFen, moves, next, MoveResult("e4", E4Fen, "", ""));
  }

  /**
   Loading that game: the root gets e4 then d4 as children, in that order,
   and e5 continues e4.
   */
  lemma LoadTestGame(t: Tree)
    ensures var r := LoadPgn(Toy(), t, [TestGame()]);
            && r.Ok?
            && r.value.root.fen == DefaultFen
            && |r.value.root.children| == 2
            && r.value.root.children[0].san == "e4"
            && r.value.root.children[1].san == "d4"
            && |r.value.root.children[0].children| == 1
            && r.value.root.children[0].children[0].san == "e5"
  {
    assert StartFen(TestGame().headers) == DefaultFen;
    ImportTestMoves(t.nextId + 1);
  }

  /**
   Unlike `addMove`, the importer does not merge siblings with the same SAN:
   `1. e4 (1. e4)` gives the root two distinct e4 children.
   */
  lemma ImportKeepsDuplicateSans(t: Tree)
    ensures var r := LoadPgn(Toy(), t, [Game([], [Entry("e4", [Line([Entry("e4", [])])])])]);
            && r.Ok?
            && |r.value.root.children| == 2
            && r.value.root.children[0].san == r.value.root.children[1].san == "e4"
            && r.value.root.children[0].id != r.value.root.children[1].id
            && !DistinctSans(r.value.root)
  {
    var n := t.nextId + 1;
    var moves := [Entry("e4", [Line([Entry("e4", [])])])];
    assert StartFen([]) == DefaultFen;
    ToyAccepts(DefaultFen, "e4");
    ToyIsToyApply(DefaultFen, San("e4"));
    ImportSingle(DefaultFen, "e4", n + 1);
    BuildVariationsCons(Toy(), DefaultFen, [Line([Entry("e4", [])])], n + 1);
    assert [Line([Entry("e4", [])])][1..] == [];
    assert moves[1..] == [];
    BuildLineAccepted(Toy(), DefaultFen, moves, n, MoveResult("e4", E4Fen, "", ""));
    var b := BuildLine(Toy(), DefaultFen, moves, n);
    assert b.nodes[0].id == n && b.nodes[1].id == n + 1;
  }
}
