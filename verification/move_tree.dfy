/**
 The `MoveTree` class (src/lib/MoveTree.ts): a root node, a cursor
 (`currentNode`) and the operations that move the cursor or grow the tree.
 The tree is a value; each operation returns the new tree together with the
 node the source returns (`null` is `None`). The cursor is the path from the
 root to the current node. Ids come from the counter `nextId` instead of
 `Math.random`.
 */
module MoveTree {
  import opened Wrappers
  import opened MoveNode
  import opened Rules
  import opened Pgn
  import opened Importer
  import opened Exporter
  import opened Search

  /** The standard starting position, used when no FEN is given. */
  const DefaultFen: string := "rnbqkbnr/pppppppp/8/8/8/8/PPPPPPPP/RNBQKBNR w KQkq - 0 1"

  datatype Tree = Tree(root: Node, cursor: Path, nextId: Id)

  /**
   What every tree made by these operations satisfies: the cursor points into
   the tree, the root is the `"start"` sentinel, and ids are distinct and
   below the next id the supply hands out.
   */
  predicate Valid(t: Tree)
  {
    && ValidPath(t.root, t.cursor)
    && IsStartNode(t.root)
    && IdsBelow(t.root, t.nextId)
    && UniqueIds(t.root)
  }

  function Current(t: Tree): Node
    requires ValidPath(t.root, t.cursor)
  {
    NodeAt(t.root, t.cursor)
  }

  /** `new Chess(fen)` threw: the FEN was rejected. */
  datatype Error = InvalidFen(fen: string)

  /** The tree after a cursor operation and the node the operation returns. */
  datatype Step = Step(tree: Tree, node: Option<Node>)

  /** The constructor: a lone `"start"` root at `fen`, with the cursor on it. */
  function Create(rules: Rules, fen: string): (r: Result<Tree, Error>)
    ensures r.Ok? <==> rules.acceptsFen(fen)
    ensures r.Err? ==> r.error == InvalidFen(fen)
    ensures r.Ok? ==> && Valid(r.value)
                      && r.value.root.fen == fen
                      && r.value.root.children == []
                      && r.value.cursor == []
  {
    if rules.acceptsFen(fen) then
      var root := StartNode(0, fen);
      assert IdSet(root) == {0};
      assert Size(root) == 1;
      Ok(Tree(root, [], 1))
    else
      Err(InvalidFen(fen))
  }

  /*--------------------------------------------------------------------
   addMove
   --------------------------------------------------------------------*/

  /** The child lookup of `addMove` (src/lib/MoveTree.ts:42-44): index of the first child with that SAN. */
  function FindSan(cs: seq<Node>, san: string): (r: Option<nat>)
    ensures r.Some? ==> && r.value < |cs| && cs[r.value].san == san
                        && forall j :: 0 <= j < r.value ==> cs[j].san != san
    ensures r.None? <==> forall j :: 0 <= j < |cs| ==> cs[j].san != san
  {
    if |cs| == 0 then None
    else if cs[0].san == san then Some(0)
    else
      match FindSan(cs[1..], san)
      case None =>
        assert forall j :: 1 <= j < |cs| ==> cs[j] == cs[1..][j - 1];
        None
      case Some(i) =>
        assert cs[i + 1] == cs[1..][i];
        assert forall j :: 1 <= j <= i ==> cs[j] == cs[1..][j - 1];
        Some(i + 1)
  }

  /**
   `addMove`: ask the oracle; on rejection change nothing; on success move to
   the first child with the returned SAN, or append a new last child and move
   to it.
   */
  function AddMove(rules: Rules, t: Tree, m: MoveInput): (r: Step)
    requires Valid(t)
    ensures Valid(r.tree)
    ensures Extends(t.root, r.tree.root)
    ensures ValidPath(r.tree.root, t.cursor)
    ensures Size(r.tree.root) <= Size(t.root) + 1
    ensures rules.apply(Current(t).fen, m).None? ==> r == Step(t, None)
    ensures rules.apply(Current(t).fen, m).Some? ==>
              && r.node == Some(Current(r.tree))
              && Current(r.tree).san == rules.apply(Current(t).fen, m).value.san
              && |r.tree.cursor| == |t.cursor| + 1
              && r.tree.cursor[..|t.cursor|] == t.cursor
    // a child with the returned SAN exists: reuse the first one, create nothing
    ensures rules.apply(Current(t).fen, m).Some? ==>
              var san := rules.apply(Current(t).fen, m).value.san;
              var kids := Current(t).children;
              (exists j :: 0 <= j < |kids| && kids[j].san == san) ==>
                && r.tree.root == t.root
                && r.tree.nextId == t.nextId
                && r.tree.cursor[|t.cursor|] < |kids|
                && kids[r.tree.cursor[|t.cursor|]].san == san
                && forall j :: 0 <= j < r.tree.cursor[|t.cursor|] ==> kids[j].san != san
    // otherwise: a new node becomes the last child of the old cursor
    ensures rules.apply(Current(t).fen, m).Some? ==>
              var res := rules.apply(Current(t).fen, m).value;
              var kids := Current(t).children;
              (forall j :: 0 <= j < |kids| ==> kids[j].san != res.san) ==>
                && r.tree.cursor == t.cursor + [|kids|]
                && r.tree.nextId == t.nextId + 1
                && Current(r.tree) == NewNode(t.nextId, res.san, res.fen, res.from, res.to)
                && NodeAt(r.tree.root, t.cursor).children == kids + [Current(r.tree)]
                && Size(r.tree.root) == Size(t.root) + 1
  {
    var cur := Current(t);
    match rules.apply(cur.fen, m)
    case None =>
      ExtendsRefl(t.root);
      Step(t, None)
    case Some(res) =>
      match FindSan(cur.children, res.san)
      case Some(k) => Revisit(t, k)
      case None => AppendMove(t, res)
  }

  /** The reuse branch of `addMove`: move the cursor to existing child `k`. */
  function Revisit(t: Tree, k: nat): (r: Step)
    requires Valid(t)
    requires k < |Current(t).children|
    ensures Valid(r.tree)
    ensures r.tree.root == t.root && r.tree.nextId == t.nextId
    ensures Extends(t.root, r.tree.root)
    ensures r.tree.cursor == t.cursor + [k]
    ensures r.tree.cursor[..|t.cursor|] == t.cursor
    ensures r.node == Some(Current(r.tree)) && Current(r.tree) == Current(t).children[k]
  {
    PathExtend(t.root, t.cursor, k);
    ExtendsRefl(t.root);
    assert (t.cursor + [k])[..|t.cursor|] == t.cursor;
    var t' := t.(cursor := t.cursor + [k]);
    Step(t', Some(Current(t')))
  }

  /** The growth branch of `addMove`: a fresh node becomes the cursor's last child. */
  function AppendMove(t: Tree, res: MoveResult): (r: Step)
    requires Valid(t)
    ensures Valid(r.tree)
    ensures Extends(t.root, r.tree.root)
    ensures ValidPath(r.tree.root, t.cursor)
    ensures r.tree.cursor == t.cursor + [|Current(t).children|]
    ensures r.tree.cursor[..|t.cursor|] == t.cursor
    ensures r.tree.nextId == t.nextId + 1
    ensures r.node == Some(Current(r.tree))
    ensures Current(r.tree) == NewNode(t.nextId, res.san, res.fen, res.from, res.to)
    ensures NodeAt(r.tree.root, t.cursor).children == Current(t).children + [Current(r.tree)]
    ensures Size(r.tree.root) == Size(t.root) + 1
  {
    var leaf := NewNode(t.nextId, res.san, res.fen, res.from, res.to);
    var root := AppendChildAt(t.root, t.cursor, leaf);
    var k := |Current(t).children|;
    ExtendsKeepsPath(t.root, root, t.cursor);
    PathExtend(root, t.cursor, k);
    assert (t.cursor + [k])[..|t.cursor|] == t.cursor;
    assert IdSet(leaf) == {t.nextId};
    assert t.nextId !in IdSet(t.root);
    assert Size(leaf) == 1;
    var t' := Tree(root, t.cursor + [k], t.nextId + 1);
    Step(t', Some(Current(t')))
  }

  /** `addMove` never gives two siblings the same SAN. */
  lemma AddMoveKeepsDistinctSans(rules: Rules, t: Tree, m: MoveInput)
    requires Valid(t)
    requires DistinctSans(t.root)
    ensures DistinctSans(AddMove(rules, t, m).tree.root)
  {
    var cur := Current(t);
    match rules.apply(cur.fen, m)
    case None =>
    case Some(res) =>
      if FindSan(cur.children, res.san).None? {
        AppendKeepsDistinctSans(t.root, t.cursor, NewNode(t.nextId, res.san, res.fen, res.from, res.to));
      }
  }

  /** `addMove` never sets a comment or NAGs: only the importer does. */
  lemma AddMoveKeepsUnannotated(rules: Rules, t: Tree, m: MoveInput)
    requires Valid(t)
    requires Unannotated(t.root)
    ensures Unannotated(AddMove(rules, t, m).tree.root)
  {
    var cur := Current(t);
    match rules.apply(cur.fen, m)
    case None =>
    case Some(res) =>
      if FindSan(cur.children, res.san).None? {
        AppendKeepsUnannotated(t.root, t.cursor, NewNode(t.nextId, res.san, res.fen, res.from, res.to));
      }
  }

  /** Under the replay law, every node `addMove` creates is the move its SAN names. */
  lemma AddMoveKeepsConsistent(rules: Rules, t: Tree, m: MoveInput)
    requires Valid(t)
    requires ReplayStable(rules)
    requires Consistent(rules, t.root)
    ensures Consistent(rules, AddMove(rules, t, m).tree.root)
  {
    var cur := Current(t);
    match rules.apply(cur.fen, m)
    case None =>
    case Some(res) =>
      if FindSan(cur.children, res.san).None? {
        assert ReplaysAt(rules, cur.fen, m);
        AppendKeepsConsistent(rules, t.root, t.cursor, NewNode(t.nextId, res.san, res.fen, res.from, res.to));
      }
  }

  /*--------------------------------------------------------------------
   Navigation
   --------------------------------------------------------------------*/

  /** `goBack`: to the parent, or nothing at the root. */
  function GoBack(t: Tree): (r: Step)
    requires Valid(t)
    ensures Valid(r.tree)
    ensures r.tree.root == t.root && r.tree.nextId == t.nextId
    ensures |t.cursor| == 0 <==> r.node.None?
    ensures |t.cursor| == 0 ==> r == Step(t, None)
    ensures |t.cursor| > 0 ==>
              && r.tree.cursor + [t.cursor[|t.cursor| - 1]] == t.cursor
              && r.node == Some(Current(r.tree))
              && t.cursor[|t.cursor| - 1] < |Current(r.tree).children|
              && Current(r.tree).children[t.cursor[|t.cursor| - 1]] == Current(t)
  {
    if |t.cursor| == 0 then Step(t, None)
    else
      var up := t.cursor[..|t.cursor| - 1];
      PathPrefix(t.root, t.cursor, |t.cursor| - 1);
      assert t.cursor[..|t.cursor|] == t.cursor;
      assert up + [t.cursor[|t.cursor| - 1]] == t.cursor;
      var t' := t.(cursor := up);
      Step(t', Some(Current(t')))
  }

  /** `goForward(i)`: to child `i` if it exists, otherwise nothing. */
  function GoForward(t: Tree, i: int): (r: Step)
    requires Valid(t)
    ensures Valid(r.tree)
    ensures r.tree.root == t.root && r.tree.nextId == t.nextId
    ensures r.node.Some? <==> 0 <= i < |Current(t).children|
    ensures r.node.None? ==> r == Step(t, None)
    ensures r.node.Some? ==>
              && r.tree.cursor == t.cursor + [i]
              && r.node == Some(Current(t).children[i])
              && Current(r.tree) == Current(t).children[i]
  {
    if 0 <= i < |Current(t).children| then
      PathExtend(t.root, t.cursor, i);
      var t' := t.(cursor := t.cursor + [i]);
      Step(t', Some(Current(t')))
    else
      Step(t, None)
  }

  /** `goToNode(id)`: to the first node in pre-order with that id, or nothing. */
  function GoToNode(t: Tree, id: Id): (r: Step)
    requires Valid(t)
    ensures Valid(r.tree)
    ensures r.tree.root == t.root && r.tree.nextId == t.nextId
    ensures r.node.None? <==> id !in IdSet(t.root)
    ensures r.node.None? ==> r == Step(t, None)
    ensures r.node.Some? ==> && r.node == Some(Current(r.tree))
                             && Current(r.tree).id == id
  {
    match FindPath(t.root, id)
    case None => Step(t, None)
    case Some(p) =>
      var t' := t.(cursor := p);
      Step(t', Some(Current(t')))
  }

  /**
   The cursor lands on the first pre-order occurrence of the id; in a valid
   tree ids are distinct, so that is the only node carrying it.
   */
  lemma GoToNodeFirstInPreOrder(t: Tree, id: Id)
    requires Valid(t)
    requires id in IdSet(t.root)
    ensures Some(GoToNode(t, id).tree.cursor) == FirstWithId(t.root, PreOrder(t.root), id)
  {
    FindPathIsFirstInPreOrder(t.root, id);
  }

  /**
   Reference: the nodes passed on the way down from `n` (excluded) along
   `p`, the last being the node at `p`.
   */
  function Mainline(n: Node, p: Path): seq<Node>
    requires ValidPath(n, p)
    decreases p
  {
    if |p| == 0 then [] else [n.children[p[0]]] + Mainline(n.children[p[0]], p[1..])
  }

  /** Element `k` of the reference line is the node reached by the first `k+1` steps. */
  lemma {:induction false} MainlineAt(n: Node, p: Path, k: nat)
    requires ValidPath(n, p)
    requires k < |p|
    ensures |Mainline(n, p)| == |p|
    ensures ValidPath(n, p[..k + 1])
    ensures Mainline(n, p)[k] == NodeAt(n, p[..k + 1])
    decreases p
  {
    var c := n.children[p[0]];
    if k == 0 {
      MainlineLength(c, p[1..]);
      assert p[..1][1..] == [];
    } else {
      MainlineAt(c, p[1..], k - 1);
      assert p[..k + 1][1..] == p[1..][..k];
    }
  }

  lemma {:induction false} MainlineLength(n: Node, p: Path)
    requires ValidPath(n, p)
    ensures |Mainline(n, p)| == |p|
    decreases p
  {
    if |p| > 0 {
      MainlineLength(n.children[p[0]], p[1..]);
    }
  }

  /**
   The reference line starts at a child of the root, ends at the node at `p`,
   and each element is the child of the previous one named by the path.
   */
  lemma {:induction false} MainlineSteps(n: Node, p: Path)
    requires ValidPath(n, p)
    ensures |Mainline(n, p)| == |p|
    ensures |p| > 0 ==> Mainline(n, p)[0] == n.children[p[0]]
    ensures |p| > 0 ==> Mainline(n, p)[|p| - 1] == NodeAt(n, p)
    ensures forall k :: 0 <= k < |p| - 1 ==>
              p[k + 1] < |Mainline(n, p)[k].children|
              && Mainline(n, p)[k + 1] == Mainline(n, p)[k].children[p[k + 1]]
  {
    MainlineLength(n, p);
    if |p| > 0 {
      MainlineAt(n, p, |p| - 1);
      assert p[..|p|] == p;
    }
    forall k | 0 <= k < |p| - 1
      ensures p[k + 1] < |Mainline(n, p)[k].children|
              && Mainline(n, p)[k + 1] == Mainline(n, p)[k].children[p[k + 1]]
    {
      MainlineAt(n, p, k);
      MainlineAt(n, p, k + 1);
      PathPrefix(n, p, k + 1);
    }
  }

  /**
   `getMainline(node)`: like the source, walk upwards one parent at a time
   collecting nodes, then reverse. The result is the reference line.
   */
  method GetMainline(t: Tree, p: Path) returns (line: seq<Node>)
    requires ValidPath(t.root, p)
    ensures line == Mainline(t.root, p)
  {
    MainlineLength(t.root, p);
    var up: seq<Node> := [];
    var cur := p;
    while |cur| > 0
      invariant |Mainline(t.root, p)| == |p|
      invariant |cur| <= |p| && cur == p[..|cur|]
      invariant |up| == |p| - |cur|
      invariant forall k :: 0 <= k < |up| ==> up[k] == Mainline(t.root, p)[|p| - 1 - k]
    {
      MainlineAt(t.root, p, |cur| - 1);
      PathPrefix(t.root, p, |cur|);
      up := up + [NodeAt(t.root, cur)];
      cur := cur[..|cur| - 1];
    }
    line := seq(|up|, k requires 0 <= k < |up| => up[|up| - 1 - k]);
  }

  /*--------------------------------------------------------------------
   Start position, loadPgn and toPgn
   --------------------------------------------------------------------*/

  /**
   The start position `loadPgn` reads (src/lib/MoveTree.ts:122-124): the value
   of the first FEN header, or the default position when there is no FEN
   header or its value is the empty string.
   */
  function StartFen(headers: seq<Header>): (fen: string)
    ensures (forall i :: 0 <= i < |headers| ==> headers[i].name != "FEN") ==> fen == DefaultFen
    ensures forall i :: 0 <= i < |headers| && headers[i].name == "FEN"
                        && (forall j :: 0 <= j < i ==> headers[j].name != "FEN") ==>
              fen == (if headers[i].value == "" then DefaultFen else headers[i].value)
  {
    if |headers| == 0 then DefaultFen
    else if headers[0].name == "FEN" then
      (if headers[0].value == "" then DefaultFen else headers[0].value)
    else
      assert forall i :: 1 <= i < |headers| ==> headers[i] == headers[1..][i - 1];
      StartFen(headers[1..])
  }

  /**
   `loadPgn`: with no parsed game nothing changes. Otherwise the tree is
   replaced by a fresh `"start"` root at the game's start position, the game's
   moves are imported under it, and the cursor goes to the root. A start
   position the rules library rejects makes the source throw before any
   change; that is the error result here.
   */
  function LoadPgn(rules: Rules, t: Tree, games: seq<Game>): (r: Result<Tree, Error>)
    ensures |games| == 0 ==> r == Ok(t)
    ensures |games| > 0 ==> (r.Err? <==> !rules.acceptsFen(StartFen(games[0].headers)))
    ensures |games| > 0 && r.Err? ==> r.error == InvalidFen(StartFen(games[0].headers))
    ensures |games| > 0 && r.Ok? ==>
              && Valid(r.value)
              && r.value.cursor == []
              && r.value.root.fen == StartFen(games[0].headers)
              && r.value.root.id == t.nextId
              && r.value.root.children
                 == BuildLine(rules, r.value.root.fen, games[0].moves, t.nextId + 1).nodes
  {
    if |games| == 0 then Ok(t)
    else
      var fen := StartFen(games[0].headers);
      if !rules.acceptsFen(fen) then Err(InvalidFen(fen))
      else
        var b := BuildLine(rules, fen, games[0].moves, t.nextId + 1);
        var root := StartNode(t.nextId, fen).(children := b.nodes);
        ImportIds(rules, fen, games[0].moves, t.nextId + 1);
        RangeSize(t.nextId + 1, b.next);
        assert IdSet(root) == {t.nextId} + Range(t.nextId + 1, b.next);
        Ok(Tree(root, [], b.next))
  }

  /** The headers `toPgn` writes: `FEN` and `SetUp` exactly when the root is not the default position. */
  function FenHeaders(fen: string): (hs: seq<Header>)
    ensures |hs| > 0 <==> fen != DefaultFen
    ensures fen != DefaultFen ==> hs == [Header("FEN", fen), Header("SetUp", "1")]
  {
    if fen != DefaultFen then [Header("FEN", fen), Header("SetUp", "1")] else []
  }

  /** The start position survives writing the headers and reading them back. */
  lemma StartFenRoundTrip(fen: string)
    requires fen != ""
    ensures StartFen(FenHeaders(fen)) == fen
  {
  }

  /**
   `toPgn`: the game handed to the PGN writer. Its moves come from the
   corrected exporter `ExportMoves`; the source's own `buildPgnMoves` drops
   the first move of every variation (see `Exporter.BuildPgnMoves`).
   */
  function ToPgn(t: Tree): (g: Game)
    ensures g.headers == FenHeaders(t.root.fen)
    ensures g.moves == ExportMoves(t.root)
    ensures EntryCount(g.moves) == Size(t.root) - 1
  {
    ExportEntryCount(t.root);
    Game(FenHeaders(t.root.fen), ExportMoves(t.root))
  }

  /**
   `toPgn` as the source writes it, over `buildPgnMoves`: every node below
   the root is written except the variation children, whose moves are lost.
   */
  function ToPgnAsWritten(t: Tree): (g: Game)
    ensures g.headers == FenHeaders(t.root.fen)
    ensures g.moves == BuildPgnMoves(t.root)
    ensures EntryCount(g.moves) + Branches(t.root) == Size(t.root) - 1
  {
    AsWrittenEntryCount(t.root);
    Game(FenHeaders(t.root.fen), BuildPgnMoves(t.root))
  }

  /** The source's `toPgn` writes the corrected game exactly when the tree has no variation. */
  lemma AsWrittenToPgnAgrees(t: Tree)
    ensures ToPgnAsWritten(t) == ToPgn(t) <==> Linear(t.root)
  {
    if Linear(t.root) {
      LinearExportsAgree(t.root);
    } else if Branches(t.root) == 0 {
      NoBranchesIsLinear(t.root);
    }
  }
}
