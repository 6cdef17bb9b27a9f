/**
 The PGN importer: `buildTreeFromParsed` (src/lib/MoveTree.ts:132-157).

 The source pushes nodes onto a parent and never looks at the parent's
 existing children (it does not reuse a same-SAN sibling), so processing a
 move list against a parent is fully described by the sequence of nodes it
 appends there. `BuildLine` returns that sequence: the node for the first
 entry, followed by the nodes its variations append to the same parent. Ids
 come from a counter, in the order the source calls `createNode`.
 */
module Importer {
  import opened Wrappers
  import opened MoveNode
  import opened Rules
  import opened Pgn

  /** Nodes to append to the parent, and the next unused id. */
  datatype Built = Built(nodes: seq<Node>, next: Id)

  /** The ids `lo, lo + 1, ..., hi - 1`. */
  function Range(lo: Id, hi: Id): (s: set<Id>)
    ensures forall x :: x in s <==> lo <= x < hi
    decreases hi - lo
  {
    if hi <= lo then {} else {lo} + Range(lo + 1, hi)
  }

  lemma {:induction false} RangeSize(lo: Id, hi: Id)
    requires lo <= hi
    ensures |Range(lo, hi)| == hi - lo
    decreases hi - lo
  {
    if lo < hi {
      RangeSize(lo + 1, hi);
      assert Range(lo, hi) == {lo} + Range(lo + 1, hi);
    } else {
      assert Range(lo, hi) == {};
    }
  }

  /**
   Node `n` is what `createNode` makes for entry `m` played as `res`: the
   oracle's SAN, FEN and squares, and the entry's comment and nags verbatim.
   */
  predicate Records(n: Node, res: MoveResult, m: PgnMove)
  {
    && n.san == res.san && n.fen == res.fen
    && n.from == res.from && n.to == res.to
    && n.comment == m.comment && n.nags == m.nags
  }

  /**
   The nodes `buildTreeFromParsed(moves, parent)` appends to a parent whose
   position is `fen`, drawing ids from `next` on.
   */
  function BuildLine(rules: Rules, fen: string, moves: seq<PgnMove>, next: Id): (b: Built)
    ensures next <= b.next
    ensures |moves| == 0 ==> b == Built([], next)
    ensures |moves| > 0 && rules.apply(fen, San(moves[0].notation)).None? ==> b == Built([], next)
    ensures |moves| > 0 && rules.apply(fen, San(moves[0].notation)).Some? ==>
              && |b.nodes| >= 1
              && b.nodes[0].id == next
              && Records(b.nodes[0], rules.apply(fen, San(moves[0].notation)).value, moves[0])
    decreases moves
  {
    if |moves| == 0 then Built([], next)
    else
      match rules.apply(fen, San(moves[0].notation))
      case None => Built([], next)
      case Some(res) =>
        var vars := BuildVariations(rules, fen, moves[0].variations, next + 1);
        var rest := BuildLine(rules, res.fen, moves[1..], vars.next);
        var head := Node(next, res.san, res.fen, res.from, res.to,
                         moves[0].comment, moves[0].nags, rest.nodes);
        Built([head] + vars.nodes, rest.next)
  }

  /**
   The nodes the variations of one entry append to the SAME parent as the
   entry, in source order, each variation starting from position `fen`.
   */
  function BuildVariations(rules: Rules, fen: string, vs: seq<Line>, next: Id): (b: Built)
    ensures next <= b.next
    decreases vs
  {
    if |vs| == 0 then Built([], next)
    else
      var first := BuildLine(rules, fen, vs[0].moves, next);
      var others := BuildVariations(rules, fen, vs[1..], first.next);
      Built(first.nodes + others.nodes, others.next)
  }

  /** One step of `BuildLine` on an accepted first entry. */
  lemma BuildLineAccepted(rules: Rules, fen: string, moves: seq<PgnMove>, next: Id, res: MoveResult)
    requires |moves| > 0
    requires rules.apply(fen, San(moves[0].notation)) == Some(res)
    ensures var vars := BuildVariations(rules, fen, moves[0].variations, next + 1);
            var rest := BuildLine(rules, res.fen, moves[1..], vars.next);
            BuildLine(rules, fen, moves, next)
            == Built([Node(next, res.san, res.fen, res.from, res.to, moves[0].comment, moves[0].nags, rest.nodes)]
                     + vars.nodes, rest.next)
  {
  }

  /** One step of `BuildVariations` on a non-empty list of variations. */
  lemma BuildVariationsCons(rules: Rules, fen: string, vs: seq<Line>, next: Id)
    requires |vs| > 0
    ensures var first := BuildLine(rules, fen, vs[0].moves, next);
            var others := BuildVariations(rules, fen, vs[1..], first.next);
            BuildVariations(rules, fen, vs, next) == Built(first.nodes + others.nodes, others.next)
  {
  }

  /**
   The importer draws one id per node it creates, in one contiguous run of
   the supply: the ids of the appended subtrees are exactly `next` up to the
   returned next id.
   */
  lemma {:induction false} ImportIds(rules: Rules, fen: string, moves: seq<PgnMove>, next: Id)
    ensures var b := BuildLine(rules, fen, moves, next);
            && SizeAll(b.nodes) == b.next - next
            && IdSetAll(b.nodes) == Range(next, b.next)
    decreases moves, 1
  {
    if |moves| > 0 {
      match rules.apply(fen, San(moves[0].notation))
      case None =>
      case Some(res) =>
        var vars := BuildVariations(rules, fen, moves[0].variations, next + 1);
        var rest := BuildLine(rules, res.fen, moves[1..], vars.next);
        ImportVariationsIds(rules, fen, moves[0].variations, next + 1);
        ImportIds(rules, res.fen, moves[1..], vars.next);
        var head := Node(next, res.san, res.fen, res.from, res.to,
                         moves[0].comment, moves[0].nags, rest.nodes);
        BuildLineAccepted(rules, fen, moves, next, res);
        SizeAllConcat([head], vars.nodes);
        IdSetAllConcat([head], vars.nodes);
        SizeAllSingle(head);
        assert IdSet(head) == {next} + Range(vars.next, rest.next);
        assert Range(next, rest.next) == {next} + Range(next + 1, vars.next) + Range(vars.next, rest.next);
    }
  }

  lemma {:induction false} ImportVariationsIds(rules: Rules, fen: string, vs: seq<Line>, next: Id)
    ensures var b := BuildVariations(rules, fen, vs, next);
            && SizeAll(b.nodes) == b.next - next
            && IdSetAll(b.nodes) == Range(next, b.next)
    decreases vs, 0
  {
    if |vs| > 0 {
      var first := BuildLine(rules, fen, vs[0].moves, next);
      var others := BuildVariations(rules, fen, vs[1..], first.next);
      ImportIds(rules, fen, vs[0].moves, next);
      ImportVariationsIds(rules, fen, vs[1..], first.next);
      BuildVariationsCons(rules, fen, vs, next);
      SizeAllConcat(first.nodes, others.nodes);
      IdSetAllConcat(first.nodes, others.nodes);
      assert Range(next, others.next) == Range(next, first.next) + Range(first.next, others.next);
    }
  }

  /** Imported nodes have pairwise distinct ids. */
  lemma ImportedIdsUnique(rules: Rules, fen: string, moves: seq<PgnMove>, next: Id)
    ensures var b := BuildLine(rules, fen, moves, next);
            |IdSetAll(b.nodes)| == SizeAll(b.nodes)
  {
    var b := BuildLine(rules, fen, moves, next);
    ImportIds(rules, fen, moves, next);
    RangeSize(next, b.next);
  }

  /**
   Under the oracle's replay law, every imported node is the move its SAN
   names from its parent's position: the imported tree is consistent.
   */
  lemma {:induction false} ImportConsistent(rules: Rules, fen: string, moves: seq<PgnMove>, next: Id)
    requires ReplayStable(rules)
    ensures ConsistentAll(rules, fen, BuildLine(rules, fen, moves, next).nodes)
    decreases moves, 1
  {
    if |moves| > 0 {
      var m := San(moves[0].notation);
      match rules.apply(fen, m)
      case None =>
      case Some(res) =>
        var vars := BuildVariations(rules, fen, moves[0].variations, next + 1);
        var rest := BuildLine(rules, res.fen, moves[1..], vars.next);
        ImportVariationsConsistent(rules, fen, moves[0].variations, next + 1);
        ImportConsistent(rules, res.fen, moves[1..], vars.next);
        assert ReplaysAt(rules, fen, m);
        var head := Node(next, res.san, res.fen, res.from, res.to,
                         moves[0].comment, moves[0].nags, rest.nodes);
        assert ConsistentAll(rules, fen, [head]);
        ConsistentAllConcat(rules, fen, [head], vars.nodes);
    }
  }

  lemma {:induction false} ImportVariationsConsistent(rules: Rules, fen: string, vs: seq<Line>, next: Id)
    requires ReplayStable(rules)
    ensures ConsistentAll(rules, fen, BuildVariations(rules, fen, vs, next).nodes)
    decreases vs, 0
  {
    if |vs| > 0 {
      var first := BuildLine(rules, fen, vs[0].moves, next);
      var others := BuildVariations(rules, fen, vs[1..], first.next);
      ImportConsistent(rules, fen, vs[0].moves, next);
      ImportVariationsConsistent(rules, fen, vs[1..], first.next);
      ConsistentAllConcat(rules, fen, first.nodes, others.nodes);
    }
  }

  /** The importer never creates more nodes than the move list has entries. */
  lemma {:induction false} ImportSizeBound(rules: Rules, fen: string, moves: seq<PgnMove>, next: Id)
    ensures SizeAll(BuildLine(rules, fen, moves, next).nodes) <= EntryCount(moves)
    decreases moves, 1
  {
    if |moves| > 0 {
      match rules.apply(fen, San(moves[0].notation))
      case None =>
      case Some(res) =>
        var vars := BuildVariations(rules, fen, moves[0].variations, next + 1);
        ImportVariationsSizeBound(rules, fen, moves[0].variations, next + 1);
        ImportSizeBound(rules, res.fen, moves[1..], vars.next);
    }
  }

  lemma {:induction false} ImportVariationsSizeBound(rules: Rules, fen: string, vs: seq<Line>, next: Id)
    ensures SizeAll(BuildVariations(rules, fen, vs, next).nodes) <= VariationEntryCount(vs)
    decreases vs, 0
  {
    if |vs| > 0 {
      var first := BuildLine(rules, fen, vs[0].moves, next);
      var others := BuildVariations(rules, fen, vs[1..], first.next);
      BuildVariationsCons(rules, fen, vs, next);
      SizeAllConcat(first.nodes, others.nodes);
      ImportSizeBound(rules, fen, vs[0].moves, next);
      ImportVariationsSizeBound(rules, fen, vs[1..], first.next);
    }
  }

  /**
   The position reached before entry `k` of a move list, following the list's
   own moves from `fen`; `None` once some earlier entry was rejected.
   */
  function PositionBefore(rules: Rules, fen: string, moves: seq<PgnMove>, k: nat): Option<string>
    requires k <= |moves|
    decreases k
  {
    if k == 0 then Some(fen)
    else
      match rules.apply(fen, San(moves[0].notation))
      case None => None
      case Some(res) => PositionBefore(rules, res.fen, moves[1..], k - 1)
  }

  /** The move entry `k` plays from the position the list has reached; `None` once the line is cut. */
  function PlayedAt(rules: Rules, fen: string, moves: seq<PgnMove>, k: nat): Option<MoveResult>
    requires k < |moves|
  {
    match PositionBefore(rules, fen, moves, k)
    case None => None
    case Some(p) => rules.apply(p, San(moves[k].notation))
  }

  /** The position after entry `k` is the FEN of the move entry `k` plays. */
  lemma {:induction false} PositionBeforeStep(rules: Rules, fen: string, moves: seq<PgnMove>, k: nat)
    requires k < |moves|
    ensures PositionBefore(rules, fen, moves, k + 1)
            == match PlayedAt(rules, fen, moves, k)
               case None => None
               case Some(r) => Some(r.fen)
    decreases k
  {
    if k > 0 {
      match rules.apply(fen, San(moves[0].notation))
      case None =>
      case Some(res) =>
        assert moves[1..][k - 1] == moves[k];
        PositionBeforeStep(rules, res.fen, moves[1..], k - 1);
    }
  }

  /** A line is played up to some entry only if every earlier entry was played. */
  lemma {:induction false} PlayedPrefix(rules: Rules, fen: string, moves: seq<PgnMove>, k: nat, j: nat)
    requires k <= j < |moves|
    requires PlayedAt(rules, fen, moves, j).Some?
    ensures PlayedAt(rules, fen, moves, k).Some?
    decreases j - k
  {
    if k < j {
      PositionBeforeStep(rules, fen, moves, j - 1);
      PlayedPrefix(rules, fen, moves, k, j - 1);
    }
  }

  /**
   The remaining entries hang under the node of the first one, as its
   `children[0]` chain: the mainline below that node is exactly as long as
   the run of entries the oracle accepts, and its `k`-th node records the
   `k`-th entry as played from the position the line has reached.
   */
  lemma {:induction false} ImportMainline(rules: Rules, fen: string, moves: seq<PgnMove>, next: Id)
    ensures var b := BuildLine(rules, fen, moves, next);
            |b.nodes| > 0 <==> |moves| > 0 && PlayedAt(rules, fen, moves, 0).Some?
    ensures var b := BuildLine(rules, fen, moves, next);
            |b.nodes| > 0 ==>
              && MainDepth(b.nodes[0]) < |moves|
              && (forall k :: 0 <= k < |moves| ==>
                    (k <= MainDepth(b.nodes[0]) <==> PlayedAt(rules, fen, moves, k).Some?))
              && (forall k :: 0 <= k <= MainDepth(b.nodes[0]) ==>
                    Records(MainNode(b.nodes[0], k), PlayedAt(rules, fen, moves, k).value, moves[k]))
    decreases moves
  {
    if |moves| > 0 {
      match rules.apply(fen, San(moves[0].notation))
      case None =>
      case Some(res) =>
        var vars := BuildVariations(rules, fen, moves[0].variations, next + 1);
        var rest := BuildLine(rules, res.fen, moves[1..], vars.next);
        var head := Node(next, res.san, res.fen, res.from, res.to, moves[0].comment, moves[0].nags, rest.nodes);
        BuildLineAccepted(rules, fen, moves, next, res);
        assert BuildLine(rules, fen, moves, next).nodes[0] == head;
        ImportMainline(rules, res.fen, moves[1..], vars.next);
        forall k | 1 <= k < |moves|
          ensures PlayedAt(rules, fen, moves, k) == PlayedAt(rules, res.fen, moves[1..], k - 1)
        {
          assert moves[1..][k - 1] == moves[k];
        }
        if |rest.nodes| == 0 {
          forall k | 1 <= k < |moves|
            ensures PlayedAt(rules, fen, moves, k).None?
          {
            if PlayedAt(rules, res.fen, moves[1..], k - 1).Some? {
              PlayedPrefix(rules, res.fen, moves[1..], 0, k - 1);
            }
          }
        } else {
          forall k | 1 <= k <= MainDepth(head)
            ensures MainNode(head, k) == MainNode(rest.nodes[0], k - 1)
          {
          }
        }
    }
  }

  /** A line the oracle accepts to the end imports as a mainline of the same length. */
  lemma ImportWholeLine(rules: Rules, fen: string, moves: seq<PgnMove>, next: Id)
    requires |moves| > 0
    requires PositionBefore(rules, fen, moves, |moves|).Some?
    ensures var b := BuildLine(rules, fen, moves, next);
            |b.nodes| > 0 && MainDepth(b.nodes[0]) == |moves| - 1
  {
    PositionBeforeStep(rules, fen, moves, |moves| - 1);
    PlayedPrefix(rules, fen, moves, 0, |moves| - 1);
    ImportMainline(rules, fen, moves, next);
  }

  /**
   An entry the oracle rejects ends its line: the importer builds exactly
   what it builds for the list cut just before that entry, so the entry, its
   variations and every later entry are dropped.
   */
  lemma {:induction false} RejectedEntryEndsLine(rules: Rules, fen: string, moves: seq<PgnMove>, k: nat, next: Id)
    requires k < |moves|
    requires PositionBefore(rules, fen, moves, k).Some?
    requires rules.apply(PositionBefore(rules, fen, moves, k).value, San(moves[k].notation)).None?
    ensures BuildLine(rules, fen, moves, next) == BuildLine(rules, fen, moves[..k], next)
    decreases k
  {
    if k > 0 {
      var res := rules.apply(fen, San(moves[0].notation)).value;
      var vars := BuildVariations(rules, fen, moves[0].variations, next + 1);
      assert moves[..k][0] == moves[0];
      assert moves[..k][1..] == moves[1..][..k - 1];
      RejectedEntryEndsLine(rules, res.fen, moves[1..], k - 1, vars.next);
    }
  }

  /*--------------------------------------------------------------------
   Where the imported nodes go: the order of a parent's children
   --------------------------------------------------------------------*/

  /** The SANs of a sequence of nodes, in order. */
  function Sans(ns: seq<Node>): (r: seq<string>)
    ensures |r| == |ns|
    ensures forall i :: 0 <= i < |ns| ==> r[i] == ns[i].san
  {
    seq(|ns|, i requires 0 <= i < |ns| => ns[i].san)
  }

  /**
   Reference order of the alternatives a move list offers at its first ply:
   the first entry's move, then (depth-first, in source order) every
   alternative its variations offer, stopping at a move the oracle rejects.
   */
  function LineHeads(rules: Rules, fen: string, moves: seq<PgnMove>): seq<string>
    decreases moves
  {
    if |moves| == 0 then []
    else
      match rules.apply(fen, San(moves[0].notation))
      case None => []
      case Some(res) => [res.san] + VariationHeads(rules, fen, moves[0].variations)
  }

  function VariationHeads(rules: Rules, fen: string, vs: seq<Line>): seq<string>
    decreases vs
  {
    if |vs| == 0 then [] else LineHeads(rules, fen, vs[0].moves) + VariationHeads(rules, fen, vs[1..])
  }

  /**
   The importer appends to the parent exactly the alternatives of the
   reference order: the mainline move first, then the variations' moves in
   source order, nested variations flattened into the same parent.
   */
  lemma {:induction false} ImportChildOrder(rules: Rules, fen: string, moves: seq<PgnMove>, next: Id)
    ensures Sans(BuildLine(rules, fen, moves, next).nodes) == LineHeads(rules, fen, moves)
    decreases moves, 1
  {
    if |moves| > 0 {
      match rules.apply(fen, San(moves[0].notation))
      case None =>
      case Some(res) =>
        var vars := BuildVariations(rules, fen, moves[0].variations, next + 1);
        var rest := BuildLine(rules, res.fen, moves[1..], vars.next);
        var head := Node(next, res.san, res.fen, res.from, res.to, moves[0].comment, moves[0].nags, rest.nodes);
        BuildLineAccepted(rules, fen, moves, next, res);
        ImportVariationsChildOrder(rules, fen, moves[0].variations, next + 1);
        SansConcat([head], vars.nodes);
    }
  }

  lemma {:induction false} ImportVariationsChildOrder(rules: Rules, fen: string, vs: seq<Line>, next: Id)
    ensures Sans(BuildVariations(rules, fen, vs, next).nodes) == VariationHeads(rules, fen, vs)
    decreases vs, 0
  {
    if |vs| > 0 {
      var first := BuildLine(rules, fen, vs[0].moves, next);
      var others := BuildVariations(rules, fen, vs[1..], first.next);
      BuildVariationsCons(rules, fen, vs, next);
      ImportChildOrder(rules, fen, vs[0].moves, next);
      ImportVariationsChildOrder(rules, fen, vs[1..], first.next);
      SansConcat(first.nodes, others.nodes);
    }
  }

  lemma SansConcat(a: seq<Node>, b: seq<Node>)
    ensures Sans(a + b) == Sans(a) + Sans(b)
  {
  }
}
