# Chess move tree — a Dafny model

This project models the branching move tree of a chess analysis library:
the `MoveTree` class (`src/lib/MoveTree.ts`) over the node record `MoveNode`
(`src/lib/MoveNode.ts`). A tree has a synthetic `"start"` root at some
position. Every other node is a move with its canonical SAN, the resulting
FEN, its from/to squares, and an optional comment and NAG list. Each node has
an ordered list of children. `children[0]` is the mainline continuation and
`children[1..]` are variations. A cursor (`currentNode`) marks where the next
move is played.

The model is functional:

- Nodes form an immutable recursive datatype, so the tree is a strict rooted
  tree by construction.
- The cursor is the path of child indices from the root. It replaces parent
  links: `goBack` drops the last index.
- Every operation returns the new tree and the node the source returns.
  `None` stands for `null`, and `Result` for a thrown exception.
- Ids come from a counter (`nextId`) instead of `Math.random`.

The chess rules library (chess.js) is an abstract oracle `Rules`:

- `apply(fen, input)` is loading the FEN and playing the move. It gives the
  canonical SAN, the new FEN and the squares, or `None` when the move is
  illegal or chess.js throws.
- `acceptsFen` says whether `new Chess(fen)` succeeds.
- The only law assumed about the oracle is `ReplayStable`: replaying the SAN
  it returned, from the same position, gives back the same move. It is a
  hypothesis of the lemmas that need it, never an axiom.

The PGN reader and writer are treated as producers and consumers of the
parsed move-list datatype `Pgn.Game` / `Pgn.PgnMove` / `Pgn.Line`.

Modules:

- `Wrappers`: `Option` and `Result`.
- `MoveNode`: the node record, paths, size, ids, and the append-only growth
  relation `Extends`.
- `Rules`: the oracle and tree consistency.
- `Pgn`: the parsed move list.
- `Importer`: `buildTreeFromParsed`.
- `Exporter`: `buildPgnMoves` as written, and corrected.
- `RoundTrip`: importing an export.
- `Search`: the depth-first lookup of `goToNode`.
- `MoveTree`: the class itself.
- `Session`: arbitrary sequences of public calls.
- `Scenarios`: the source's test scenarios, stated over a toy oracle.

Points worth knowing about the code:

- Unlike `addMove` (`src/lib/MoveTree.ts:42-48`), the importer never reuses
  a sibling with the same SAN. It always pushes a new node
  (`src/lib/MoveTree.ts:148`). See `Scenarios.ImportKeepsDuplicateSans`.
- The source's own test (`src/lib/MoveTree.test.ts:132-141`) expects `toPgn`
  to write a variation back. As written, the exporter loses the first move of
  every variation (see Findings), so a save-and-reload round trip holds only
  for trees without variations (`RoundTrip.LinearRoundTrip`). With the
  corrected exporter it holds for every tree consistent with the oracle
  (`Session.PgnRoundTrip`).
- Move numbering (`1...` prefixes) is left to the PGN writer library. The
  code computes none, so none is modelled.
- The toy oracle of `Scenarios` satisfies the replay law
  (`Scenarios.ToyReplayStable`), so the lemmas that assume `ReplayStable` do
  not hold vacuously.

## Model

| member | source | states |
|---|---|---|
| `MoveTree.Create` | src/lib/MoveTree.ts:13-19 | The constructor succeeds exactly when the rules library accepts the FEN; otherwise the error names that FEN. On success the tree is a lone `"start"` root (squares `"a0"`) at that FEN, the cursor is on it, and the tree is well formed. |
| `MoveTree.AddMove` | src/lib/MoveTree.ts:31-59 | A move the oracle rejects leaves the tree, cursor and id supply unchanged and returns nothing. An accepted move whose SAN some child of the cursor already has moves the cursor to the FIRST such child, with the root and id supply untouched. Any other accepted move appends a fresh node as the LAST child of the cursor node, with the next id and the oracle's SAN, FEN and squares, and no comment or nags; the cursor moves to it and the size grows by one. In every case the tree only grows by appending (`Extends`) and stays well formed. |
| `MoveTree.FindSan` | src/lib/MoveTree.ts:42-44 | The result is the index of the first child with the given SAN, and it is absent exactly when no child has that SAN. |
| `MoveTree.AddMoveKeepsDistinctSans` | src/lib/MoveTree.ts:42-58 | `addMove` never creates two siblings with the same SAN. |
| `MoveTree.AddMoveKeepsUnannotated` | src/lib/MoveTree.ts:21-29 | Nodes created by `addMove` carry no comment and no nags, so a tree without annotations stays without them. |
| `MoveTree.AddMoveKeepsConsistent` | src/lib/MoveTree.ts:34-58 | Under the replay law, every edge `addMove` creates is the move its SAN names from the parent's FEN. |
| `MoveNode.AppendChildAt` | src/lib/MoveTree.ts:49-57 | Pushing a node onto the children of the node at a path keeps that path valid. The pushed node becomes the last child and every earlier child stays in place. Every other node keeps its place and data (`Extends`). The size grows by the pushed subtree's size, and the ids are the old ids plus the new ones. |
| `MoveTree.GoBack` | src/lib/MoveTree.ts:61-68 | At the root, `goBack` returns nothing and changes nothing. Otherwise the cursor becomes the parent, the returned node is the parent, and the old current node is the parent's child at the dropped index. |
| `MoveTree.GoForward` | src/lib/MoveTree.ts:70-78 | `goForward(i)` succeeds exactly when `0 <= i < |children|` and lands on `children[i]`. Otherwise it returns nothing and changes nothing. |
| `MoveTree.GoToNode` | src/lib/MoveTree.ts:80-95 | `goToNode(id)` returns nothing and changes nothing exactly when no node has the id. Otherwise the cursor moves to a node with that id and that node is returned. |
| `MoveTree.GoToNodeFirstInPreOrder` | src/lib/MoveTree.ts:80-95 | In a well-formed tree, `goToNode(id)` puts the cursor on the first node carrying the id in a pre-order scan of the tree. |
| `Search.FindPath` | src/lib/MoveTree.ts:81-88 | The recursive search returns a valid path to a node with the id, and fails exactly when the id is absent from the subtree. |
| `Search.FindPathIsFirstInPreOrder` | src/lib/MoveTree.ts:81-88 | The recursive search returns the same path as a linear scan of the pre-order listing of all paths: the first pre-order node carrying the id. |
| `MoveTree.GetMainline` | src/lib/MoveTree.ts:97-105 | The upward walk (push the node, step to the parent, stop at the root) followed by the reversal returns exactly the reference line `Mainline`, which is the nodes met going down from the root along the path. |
| `MoveTree.MainlineAt` | src/lib/MoveTree.ts:97-105 | The line has one node per path step, and element `k` is the node reached by the first `k+1` steps from the root. |
| `MoveTree.MainlineSteps` | src/lib/MoveTree.ts:97-105 | The line starts at a child of the root and ends at the given node. Each element is the child of the previous one named by the path, and the root yields the empty line. |
| `MoveTree.StartFen` | src/lib/MoveTree.ts:122-124 | The start position is the value of the first `FEN` header. It is the default position when there is no `FEN` header or the value is the empty string. |
| `MoveTree.LoadPgn` | src/lib/MoveTree.ts:117-130 | With no parsed game nothing changes. A start position the rules library rejects is an error naming that FEN. Otherwise the result is a fresh `"start"` root at that FEN whose children are what the importer builds, with the cursor on the root; the tree is well formed with distinct ids. |
| `MoveTree.FenHeaders` | src/lib/MoveTree.ts:161-168 | `FEN` and `SetUp` headers are written exactly when the root's FEN differs from the default position. |
| `MoveTree.StartFenRoundTrip` | src/lib/MoveTree.ts:122-124 | Reading the start position back from the headers `toPgn` writes gives the root's FEN, for every non-empty FEN. |
| `MoveTree.ToPgnAsWritten` | src/lib/MoveTree.ts:159-171 | The source's `toPgn` hands the writer the FEN headers and `buildPgnMoves(root)`. Its entries, counting variations, number the nodes below the root minus the variation children. |
| `MoveTree.ToPgn` | src/lib/MoveTree.ts:159-171 | `toPgn` with the corrected exporter: the same headers, and the moves of `Exporter.ExportMoves`, with exactly one entry per node below the root. |
| `MoveTree.AsWrittenToPgnAgrees` | src/lib/MoveTree.ts:159-188 | The source's `toPgn` and the corrected one hand the writer the same game exactly when no node of the tree has a variation. |
| `Importer.BuildLine` | src/lib/MoveTree.ts:132-157 | An empty list, or a first entry the oracle rejects, adds nothing. Otherwise the first node appended has the next id, the oracle's SAN, FEN and squares, and the entry's comment and nags verbatim. |
| `Importer.ImportMainline` | src/lib/MoveTree.ts:132-157 | The remaining entries hang under the first entry's node as its `children[0]` chain. That chain is as long as the run of entries the oracle accepts, and its `k`-th node records entry `k` as played from the position the line has reached: the oracle's SAN, FEN and squares, and the entry's comment and nags. |
| `Importer.ImportWholeLine` | src/lib/MoveTree.ts:132-157 | A list the oracle accepts to its end imports as a first node with exactly `|moves| - 1` mainline steps below it. |
| `Importer.ImportIds` | src/lib/MoveTree.ts:139-152 | The importer draws one id per node it creates, in one contiguous run of the supply starting at the next id. |
| `Importer.ImportChildOrder` | src/lib/MoveTree.ts:148-151 | The children appended to a parent are, in order: the mainline move first, then the alternatives of the variations in source order, with nested variations flattened into the same parent. This matches a reference ordering over SANs that ignores the rest of each line, so later entries never reach the parent. |
| `Importer.RejectedEntryEndsLine` | src/lib/MoveTree.ts:136-156 | An entry the oracle rejects, from the position the line has reached, ends the line. The importer builds exactly what it builds for the list cut before that entry, so the entry, its variations and all later entries are dropped. |
| `Importer.ImportedIdsUnique` | src/lib/MoveTree.ts:139-145 | Imported nodes carry pairwise distinct ids. |
| `Importer.ImportConsistent` | src/lib/MoveTree.ts:134-152 | Under the replay law, every imported edge is the move its SAN names from the parent's position, including variations that start from the parent's position. |
| `Importer.ImportSizeBound` | src/lib/MoveTree.ts:132-157 | The importer never creates more nodes than the move list has entries, counting variations. |
| `Exporter.BuildPgnMoves` | src/lib/MoveTree.ts:173-188 | The output has one entry per `children[0]` step below the node. Entry `k` carries the SAN, comment and nags of the `k+1`-th mainline node, and one variation per non-first child of the `k`-th. |
| `Exporter.AsWrittenVariationSkipsHead` | src/lib/MoveTree.ts:182-185 | As written, variation `i` of entry `k` is the export of child `i+1`'s subtree starting from that child's own children, so the variation's first move never appears. |
| `Exporter.AsWrittenEntryCount` | src/lib/MoveTree.ts:173-188 | As written, the number of entries written is the number of nodes below the root minus the number of variation children. |
| `Exporter.ExportMoves` | src/lib/MoveTree.ts:173-188 | The corrected exporter has the same mainline shape as the source's: one entry per `children[0]` step, where entry `k` carries the SAN, comment and nags of the `k+1`-th mainline node and one variation per non-first child of the `k`-th. |
| `Exporter.ExportVariationKeepsHead` | src/lib/MoveTree.ts:182-185 | In the corrected exporter, variation `i` of entry `k` is the `i+1`-th child's own move followed by the export of that child's subtree, so the variation's first move is kept. |
| `Exporter.ExportEntryCount` | src/lib/MoveTree.ts:173-188 | The corrected exporter writes exactly one entry per node below the root. |
| `Exporter.LinearExportsAgree` | src/lib/MoveTree.ts:182-185 | On trees whose nodes have at most one child each, the source's exporter and the corrected one agree. |
| `RoundTrip.LinearRoundTrip` | src/lib/MoveTree.ts:132-188 | For a consistent tree without variations, importing the source's export under the same root position reproduces every SAN, FEN, square, comment and nags, in order, up to ids. |
| `RoundTrip.AsWrittenLosesMoves` | src/lib/MoveTree.ts:173-188 | For every tree with a variation anywhere, importing the source's export yields strictly fewer nodes than the tree has. |
| `RoundTrip.ExportThenImport` | src/lib/MoveTree.ts:132-157 | For every consistent tree, importing the corrected export reproduces the children exactly, up to ids. |
| `Session.TranspositionMerge` | src/lib/MoveTree.ts:42-48 | Playing a move, going back and playing the same input again returns the same step: same tree, same cursor, no new node. |
| `Session.RunKeepsDistinctSans` | src/lib/MoveTree.ts:31-95 | Any sequence of `addMove`, `goBack`, `goForward` and `goToNode` calls preserves distinct sibling SANs. |
| `Session.RunKeepsUnannotated` | src/lib/MoveTree.ts:31-95 | Such a sequence creates no comment or nags. |
| `Session.RunKeepsConsistent` | src/lib/MoveTree.ts:31-95 | Under the replay law, such a sequence keeps every edge a move the oracle accepts. |
| `Session.Run` | src/lib/MoveTree.ts:31-95 | Such a sequence keeps the tree well formed, and nodes are only appended: ids, moves, comments and nags never change, and children never move. |
| `Session.PgnRoundTrip` | src/lib/MoveTree.ts:117-171 | Loading the game `toPgn` writes (with the corrected exporter) succeeds, puts the cursor on the root, and reproduces the root position and every move, comment, nag and child order. |
| `Session.SessionRoundTrip` | src/lib/MoveTree.ts:13-171 | Every tree built from an accepted start position by public calls has distinct sibling SANs and no annotations, and survives the corrected `toPgn` followed by `loadPgn`. |
| `Scenarios.AsWrittenExportOfTestTree` | src/lib/MoveTree.test.ts:132-141 | In the test's tree (e4 e5, back twice, d4), the source's exporter hands the writer e4 with one empty variation, then e5: the d4 move is gone. Importing that gives e4 and e5 only, out of 3 moves. |
| `Scenarios.ExportOfTestTree` | src/lib/MoveTree.test.ts:132-141 | The corrected exporter writes exactly the parsed form of `1. e4 (1. d4) 1... e5`, which the test expects. |
| `Scenarios.TestTreeShape` | src/lib/MoveTree.test.ts:132-138 | The test's calls build a root with e4 (continued by e5) and then d4, with the cursor on d4. |
| `Scenarios.LoadTestGame` | src/lib/MoveTree.test.ts:121-130 | Loading `1. e4 (1. d4) 1... e5` gives the root exactly two children, e4 then d4, with e5 continuing e4. |
| `Scenarios.ImportKeepsDuplicateSans` | src/lib/MoveTree.ts:148 | Loading `1. e4 (1. e4)` gives the root two distinct e4 children, so imported trees can break the sibling-SAN uniqueness that `addMove` keeps. |

## Left out

- Chess rules: legality, FEN generation and SAN canonicalisation are the
  chess.js library's. They are the abstract oracle `Rules`, and its only
  assumed law is `ReplayStable`. `getLegalMoves` and `getTurn`
  (`src/lib/MoveTree.ts:107-115`) only forward to that library and are not
  modelled.
- The stateful `chess.load` calls are plumbing around the oracle. Each
  oracle call takes the position explicitly.
- PGN text: tokenising by the reader and rendering by the writer, including
  move-number prefixes, are foreign libraries. Only the parsed move list
  they exchange is modelled.
- Ids are random base-36 strings of up to 7 characters (`src/lib/MoveTree.ts:6`).
  They are modelled as a counter, so id uniqueness is proved for the counter
  only. For the source it is an assumption, since random ids can collide.
- `moveNumber` and `turn` (`src/lib/MoveNode.ts:11-12`) are declared but never
  set by any code path, so they are not fields of the node datatype.
- `parent` (`src/lib/MoveNode.ts:9`) is replaced by the path cursor. The root
  is the only node without a parent by construction.
- Node deletion and variation removal: the code has no such operation.
- The React hook and the built `dist/` copies duplicate or wrap the class.
  `src/lib/MoveTreeExtended.test.ts` is not a specification: it calls a
  constructor signature and a `renderPgn` method the class does not have.
- `goForward` with a non-integer index: the index is an integer here.
- A parsed entry whose `variations` field is missing makes the source throw
  a TypeError inside `buildTreeFromParsed` after the node is pushed. The
  source catches it, and the rest of that list is skipped. The parsed move
  datatype always has a (possibly empty) variation list, so this path is not
  modelled.
- `MoveTree.ToPgn` uses the corrected exporter `Exporter.ExportMoves`, not
  the source's `buildPgnMoves`. The source's `toPgn` is modelled separately
  as `MoveTree.ToPgnAsWritten` over `Exporter.BuildPgnMoves` (see Findings).
- `Session.PgnRoundTrip` and `Session.SessionRoundTrip` feed the `Game` that
  `toPgn` hands the writer straight into `loadPgn`. They assume that the PGN
  writer and reader are inverse on it. In particular, the writer's `headers`
  Map (`src/lib/MoveTree.ts:161-168`) is assumed to come back as the
  `[{name, value}]` list that `loadPgn` searches (`src/lib/MoveTree.ts:123`).
  Both are foreign libraries.
- `MoveTree.GetMainline` takes a path into the current tree. The source's
  `getMainline(node)` (`src/lib/MoveTree.ts:97`) accepts any node, including
  one under a root that `loadPgn` has since replaced. Nodes are values here,
  with no parent links, so such a node cannot be modelled.
- `MoveTree.Create` takes the FEN explicitly. The constructor's default
  argument (`src/lib/MoveTree.ts:14`) is `DefaultFen`, passed by the caller.
- `MoveTree.GoForward` takes the index explicitly. The default argument
  `variationIndex = 0` (`src/lib/MoveTree.ts:70`) is `0`, passed by the
  caller.
- `Session.Run` does not include `loadPgn`. A session with `loadPgn` can
  contain duplicate sibling SANs (`Scenarios.ImportKeepsDuplicateSans`).

## Findings

| source | as written | input that shows it | evidently intended | confidence | as-written member | corrected member |
|---|---|---|---|---|---|---|
| src/lib/MoveTree.ts:182-185 | Each variation child is exported as `buildPgnMoves(children[i])`, which starts from that child's own children. The variation's first move is dropped, so import(export(t)) loses moves on every tree with a variation. | The test at src/lib/MoveTree.test.ts:132-141: e4, e5, back, back, d4 reaches the writer as e4 with one empty variation, then e5, where the test expects `1. e4 (1. d4) 1... e5`. | Each variation is the child's own move followed by `buildPgnMoves(children[i])`, so export then import reproduces the tree. | high; not executed | `Scenarios.AsWrittenExportOfTestTree` | `RoundTrip.ExportThenImport` |
