/**
 The structured move list exchanged with the PGN reader and writer
 (`@mliebelt/pgn-reader`, `@mliebelt/pgn-writer`). Text tokenising and
 rendering belong to those libraries; the tree only consumes and produces
 this structure.
 */
module Pgn {
  import opened Wrappers

  /**
   One move of a move list. `variations` are alternatives to THIS move: each
   branches from the position before it.
   */
  datatype PgnMove = PgnMove(
    notation: string,
    comment: Option<string>,
    nags: Option<seq<nat>>,
    variations: seq<Line>)

  /** A move list; the wrapper lets nested variations recurse structurally. */
  datatype Line = Line(moves: seq<PgnMove>)

  datatype Header = Header(name: string, value: string)

  /** One parsed game, or the game handed to the writer. */
  datatype Game = Game(headers: seq<Header>, moves: seq<PgnMove>)

  /**
   Number of move entries in a move list, counting every entry of every
   nested variation.
   */
  function EntryCount(ms: seq<PgnMove>): nat
    decreases ms
  {
    if |ms| == 0 then 0
    else 1 + VariationEntryCount(ms[0].variations) + EntryCount(ms[1..])
  }

  function VariationEntryCount(vs: seq<Line>): nat
    decreases vs
  {
    if |vs| == 0 then 0
    else EntryCount(vs[0].moves) + VariationEntryCount(vs[1..])
  }
}
