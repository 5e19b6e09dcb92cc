/**
 * src/server/Pieces.js: piece ids such as "R1w" (type letter, index digit,
 * colour suffix) and the starting layout.
 */
module Pieces {
  import opened Vectors

  /** JavaScript `s.substr(start, length)`: `start` and the end are clamped to the string. */
  function Substr(s: string, start: nat, length: nat): (r: string)
    ensures |r| <= length
    ensures start + length <= |s| ==> r == s[start..start + length]
    ensures start <= |s| < start + length ==> r == s[start..]
    ensures start >= |s| ==> r == ""
  {
    var from := if start <= |s| then start else |s|;
    var to := if from + length <= |s| then from + length else |s|;
    s[from..to]
  }

  /** JavaScript `s.substr(start)`: the suffix from `start`, or "" past the end. */
  function SubstrFrom(s: string, start: nat): (r: string)
    ensures start <= |s| ==> r == s[start..]
    ensures start >= |s| ==> r == ""
  {
    if start <= |s| then s[start..] else ""
  }

  /** `getPieceColour`: the id from index 2 on ("R1w" gives "w"). */
  function GetPieceColour(piece: string): (c: string)
    ensures |piece| >= 2 ==> piece == piece[..2] + c
    ensures |piece| < 2 ==> c == ""
  {
    SubstrFrom(piece, 2)
  }

  /**
   * `getPieceType`: the first character followed by the colour ("R1w" gives
   * "Rw"), i.e. the id without its index character.
   */
  function GetPieceType(piece: string): (t: string)
    ensures |piece| >= 2 ==> |t| == |piece| - 1 && t[0] == piece[0]
    ensures |piece| == 1 ==> t == piece
    ensures piece == "" ==> t == ""
  {
    Substr(piece, 0, 1) + SubstrFrom(piece, 2)
  }

  /** The type of an id always ends with its colour. */
  lemma TypeEndsWithColour(piece: string)
    ensures |GetPieceColour(piece)| <= |GetPieceType(piece)|
    ensures GetPieceType(piece)[|GetPieceType(piece)| - |GetPieceColour(piece)|..] == GetPieceColour(piece)
  {
  }

  /** Ids that differ only in the index character have the same type and colour. */
  lemma IndexIgnored(a: string, b: string)
    requires |a| == |b| >= 2 && a[0] == b[0] && a[2..] == b[2..]
    ensures GetPieceType(a) == GetPieceType(b) && GetPieceColour(a) == GetPieceColour(b)
  {
  }

  /** `defaultPieces`: the starting position of every piece, keyed by id. */
  const DefaultPieces: map<string, Point> := map[
    // White key pieces
    "R1w" := Point(0.0, 500.0 - 62.5),
    "N1w" := Point(62.5, 500.0 - 62.5),
    "B1w" := Point(125.0, 500.0 - 62.5),
    "Q1w" := Point(187.5, 500.0 - 62.5),
    "K1w" := Point(250.0, 500.0 - 62.5),
    "B2w" := Point(312.5, 500.0 - 62.5),
    "N2w" := Point(375.0, 500.0 - 62.5),
    "R2w" := Point(437.5, 500.0 - 62.5),
    // White pawns
    "P1w" := Point(0.0, 500.0 - 125.0),
    "P2w" := Point(62.5, 500.0 - 125.0),
    "P3w" := Point(125.0, 500.0 - 125.0),
    "P4w" := Point(187.5, 500.0 - 125.0),
    "P5w" := Point(250.0, 500.0 - 125.0),
    "P6w" := Point(312.5, 500.0 - 125.0),
    "P7w" := Point(375.0, 500.0 - 125.0),
    "P8w" := Point(437.5, 500.0 - 125.0),
    // Black key pieces
    "R1b" := Point(0.0, 0.0),
    "N1b" := Point(62.5, 0.0),
    "B1b" := Point(125.0, 0.0),
    "Q1b" := Point(187.5, 0.0),
    "K1b" := Point(250.0, 0.0),
    "B2b" := Point(312.5, 0.0),
    "N2b" := Point(375.0, 0.0),
    "R2b" := Point(437.5, 0.0),
    // Black pawns
    "P1b" := Point(0.0, 62.5),
    "P2b" := Point(62.5, 62.5),
    "P3b" := Point(125.0, 62.5),
    "P4b" := Point(187.5, 62.5),
    "P5b" := Point(250.0, 62.5),
    "P6b" := Point(312.5, 62.5),
    "P7b" := Point(375.0, 62.5),
    "P8b" := Point(437.5, 62.5)
  ]

  /** The ids of `defaultPieces` in the order of the object literal (what `Object.keys` gives). */
  const DefaultIds: seq<string> := ["R1w", "N1w", "B1w", "Q1w", "K1w", "B2w", "N2w", "R2w", "P1w", "P2w", "P3w", "P4w", "P5w", "P6w", "P7w", "P8w", "R1b", "N1b", "B1b", "Q1b", "K1b", "B2b", "N2b", "R2b", "P1b", "P2b", "P3b", "P4b", "P5b", "P6b", "P7b", "P8b"]

  lemma DefaultIdsDistinct()
    ensures forall i, j :: 0 <= i < j < |DefaultIds| ==> DefaultIds[i] != DefaultIds[j]
  {
  }

  lemma DefaultKeys()
    ensures DefaultPieces.Keys == set x | x in DefaultIds
  {
  }

  /** A sequence without repeats has as many distinct elements as entries. */
  lemma {:induction false} DistinctCardinality(s: seq<string>)
    requires forall i, j :: 0 <= i < j < |s| ==> s[i] != s[j]
    ensures |set x | x in s| == |s|
  {
    if |s| > 0 {
      var init := s[..|s| - 1];
      DistinctCardinality(init);
      assert (set x | x in s) == (set x | x in init) + {s[|s| - 1]};
    }
  }

  /**
   * `getDefaultPieces`: a fresh copy of the starting layout, with exactly the
   * ids of `DefaultIds` as keys, so 32 pieces, each on one of the eight
   * columns and on a home row of its colour.
   */
  function GetDefaultPieces(): (m: map<string, Point>)
    ensures m.Keys == set x | x in DefaultIds
    ensures |m| == 32
    ensures forall k :: k in m ==>
      m[k].x in {0.0, 62.5, 125.0, 187.5, 250.0, 312.5, 375.0, 437.5} &&
      (GetPieceColour(k) == "w" ==> m[k].y in {375.0, 437.5}) &&
      (GetPieceColour(k) == "b" ==> m[k].y in {0.0, 62.5})
  {
    DefaultPositionsOnGrid();
    DefaultKeys();
    DefaultIdsDistinct();
    DistinctCardinality(DefaultIds);
    assert |DefaultPieces| == |DefaultPieces.Keys|;
    DefaultPieces
  }

  /** The first 16 ids are white and the last 16 black. */
  lemma DefaultColours()
    ensures forall i :: 0 <= i < 16 ==> GetPieceColour(DefaultIds[i]) == "w"
    ensures forall i :: 16 <= i < 32 ==> GetPieceColour(DefaultIds[i]) == "b"
  {
  }

  /** The pieces of one colour are the ids of a slice of `DefaultIds`. */
  lemma ColourSlice(colour: string, lo: nat, hi: nat)
    requires lo <= hi <= 32
    requires forall i :: 0 <= i < 32 ==> (GetPieceColour(DefaultIds[i]) == colour <==> lo <= i < hi)
    ensures |set k | k in DefaultPieces && GetPieceColour(k) == colour| == hi - lo
  {
    DefaultKeys();
    ColourSetIsSlice(DefaultPieces.Keys, DefaultIds, colour, lo, hi);
    DefaultIdsDistinct();
    DistinctCardinality(DefaultIds[lo..hi]);
  }

  /** The keys of one colour are the slice of `ids` that has that colour. */
  lemma ColourSetIsSlice(keys: set<string>, ids: seq<string>, colour: string, lo: nat, hi: nat)
    requires lo <= hi <= |ids|
    requires keys == set x | x in ids
    requires forall i :: 0 <= i < |ids| ==> (GetPieceColour(ids[i]) == colour <==> lo <= i < hi)
    ensures (set k | k in keys && GetPieceColour(k) == colour) == set x | x in ids[lo..hi]
  {
    var part := ids[lo..hi];
    forall k | k in keys && GetPieceColour(k) == colour ensures k in part {
      var i :| 0 <= i < |ids| && ids[i] == k;
      assert part[i - lo] == k;
    }
    forall k | k in part ensures k in keys && GetPieceColour(k) == colour {
      var j :| 0 <= j < |part| && part[j] == k;
      assert ids[lo + j] == k;
    }
  }

  /** The layout holds 16 pieces of colour "w" and 16 of colour "b". */
  lemma DefaultColourCounts()
    ensures |set k | k in GetDefaultPieces() && GetPieceColour(k) == "w"| == 16
    ensures |set k | k in GetDefaultPieces() && GetPieceColour(k) == "b"| == 16
  {
    DefaultColours();
    ColourSlice("w", 0, 16);
    ColourSlice("b", 16, 32);
  }

  /**
   * Every starting x is one of the eight columns; white pieces start on the
   * two rows at the bottom (y = 375 and 437.5) and black ones on the two at
   * the top (y = 0 and 62.5).
   */
  lemma DefaultPositionsOnGrid()
    ensures forall k :: k in DefaultPieces ==>
      DefaultPieces[k].x in {0.0, 62.5, 125.0, 187.5, 250.0, 312.5, 375.0, 437.5} &&
      (GetPieceColour(k) == "w" ==> DefaultPieces[k].y in {375.0, 437.5}) &&
      (GetPieceColour(k) == "b" ==> DefaultPieces[k].y in {0.0, 62.5})
  {
  }
}
