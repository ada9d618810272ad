/** The clock face: the fixed 10 x 11 letter grid and the table that says where each
    highlightable word starts on it. Both are constants of the program. */
module WordGrid {

  /** A start coordinate (row, column) on the letter grid. */
  datatype Pos = Pos(row: nat, col: nat)

  const Height: nat := 10
  const Width: nat := 11

  /** The letters of the face, one string per row. */
  const Rows: seq<string> := [
    "ITJISESAMPM",
    "ACQUARTERDC",
    "TWENTYFIVEX",
    "HALFUTENSTO",
    "PASTTENNINE",
    "ONESIXTHREE",
    "FOURFIVETWO",
    "EIGHTELEVEN",
    "SEVENTWELVE",
    "GRACEOCLOCK"
  ]

  /** Every start position of every word; FIVE and TEN occur twice on the face. */
  const WordPositions: map<string, seq<Pos>> := map[
    "IT" := [Pos(0, 0)], "IS" := [Pos(0, 3)], "AM" := [Pos(0, 7)], "PM" := [Pos(0, 9)],
    "A" := [Pos(1, 0)], "QUARTER" := [Pos(1, 2)],
    "TWENTY" := [Pos(2, 0)], "FIVE" := [Pos(2, 6), Pos(6, 4)],
    "HALF" := [Pos(3, 0)], "TEN" := [Pos(3, 5), Pos(4, 4)],
    "TO" := [Pos(3, 8)],
    "PAST" := [Pos(4, 0)], "NINE" := [Pos(4, 7)],
    "ONE" := [Pos(5, 0)], "SIX" := [Pos(5, 3)], "THREE" := [Pos(5, 6)],
    "FOUR" := [Pos(6, 0)], "TWO" := [Pos(6, 8)],
    "EIGHT" := [Pos(7, 0)], "ELEVEN" := [Pos(7, 5)],
    "SEVEN" := [Pos(8, 0)], "TWELVE" := [Pos(8, 5)],
    "GRACE" := [Pos(9, 0)], "OCLOCK" := [Pos(9, 5)]
  ]

  /** The letters of the face starting at p, read rightwards, spell w exactly. */
  predicate Spells(w: string, p: Pos) {
    p.row < |Rows| && p.col + |w| <= |Rows[p.row]| && Rows[p.row][p.col..p.col + |w|] == w
  }

  /** The face is a rectangle of Height rows of Width letters. */
  lemma RowsRectangular()
    ensures |Rows| == Height
    ensures forall r :: 0 <= r < |Rows| ==> |Rows[r]| == Width
  {
  }

  /** Every start position in the table lies on the face. */
  lemma PositionsOnFace()
    ensures forall w, k :: w in WordPositions && 0 <= k < |WordPositions[w]| ==>
      WordPositions[w][k].row < Height && WordPositions[w][k].col < Width
  {
  }

  lemma EntriesSpell()
    ensures Spells("IT", Pos(0, 0))
    ensures Spells("IS", Pos(0, 3))
    ensures Spells("AM", Pos(0, 7))
    ensures Spells("PM", Pos(0, 9))
    ensures Spells("A", Pos(1, 0))
    ensures Spells("QUARTER", Pos(1, 2))
    ensures Spells("TWENTY", Pos(2, 0))
    ensures Spells("FIVE", Pos(2, 6))
    ensures Spells("FIVE", Pos(6, 4))
    ensures Spells("HALF", Pos(3, 0))
    ensures Spells("TEN", Pos(3, 5))
    ensures Spells("TEN", Pos(4, 4))
    ensures Spells("PAST", Pos(4, 0))
    ensures Spells("NINE", Pos(4, 7))
    ensures Spells("ONE", Pos(5, 0))
    ensures Spells("SIX", Pos(5, 3))
    ensures Spells("THREE", Pos(5, 6))
    ensures Spells("FOUR", Pos(6, 0))
    ensures Spells("TWO", Pos(6, 8))
    ensures Spells("EIGHT", Pos(7, 0))
    ensures Spells("ELEVEN", Pos(7, 5))
    ensures Spells("SEVEN", Pos(8, 0))
    ensures Spells("TWELVE", Pos(8, 5))
    ensures Spells("GRACE", Pos(9, 0))
    ensures Spells("OCLOCK", Pos(9, 5))
  {
  }

  /** Every entry of the table spells its word on the face, except the single entry of
      TO, whose start (3, 8) reads "ST"; the letters T, O sit one column further right. */
  lemma TableSpellsItsWords()
    ensures forall w, k :: w in WordPositions && 0 <= k < |WordPositions[w]| ==>
      (Spells(w, WordPositions[w][k]) <==> w != "TO")
    ensures WordPositions["TO"] == [Pos(3, 8)]
    ensures Rows[3][8..10] == "ST" && Spells("TO", Pos(3, 9))
  {
    EntriesSpell();
    assert Rows[3][8] == 'S';
    forall w, k | w in WordPositions && 0 <= k < |WordPositions[w]|
      ensures Spells(w, WordPositions[w][k]) <==> w != "TO"
    {
      if w == "FIVE" || w == "TEN" {
        assert k == 0 || k == 1;
      } else {
        assert k == 0;
      }
    }
  }
}
