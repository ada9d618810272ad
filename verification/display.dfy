/** The clock's display: one cell per letter of the face, each showing its letter either
    grey or lit, and four dots for the minutes past the last five. */
module Display {
  import opened WordGrid
  import opened TimeWords

  /** One letter label of the face: the letter it shows, and whether it is lit (white)
      or not (grey). */
  datatype Cell = Cell(ch: char, lit: bool)

  /** Cell (r, c) is one of the first n letters of w's run from p, lies inside its row,
      and shows the letter w has at that place: highlighting w from p lights it. */
  ghost predicate Covers(w: string, p: Pos, n: nat, r: int, c: int) {
    n <= |w| && r == p.row && r < |Rows| && p.col <= c < p.col + n && c < |Rows[r]| &&
    Rows[r][c] == w[c - p.col]
  }

  /** Cell (r, c) is lit by highlighting w from one of the first k start positions ps. */
  ghost predicate LitBy(w: string, ps: seq<Pos>, k: nat, r: int, c: int)
    requires k <= |ps|
  {
    k > 0 && (LitBy(w, ps, k - 1, r, c) || Covers(w, ps[k - 1], |w|, r, c))
  }

  /** Cell (r, c) is lit by highlighting the word w. */
  ghost predicate Lights(w: string, r: int, c: int) {
    w in WordPositions && LitBy(w, WordPositions[w], |WordPositions[w]|, r, c)
  }

  /** Cell (r, c) is lit by highlighting one of the first j words of ws. */
  ghost predicate LitByWords(ws: seq<string>, j: nat, r: int, c: int)
    requires j <= |ws|
  {
    j > 0 && (LitByWords(ws, j - 1, r, c) || Lights(ws[j - 1], r, c))
  }

  /** Cell (r, c) lies in the run of |w| cells from p. */
  predicate InRun(w: string, p: Pos, r: int, c: int) {
    r == p.row && p.col <= c < p.col + |w|
  }

  /** When every one of the first k positions spells w, highlighting w from them lights
      exactly the cells of their runs. */
  lemma {:induction false} LitByRuns(w: string, ps: seq<Pos>, k: nat, r: int, c: int)
    requires k <= |ps|
    requires forall j :: 0 <= j < k ==> Spells(w, ps[j])
    ensures LitBy(w, ps, k, r, c) <==> exists j :: 0 <= j < k && InRun(w, ps[j], r, c)
  {
    if k > 0 {
      LitByRuns(w, ps, k - 1, r, c);
      var p := ps[k - 1];
      if InRun(w, p, r, c) {
        assert Rows[p.row][p.col..p.col + |w|][c - p.col] == w[c - p.col];
        assert Covers(w, p, |w|, r, c);
      }
      if exists j :: 0 <= j < k && InRun(w, ps[j], r, c) {
        var j :| 0 <= j < k && InRun(w, ps[j], r, c);
        if j < k - 1 {
          assert exists i :: 0 <= i < k - 1 && InRun(w, ps[i], r, c);
        }
      }
    }
  }

  /** Highlighting a word of the table other than TO lights exactly the cells of its
      runs, at every place the word occurs (both FIVEs, both TENs). */
  lemma SpelledWordLightsItsRuns(w: string, r: int, c: int)
    requires w in WordPositions && w != "TO"
    ensures Lights(w, r, c) <==>
      exists j :: 0 <= j < |WordPositions[w]| && InRun(w, WordPositions[w][j], r, c)
  {
    TableSpellsItsWords();
    LitByRuns(w, WordPositions[w], |WordPositions[w]|, r, c);
  }

  /** Highlighting TO lights no cell at all: its one start (3, 8) shows S, then T. */
  lemma ToLightsNothing(r: int, c: int)
    ensures !Lights("TO", r, c)
  {
    var ps := WordPositions["TO"];
    assert ps == [Pos(3, 8)];
    assert Rows[3][8] == 'S' && Rows[3][9] == 'T';
    assert !LitBy("TO", ps, 0, r, c);
    assert !Covers("TO", ps[0], 2, r, c);
  }

  /** Cell (r, c) lies on a run of w that the table places and that spells w, so that
      highlighting w lights it. */
  ghost predicate OnRunOf(w: string, r: int, c: int) {
    w in WordPositions && w != "TO" &&
    exists j :: 0 <= j < |WordPositions[w]| && InRun(w, WordPositions[w][j], r, c)
  }

  /** Highlighting a word of the table lights exactly the cells on its runs, and none
      for TO. */
  lemma LightsOnRun(w: string, r: int, c: int)
    requires w in WordPositions
    ensures Lights(w, r, c) <==> OnRunOf(w, r, c)
  {
    if w == "TO" {
      ToLightsNothing(r, c);
    } else {
      SpelledWordLightsItsRuns(w, r, c);
    }
  }

  /** Highlighting the first n words of ws, all in the table, lights exactly the cells that
      lie on a run of one of them. */
  lemma {:induction false} LitByWordsOnRuns(ws: seq<string>, n: nat, r: int, c: int)
    requires n <= |ws|
    requires forall i :: 0 <= i < n ==> ws[i] in WordPositions
    ensures LitByWords(ws, n, r, c) <==> exists i :: 0 <= i < n && OnRunOf(ws[i], r, c)
  {
    if n > 0 {
      LitByWordsOnRuns(ws, n - 1, r, c);
      LightsOnRun(ws[n - 1], r, c);
      if exists i :: 0 <= i < n && OnRunOf(ws[i], r, c) {
        var i :| 0 <= i < n && OnRunOf(ws[i], r, c);
        if i < n - 1 {
          assert exists i' :: 0 <= i' < n - 1 && OnRunOf(ws[i'], r, c);
        }
      }
    }
  }

  /** Adding a word that is already among the words lights no further cell: dropping the
      repeated hour name changes nothing on the face. */
  lemma RepeatedWordLightsNothingNew(ws: seq<string>, w: string, r: int, c: int)
    requires w in ws
    ensures (exists i :: 0 <= i < |ws + [w]| && OnRunOf((ws + [w])[i], r, c)) <==>
            (exists i :: 0 <= i < |ws| && OnRunOf(ws[i], r, c))
  {
    if exists i :: 0 <= i < |ws + [w]| && OnRunOf((ws + [w])[i], r, c) {
      var i :| 0 <= i < |ws + [w]| && OnRunOf((ws + [w])[i], r, c);
      var j :| 0 <= j < |ws| && ws[j] == w;
      var k := if i < |ws| then i else j;
      assert OnRunOf(ws[k], r, c);
    }
    if exists i :: 0 <= i < |ws| && OnRunOf(ws[i], r, c) {
      var i :| 0 <= i < |ws| && OnRunOf(ws[i], r, c);
      assert (ws + [w])[i] == ws[i];
    }
  }

  /** At 4:55 the words FIVE TO light exactly the two FIVE runs, (2, 6) and (6, 4): the
      same cells FIVE TO FIVE would light, TO lighting none. */
  lemma FourFiftyFiveOnFace(r: int, c: int)
    ensures var ws := TimeRepresentation(4, 55).words;
      (exists i :: 0 <= i < |ws| && OnRunOf(ws[i], r, c)) <==>
      ((r == 2 && 6 <= c < 10) || (r == 6 && 4 <= c < 8))
  {
    var ws := TimeRepresentation(4, 55).words;
    assert ws == ["FIVE", "TO"];
    assert !OnRunOf("TO", r, c);
    var ps := WordPositions["FIVE"];
    assert ps == [Pos(2, 6), Pos(6, 4)];
    if (r == 2 && 6 <= c < 10) || (r == 6 && 4 <= c < 8) {
      var j := if r == 2 then 0 else 1;
      assert InRun("FIVE", ps[j], r, c);
      assert OnRunOf(ws[0], r, c);
    }
    RepeatedWordLightsNothingNew(ws, "FIVE", r, c);
  }

  /** The number of true entries of s: the dots that are lit. */
  function CountLit(s: seq<bool>): (n: nat)
    ensures n <= |s|
  {
    if s == [] then 0 else (if s[0] then 1 else 0) + CountLit(s[1..])
  }

  /** When exactly the first n dots are lit, n dots are lit. */
  lemma {:induction false} CountLitPrefix(s: seq<bool>, n: int)
    requires 0 <= n <= |s|
    requires forall i :: 0 <= i < |s| ==> s[i] == (i < n)
    ensures CountLit(s) == n
  {
    if s != [] {
      CountLitPrefix(s[1..], if n == 0 then 0 else n - 1);
    }
  }

  /** The clock window: the face's letter labels and the four extra-minute dots. */
  class WordClock {
    const grid: array2<Cell>
    const dots: array<bool>

    /** The grid has the face's shape and shows the face's letters; there are four dots. */
    ghost predicate Valid()
      reads grid
    {
      grid.Length0 == Height && grid.Length1 == Width && dots.Length == 4 &&
      forall r, c :: 0 <= r < Height && 0 <= c < Width ==> grid[r, c].ch == Rows[r][c]
    }

    /** A label for every letter of the face and four dots, all grey. */
    constructor ()
      ensures Valid() && fresh(grid) && fresh(dots)
      ensures forall r, c :: 0 <= r < Height && 0 <= c < Width ==> !grid[r, c].lit
      ensures forall i :: 0 <= i < 4 ==> !dots[i]
    {
      RowsRectangular();
      grid := new Cell[Height, Width]((r: nat, c: nat) =>
        if r < |Rows| && c < |Rows[r]| then Cell(Rows[r][c], false) else Cell(' ', false));
      dots := new bool[4](_ => false);
    }

    /** Turns every letter and every dot grey; the letters stay as they are. */
    method ResetLabels()
      requires Valid()
      modifies grid, dots
      ensures Valid()
      ensures forall r, c :: 0 <= r < Height && 0 <= c < Width ==> !grid[r, c].lit
      ensures forall i :: 0 <= i < 4 ==> !dots[i]
    {
      for r := 0 to grid.Length0
        invariant forall r', c :: 0 <= r' < Height && 0 <= c < Width ==>
          grid[r', c].ch == Rows[r'][c] && (r' < r ==> !grid[r', c].lit)
      {
        for c := 0 to grid.Length1
          invariant forall r', c' :: 0 <= r' < Height && 0 <= c' < Width ==>
            grid[r', c'].ch == Rows[r'][c'] && ((r' < r || (r' == r && c' < c)) ==> !grid[r', c'].lit)
        {
          grid[r, c] := grid[r, c].(lit := false);
        }
      }
      for i := 0 to dots.Length
        modifies dots
        invariant forall i' :: 0 <= i' < i ==> !dots[i']
      {
        dots[i] := false;
      }
    }

    /** Lights, along the run of |word| cells from start, each cell inside the row whose
        letter is the word's letter at that place; every other cell keeps its state. */
    method LightRun(word: string, start: Pos)
      requires Valid() && start.row < Height
      modifies grid
      ensures Valid()
      ensures forall r, c :: 0 <= r < Height && 0 <= c < Width ==>
        grid[r, c].lit == (old(grid[r, c].lit) || Covers(word, start, |word|, r, c))
    {
      RowsRectangular();
      for i := 0 to |word|
        invariant Valid()
        invariant forall r, c :: 0 <= r < Height && 0 <= c < Width ==>
          grid[r, c].lit == (old(grid[r, c].lit) || Covers(word, start, i, r, c))
      {
        if start.col + i < grid.Length1 {
          var cell := grid[start.row, start.col + i];
          if cell.ch == word[i] {
            grid[start.row, start.col + i] := cell.(lit := true);
          }
        }
      }
    }

    /** Lights, from every start position the table gives for word, each following cell
        within the row whose letter is the word's letter at that place; every other cell,
        and every cell when the word is not in the table, keeps its state. */
    method HighlightWord(word: string)
      requires Valid()
      modifies grid
      ensures Valid()
      ensures forall r, c :: 0 <= r < Height && 0 <= c < Width ==>
        grid[r, c].lit == (old(grid[r, c].lit) || Lights(word, r, c))
    {
      if word in WordPositions {
        var positions := WordPositions[word];
        PositionsOnFace();
        for k := 0 to |positions|
          invariant Valid()
          invariant forall r, c :: 0 <= r < Height && 0 <= c < Width ==>
            grid[r, c].lit == (old(grid[r, c].lit) || LitBy(word, positions, k, r, c))
        {
          LightRun(word, positions[k]);
        }
      }
    }

    /** Lights exactly the first minute % 5 of the four dots and turns the others grey. */
    method ShowExtraMinutes(minute: int)
      requires Valid()
      modifies dots
      ensures forall i :: 0 <= i < 4 ==> dots[i] == (i < minute % 5)
      ensures CountLit(dots[..]) == minute % 5
    {
      var extraMinutes := minute % 5;
      for i := 0 to 4
        invariant forall i' :: 0 <= i' < i ==> dots[i'] == (i' < extraMinutes)
      {
        if i < extraMinutes {
          dots[i] := true;
        } else {
          dots[i] := false;
        }
      }
      CountLitPrefix(dots[..], extraMinutes);
    }

    /** One tick of the clock for the hour and minute read from the specified time or the
        wall clock: the hour is normalized, all labels reset, the words of the time lit,
        and exactly the first minute % 5 dots lit. Afterwards a letter is lit exactly when
        it lies on a run of one of the time's words (TO lighting none). */
    method UpdateClock(hour: int, minute: int)
      requires Valid()
      modifies grid, dots
      ensures Valid()
      ensures TimeRepresentation(NormalizeHour(hour), minute).Ok?
      ensures forall r, c :: 0 <= r < Height && 0 <= c < Width ==>
        var ws := TimeRepresentation(NormalizeHour(hour), minute).words;
        (grid[r, c].lit <==> exists i :: 0 <= i < |ws| && OnRunOf(ws[i], r, c))
      ensures forall i :: 0 <= i < 4 ==> dots[i] == (i < minute % 5)
      ensures CountLit(dots[..]) == minute % 5
    {
      var h := NormalizeHour(hour);
      ResetLabels();
      var result := GetTimeRepresentation(h, minute);
      NormalizedNeverFails(hour, minute);
      var words := result.words;
      for j := 0 to |words|
        invariant Valid()
        invariant forall r, c :: 0 <= r < Height && 0 <= c < Width ==>
          grid[r, c].lit == LitByWords(words, j, r, c)
      {
        HighlightWord(words[j]);
      }
      forall r, c | 0 <= r < Height && 0 <= c < Width
        ensures grid[r, c].lit <==> exists i :: 0 <= i < |words| && OnRunOf(words[i], r, c)
      {
        LitByWordsOnRuns(words, |words|, r, c);
      }
      ShowExtraMinutes(minute);
    }
  }
}
