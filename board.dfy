/**
 * The game board of the five-in-a-row server (BoardGrid.java): a fixed
 * matrix of ROWS x COLS cells, discs dropped by gravity into a column, and
 * the hand-derived family of scans that look for WIN_LENGTH discs in a row
 * after every placement.
 *
 * The first half of the module describes the board as a value: the counter
 * that every scan runs, the cells each scan visits, and the geometric lines
 * those cells are compared against. The class BoardGrid at the end is the
 * object of the source, with its matrix as an array2 updated in place.
 */
module Board {
  import opened Optional

  const ROWS: int := 6
  const COLS: int := 9
  const WIN_LENGTH: int := 5
  /** The value of a cell that holds no disc; 0 and 1 are the two player IDs. */
  const EMPTY: int := -1

  /** The matrix as a value, row 0 at the top and row ROWS - 1 at the bottom. */
  type Grid = seq<seq<int>>

  predicate WellShaped(g: Grid) {
    |g| == ROWS && forall r :: 0 <= r < ROWS ==> |g[r]| == COLS
  }

  datatype Pos = Pos(row: int, col: int)

  predicate InBounds(p: Pos) {
    0 <= p.row < ROWS && 0 <= p.col < COLS
  }

  /** The source's outOfBounds test. */
  function OutOfBounds(row: int, col: int): (out: bool)
    ensures out <==> !InBounds(Pos(row, col))
  {
    row < 0 || row > ROWS - 1 || col < 0 || col > COLS - 1
  }

  /** The four cells for which the source skips the diagonal scans. */
  function WinningDiagLineImpossible(row: int, col: int): bool {
    (row == 2 || row == 3) && (col == 0 || col == 8)
  }

  /** The glyph a cell value is rendered with. */
  function ClassifySymbol(n: int): (glyph: string)
    ensures |glyph| == 1
    ensures glyph == "x" <==> n == 0
    ensures glyph == "o" <==> n == 1
    ensures glyph == " " <==> n != 0 && n != 1
  {
    if n == 0 then "x" else if n == 1 then "o" else " "
  }

  function Repeat(p: int, n: nat): seq<int> {
    seq(n, _ => p)
  }

  function Max(a: int, b: int): int { if a < b then b else a }

  function Min(a: int, b: int): int { if a < b then a else b }

  // ---------------------------------------------------------------------
  // The counter every scan runs
  // ---------------------------------------------------------------------

  /** The counter of a scan after it has read s: the length of the run of p that ends s. */
  function TrailingRun(s: seq<int>, p: int): (n: nat)
    ensures n <= |s|
  {
    if s == [] || s[|s| - 1] != p then 0 else TrailingRun(s[..|s| - 1], p) + 1
  }

  /**
   * How often the counter equals WIN_LENGTH right after a cell of s is read,
   * that is, how many setWinner calls a scan over s makes.
   */
  function Hits(s: seq<int>, p: int): nat {
    if s == [] then 0
    else Hits(s[..|s| - 1], p) + (if TrailingRun(s, p) == WIN_LENGTH then 1 else 0)
  }

  /** WIN_LENGTH consecutive entries of s, starting at index i, equal p. */
  predicate RunAt(s: seq<int>, i: int, p: int) {
    0 <= i && i + WIN_LENGTH <= |s| && forall k :: i <= k < i + WIN_LENGTH ==> s[k] == p
  }

  ghost predicate HasRun(s: seq<int>, p: int) {
    exists i :: RunAt(s, i, p)
  }

  lemma {:induction false} TrailingRunMeaning(s: seq<int>, p: int, n: nat)
    ensures TrailingRun(s, p) >= n <==> n <= |s| && forall k :: |s| - n <= k < |s| ==> s[k] == p
  {
    if n == 0 || s == [] || s[|s| - 1] != p {
    } else {
      var s' := s[..|s| - 1];
      TrailingRunMeaning(s', p, n - 1);
      assert forall k :: 0 <= k < |s'| ==> s'[k] == s[k];
    }
  }

  /** The scan counter reports a win exactly when the scanned cells hold a run of WIN_LENGTH. */
  lemma {:induction false} HitsIffRun(s: seq<int>, p: int)
    ensures Hits(s, p) > 0 <==> HasRun(s, p)
  {
    if s != [] {
      var s' := s[..|s| - 1];
      HitsIffRun(s', p);
      if HasRun(s', p) {
        var i :| RunAt(s', i, p);
        assert RunAt(s, i, p);
      }
      if TrailingRun(s, p) == WIN_LENGTH {
        TrailingRunMeaning(s, p, WIN_LENGTH);
        assert RunAt(s, |s| - WIN_LENGTH, p);
      }
      if HasRun(s, p) {
        var i :| RunAt(s, i, p);
        if i + WIN_LENGTH < |s| {
          assert RunAt(s', i, p);
        } else {
          TrailingRunMeaning(s, p, WIN_LENGTH);
          if TrailingRun(s, p) > WIN_LENGTH {
            TrailingRunMeaning(s', p, WIN_LENGTH);
            assert RunAt(s', |s'| - WIN_LENGTH, p);
          }
        }
      }
    }
  }

  /** Appending a run of p shorter than WIN_LENGTH to a sequence that does not end in p adds no hit. */
  lemma {:induction false} HitsIgnoreShortRun(t: seq<int>, p: int, m: nat)
    requires TrailingRun(t, p) == 0 && m < WIN_LENGTH
    ensures Hits(t + Repeat(p, m), p) == Hits(t, p)
    ensures TrailingRun(t + Repeat(p, m), p) == m
  {
    if m == 0 {
      assert t + Repeat(p, 0) == t;
    } else {
      var s := t + Repeat(p, m);
      HitsIgnoreShortRun(t, p, m - 1);
      assert s[..|s| - 1] == t + Repeat(p, m - 1);
    }
  }

  /**
   * Two hits of one scan are at least WIN_LENGTH + 1 cells apart, so a scan
   * over s calls setWinner at most (|s| + 1) / (WIN_LENGTH + 1) times.
   */
  lemma {:induction false} HitsSpacing(s: seq<int>, p: int)
    ensures Hits(s, p) * (WIN_LENGTH + 1) <= |s| + 1
  {
    if s != [] {
      var s' := s[..|s| - 1];
      if TrailingRun(s, p) != WIN_LENGTH {
        HitsSpacing(s', p);
      } else {
        var t := s[..|s| - WIN_LENGTH];
        TrailingRunMeaning(s, p, WIN_LENGTH);
        assert TrailingRun(t, p) == 0 by {
          if t != [] && t[|t| - 1] == p {
            TrailingRunMeaning(s, p, WIN_LENGTH + 1);
          }
        }
        HitsIgnoreShortRun(t, p, WIN_LENGTH - 1);
        assert t + Repeat(p, WIN_LENGTH - 1) == s';
        if t != [] {
          HitsSpacing(t[..|t| - 1], p);
        }
      }
    }
  }

  /** A scan over at most 2 * WIN_LENGTH cells (a row, a column, any diagonal here) reports at most once. */
  lemma HitsAtMostOnce(s: seq<int>, p: int)
    requires |s| <= 2 * WIN_LENGTH
    ensures Hits(s, p) <= 1
  {
    HitsSpacing(s, p);
  }

  // ---------------------------------------------------------------------
  // The cells the diagonal scans visit
  // ---------------------------------------------------------------------

  /** searchAscLine walks to the right, searchDescLine to the left; both go one row up per cell read. */
  datatype Direction = Ascending | Descending

  function ColStep(d: Direction): int {
    if d == Ascending then 1 else -1
  }

  /**
   * The cells a line scan reads when `steps` iterations of its loop remain
   * and it stands at (r, c): an in-bounds cell is read and the scan moves up
   * one row; an out-of-bounds cell is skipped and the row is kept. The
   * column moves one step either way.
   */
  function LinePath(d: Direction, r: int, c: int, steps: nat): (path: seq<Pos>)
    ensures |path| <= steps
    ensures forall k :: 0 <= k < |path| ==> InBounds(path[k])
    decreases steps
  {
    if steps == 0 then []
    else if OutOfBounds(r, c) then LinePath(d, r, c + ColStep(d), steps - 1)
    else [Pos(r, c)] + LinePath(d, r - 1, c + ColStep(d), steps - 1)
  }

  /** The values of g at the cells of path, in order. */
  function Values(g: Grid, path: seq<Pos>): (vs: seq<int>)
    requires WellShaped(g)
    requires forall k :: 0 <= k < |path| ==> InBounds(path[k])
    ensures |vs| == |path|
    ensures forall k :: 0 <= k < |path| ==> InBounds(path[k]) && vs[k] == g[path[k].row][path[k].col]
  {
    if path == [] then []
    else
      var q := path[|path| - 1];
      assert InBounds(q);
      Values(g, path[..|path| - 1]) + [g[q.row][q.col]]
  }

  /** The number of setWinner calls of one searchAscLine / searchDescLine call starting at anchor a. */
  function LineHits(g: Grid, d: Direction, a: Pos, p: int): nat
    requires WellShaped(g)
  {
    Hits(Values(g, LinePath(d, a.row, a.col, WIN_LENGTH + 1)), p)
  }

  /** The number of setWinner calls of the line scans started, in order, at the anchors. */
  function AnchorsHits(g: Grid, d: Direction, anchors: seq<Pos>, p: int): nat
    requires WellShaped(g)
  {
    if anchors == [] then 0
    else AnchorsHits(g, d, anchors[..|anchors| - 1], p) + LineHits(g, d, anchors[|anchors| - 1], p)
  }

  lemma AnchorsHitsStep(g: Grid, d: Direction, anchors: seq<Pos>, i: int, p: int)
    requires WellShaped(g) && 0 <= i < |anchors|
    ensures AnchorsHits(g, d, anchors[..i + 1], p) == AnchorsHits(g, d, anchors[..i], p) + LineHits(g, d, anchors[i], p)
  {
    assert anchors[..i + 1][..i] == anchors[..i];
  }

  /** searchAscending: the anchor (ROWS - 2, 0), then (ROWS - 1, i) for i = 0 .. WIN_LENGTH - 1. */
  function AscAnchors(): seq<Pos> {
    [Pos(ROWS - 2, 0)] + seq(WIN_LENGTH, i => Pos(ROWS - 1, i))
  }

  /** searchDescending: the anchor (ROWS - 2, 8), then (ROWS - 1, col) for col = COLS - 1 down to WIN_LENGTH. */
  function DescAnchors(): seq<Pos> {
    [Pos(ROWS - 2, 8)] + seq(COLS - WIN_LENGTH, k => Pos(ROWS - 1, COLS - 1 - k))
  }

  lemma DescAnchorAt(i: int)
    requires 1 <= i < COLS - WIN_LENGTH + 1
    ensures |DescAnchors()| == COLS - WIN_LENGTH + 1 && DescAnchors()[i] == Pos(ROWS - 1, COLS - i)
  {
  }

  /** searchDescending with its loop bound corrected to include the column WIN_LENGTH - 1. */
  function FixedDescAnchors(): seq<Pos> {
    [Pos(ROWS - 2, 8)] + seq(COLS - WIN_LENGTH + 1, k => Pos(ROWS - 1, COLS - 1 - k))
  }

  /** A line scan that reports makes the whole family report. */
  lemma {:induction false} AnchorsHitsFrom(g: Grid, d: Direction, anchors: seq<Pos>, j: int, p: int)
    requires WellShaped(g) && 0 <= j < |anchors| && LineHits(g, d, anchors[j], p) > 0
    ensures AnchorsHits(g, d, anchors, p) > 0
  {
    AnchorsHitsStep(g, d, anchors, j, p);
    AnchorsHitsPrefix(g, d, anchors, j + 1, p);
  }

  /** The scans of a prefix of the anchors report no more than the whole family. */
  lemma {:induction false} AnchorsHitsPrefix(g: Grid, d: Direction, anchors: seq<Pos>, i: int, p: int)
    requires WellShaped(g) && 0 <= i <= |anchors|
    ensures AnchorsHits(g, d, anchors[..i], p) <= AnchorsHits(g, d, anchors, p)
    decreases |anchors| - i
  {
    if i < |anchors| {
      AnchorsHitsStep(g, d, anchors, i, p);
      AnchorsHitsPrefix(g, d, anchors, i + 1, p);
    } else {
      assert anchors[..i] == anchors;
    }
  }

  /** A family of scans that reports has a line scan that reports. */
  lemma {:induction false} AnchorsHitsWitness(g: Grid, d: Direction, anchors: seq<Pos>, p: int)
    requires WellShaped(g) && AnchorsHits(g, d, anchors, p) > 0
    ensures exists j :: 0 <= j < |anchors| && LineHits(g, d, anchors[j], p) > 0
  {
    var front := anchors[..|anchors| - 1];
    if LineHits(g, d, anchors[|anchors| - 1], p) == 0 {
      AnchorsHitsWitness(g, d, front, p);
      var j :| 0 <= j < |front| && LineHits(g, d, front[j], p) > 0;
      assert anchors[j] == front[j];
    }
  }

  lemma AnchorsHitsPositive(g: Grid, d: Direction, anchors: seq<Pos>, p: int)
    requires WellShaped(g)
    ensures AnchorsHits(g, d, anchors, p) > 0 <==> exists j :: 0 <= j < |anchors| && LineHits(g, d, anchors[j], p) > 0
  {
    if AnchorsHits(g, d, anchors, p) > 0 {
      AnchorsHitsWitness(g, d, anchors, p);
    }
    if exists j :: 0 <= j < |anchors| && LineHits(g, d, anchors[j], p) > 0 {
      var j :| 0 <= j < |anchors| && LineHits(g, d, anchors[j], p) > 0;
      AnchorsHitsFrom(g, d, anchors, j, p);
    }
  }

  // ---------------------------------------------------------------------
  // The geometric lines of the board
  // ---------------------------------------------------------------------

  /** The anti-diagonal row + col == s: its cells from the bottom-left end up and to the right. */
  function AntiDiagonal(s: int): (line: seq<Pos>)
    ensures forall k :: 0 <= k < |line| ==> InBounds(line[k]) && line[k].row + line[k].col == s
    ensures |line| == Max(0, Min(COLS - 1, s) - Max(0, s - (ROWS - 1)) + 1)
  {
    var lo := Max(0, s - (ROWS - 1));
    var hi := Min(COLS - 1, s);
    if hi < lo then [] else seq(hi - lo + 1, k => Pos(s - lo - k, lo + k))
  }

  /** Every cell of the board with row + col == s is on AntiDiagonal(s), one step up and right from the previous. */
  lemma AntiDiagonalComplete(s: int)
    ensures forall q :: InBounds(q) && q.row + q.col == s ==> q in AntiDiagonal(s)
    ensures forall k :: 0 < k < |AntiDiagonal(s)| ==>
              AntiDiagonal(s)[k] == Pos(AntiDiagonal(s)[k - 1].row - 1, AntiDiagonal(s)[k - 1].col + 1)
  {
    var line, lo := AntiDiagonal(s), Max(0, s - (ROWS - 1));
    forall q | InBounds(q) && q.row + q.col == s ensures q in line {
      assert line[q.col - lo] == q;
    }
  }

  /** The diagonal row - col == d: its cells from the bottom-right end up and to the left. */
  function Diagonal(d: int): (line: seq<Pos>)
    ensures forall k :: 0 <= k < |line| ==> InBounds(line[k]) && line[k].row - line[k].col == d
    ensures |line| == Max(0, Min(COLS - 1, ROWS - 1 - d) - Max(0, -d) + 1)
  {
    var lo := Max(0, -d);
    var hi := Min(COLS - 1, ROWS - 1 - d);
    if hi < lo then [] else seq(hi - lo + 1, k => Pos(hi - k + d, hi - k))
  }

  /** Every cell of the board with row - col == d is on Diagonal(d), one step up and left from the previous. */
  lemma DiagonalComplete(d: int)
    ensures forall q :: InBounds(q) && q.row - q.col == d ==> q in Diagonal(d)
    ensures forall k :: 0 < k < |Diagonal(d)| ==>
              Diagonal(d)[k] == Pos(Diagonal(d)[k - 1].row - 1, Diagonal(d)[k - 1].col - 1)
  {
    var line, hi := Diagonal(d), Min(COLS - 1, ROWS - 1 - d);
    forall q | InBounds(q) && q.row - q.col == d ensures q in line {
      assert line[hi - q.col] == q;
    }
  }

  /** The anti-diagonals long enough to hold a winning line are those with WIN_LENGTH - 1 <= row + col <= 9. */
  lemma LongAntiDiagonals(s: int)
    ensures |AntiDiagonal(s)| >= WIN_LENGTH <==> WIN_LENGTH - 1 <= s <= ROWS + COLS - 1 - WIN_LENGTH
  {
  }

  /** The diagonals long enough to hold a winning line are those with -4 <= row - col <= 1. */
  lemma LongDiagonals(d: int)
    ensures |Diagonal(d)| >= WIN_LENGTH <==> -(COLS - WIN_LENGTH) <= d <= ROWS - WIN_LENGTH
  {
  }

  /**
   * The diagonal scans are skipped exactly for the in-bounds cells that lie
   * on no diagonal or anti-diagonal long enough to hold a winning line.
   */
  lemma PruningIsExact(row: int, col: int)
    requires InBounds(Pos(row, col))
    ensures WinningDiagLineImpossible(row, col)
        <==> |AntiDiagonal(row + col)| < WIN_LENGTH && |Diagonal(row - col)| < WIN_LENGTH
  {
    LongAntiDiagonals(row + col);
    LongDiagonals(row - col);
  }

  // ---------------------------------------------------------------------
  // Which lines the anchors scan
  // ---------------------------------------------------------------------

  /** Standing off the board on the side it moves away from, a line scan reads nothing more. */
  lemma {:induction false} LinePathOff(d: Direction, r: int, c: int, n: nat)
    requires r < 0 || (d == Ascending && c >= COLS) || (d == Descending && c < 0)
    ensures LinePath(d, r, c, n) == []
    decreases n
  {
    if n > 0 {
      LinePathOff(d, r, c + ColStep(d), n - 1);
    }
  }

  /** How many cells of the straight line from an in-bounds (r, c) lie on the board. */
  function Reach(d: Direction, r: int, c: int): int {
    Min(r + 1, if d == Ascending then COLS - c else c + 1)
  }

  /** The cell k steps from (r, c) along direction d. */
  function Along(d: Direction, r: int, c: int, k: int): Pos {
    if d == Ascending then Pos(r - k, c + k) else Pos(r - k, c - k)
  }

  /** From an in-bounds cell a line scan reads the straight line to the board's edge, at most n cells of it. */
  lemma LinePathStraight(d: Direction, r: int, c: int, n: nat)
    requires InBounds(Pos(r, c))
    ensures |LinePath(d, r, c, n)| == Min(n, Reach(d, r, c))
    ensures forall k :: 0 <= k < |LinePath(d, r, c, n)| ==> LinePath(d, r, c, n)[k] == Along(d, r, c, k)
  {
    LinePathLength(d, r, c, n);
    LinePathCells(d, r, c, n);
  }

  lemma {:induction false} LinePathLength(d: Direction, r: int, c: int, n: nat)
    requires InBounds(Pos(r, c))
    ensures |LinePath(d, r, c, n)| == Min(n, Reach(d, r, c))
    decreases n
  {
    if n > 0 {
      var next := Along(d, r, c, 1);
      LinePathStep(d, r, c, n);
      if InBounds(next) {
        LinePathLength(d, next.row, next.col, n - 1);
        assert Reach(d, r, c) == Reach(d, next.row, next.col) + 1;
      } else {
        LinePathOff(d, next.row, next.col, n - 1);
        assert Reach(d, r, c) == 1;
      }
    }
  }

  lemma {:induction false} LinePathCells(d: Direction, r: int, c: int, n: nat)
    requires InBounds(Pos(r, c))
    ensures forall k :: 0 <= k < |LinePath(d, r, c, n)| ==> LinePath(d, r, c, n)[k] == Along(d, r, c, k)
    decreases n
  {
    if n > 0 {
      var next := Along(d, r, c, 1);
      var path, rest := LinePath(d, r, c, n), LinePath(d, next.row, next.col, n - 1);
      LinePathStep(d, r, c, n);
      assert path == [Pos(r, c)] + rest;
      if InBounds(next) {
        LinePathCells(d, next.row, next.col, n - 1);
        forall k | 1 <= k < |path| ensures path[k] == Along(d, r, c, k) {
          assert path[k] == rest[k - 1] == Along(d, next.row, next.col, k - 1);
        }
      } else {
        LinePathOff(d, next.row, next.col, n - 1);
      }
    }
  }

  /** The j-th ascending anchor's scan reads exactly the anti-diagonal row + col == WIN_LENGTH - 1 + j. */
  lemma AscendingLine(j: int)
    requires 0 <= j < |AscAnchors()|
    ensures LinePath(Ascending, AscAnchors()[j].row, AscAnchors()[j].col, WIN_LENGTH + 1)
         == AntiDiagonal(WIN_LENGTH - 1 + j)
  {
    var a := AscAnchors()[j];
    assert a == if j == 0 then Pos(ROWS - 2, 0) else Pos(ROWS - 1, j - 1);
    LinePathStraight(Ascending, a.row, a.col, WIN_LENGTH + 1);
    var path := LinePath(Ascending, a.row, a.col, WIN_LENGTH + 1);
    var line := AntiDiagonal(WIN_LENGTH - 1 + j);
    assert |path| == |line|;
    forall k | 0 <= k < |path| ensures path[k] == line[k] { }
  }

  /** The j-th anchor of the corrected descending family reads exactly the diagonal row - col == j - 4. */
  lemma DescendingLine(j: int)
    requires 0 <= j < |FixedDescAnchors()|
    ensures LinePath(Descending, FixedDescAnchors()[j].row, FixedDescAnchors()[j].col, WIN_LENGTH + 1)
         == Diagonal(j - (COLS - WIN_LENGTH))
  {
    var a := FixedDescAnchors()[j];
    assert a == if j == 0 then Pos(ROWS - 2, COLS - 1) else Pos(ROWS - 1, COLS - j);
    LinePathStraight(Descending, a.row, a.col, WIN_LENGTH + 1);
    var path := LinePath(Descending, a.row, a.col, WIN_LENGTH + 1);
    var line := Diagonal(j - (COLS - WIN_LENGTH));
    assert |path| == |line|;
    forall k | 0 <= k < |path| ensures path[k] == line[k] { }
  }

  /** The anchors of the source's searchDescending are the corrected family without its last anchor (ROWS - 1, 4). */
  lemma DescAnchorsArePrefix()
    ensures |DescAnchors()| == |FixedDescAnchors()| - 1
    ensures DescAnchors() == FixedDescAnchors()[..|DescAnchors()|]
    ensures FixedDescAnchors()[|DescAnchors()|] == Pos(ROWS - 1, WIN_LENGTH - 1)
  {
  }

  lemma RunNeedsLength(s: seq<int>, p: int)
    requires HasRun(s, p)
    ensures |s| >= WIN_LENGTH
  {
    var i :| RunAt(s, i, p);
  }

  /**
   * The ascending scans report a win exactly when some anti-diagonal of the
   * board holds WIN_LENGTH discs of p in a row: their anchors enumerate every
   * anti-diagonal long enough, row + col = 4 .. 9.
   */
  lemma AscendingScanDetects(g: Grid, p: int)
    requires WellShaped(g)
    ensures AnchorsHits(g, Ascending, AscAnchors(), p) > 0 <==> exists s :: HasRun(Values(g, AntiDiagonal(s)), p)
  {
    if AnchorsHits(g, Ascending, AscAnchors(), p) > 0 {
      AscendingScanSound(g, p);
    }
    if exists s :: HasRun(Values(g, AntiDiagonal(s)), p) {
      var s :| HasRun(Values(g, AntiDiagonal(s)), p);
      AscendingScanComplete(g, s, p);
    }
  }

  /** A reporting ascending scan has found a run on an anti-diagonal. */
  lemma AscendingScanSound(g: Grid, p: int)
    requires WellShaped(g) && AnchorsHits(g, Ascending, AscAnchors(), p) > 0
    ensures exists s :: HasRun(Values(g, AntiDiagonal(s)), p)
  {
    AnchorsHitsPositive(g, Ascending, AscAnchors(), p);
    var j :| 0 <= j < |AscAnchors()| && LineHits(g, Ascending, AscAnchors()[j], p) > 0;
    AscendingLine(j);
    HitsIffRun(Values(g, AntiDiagonal(WIN_LENGTH - 1 + j)), p);
  }

  /** A run on any anti-diagonal makes the ascending scans report. */
  lemma AscendingScanComplete(g: Grid, s: int, p: int)
    requires WellShaped(g) && HasRun(Values(g, AntiDiagonal(s)), p)
    ensures AnchorsHits(g, Ascending, AscAnchors(), p) > 0
  {
    RunNeedsLength(Values(g, AntiDiagonal(s)), p);
    LongAntiDiagonals(s);
    var j := s - (WIN_LENGTH - 1);
    AscendingLine(j);
    HitsIffRun(Values(g, AntiDiagonal(s)), p);
    AnchorsHitsFrom(g, Ascending, AscAnchors(), j, p);
  }

  /** One corrected descending anchor reports a win exactly when its diagonal holds a run of p. */
  lemma FixedLineHitsIff(g: Grid, j: int, p: int)
    requires WellShaped(g) && 0 <= j < |FixedDescAnchors()|
    ensures LineHits(g, Descending, FixedDescAnchors()[j], p) > 0 <==> HasRun(Values(g, Diagonal(j - (COLS - WIN_LENGTH))), p)
  {
    DescendingLine(j);
    HitsIffRun(Values(g, Diagonal(j - (COLS - WIN_LENGTH))), p);
  }

  /**
   * The descending scans of the source report a win exactly when one of the
   * diagonals row - col = -4 .. 0 holds WIN_LENGTH discs of p in a row; the
   * diagonal row - col == 1, which is long enough, is not among them.
   */
  lemma DescendingScanDetects(g: Grid, p: int)
    requires WellShaped(g)
    ensures AnchorsHits(g, Descending, DescAnchors(), p) > 0
        <==> exists d :: -(COLS - WIN_LENGTH) <= d <= 0 && HasRun(Values(g, Diagonal(d)), p)
  {
    if AnchorsHits(g, Descending, DescAnchors(), p) > 0 {
      DescendingScanSound(g, p);
    }
    if exists d :: -(COLS - WIN_LENGTH) <= d <= 0 && HasRun(Values(g, Diagonal(d)), p) {
      var d :| -(COLS - WIN_LENGTH) <= d <= 0 && HasRun(Values(g, Diagonal(d)), p);
      DescendingScanComplete(g, d, p);
    }
  }

  /** A reporting descending scan of the source has found a run on a diagonal with d in -4 .. 0. */
  lemma DescendingScanSound(g: Grid, p: int)
    requires WellShaped(g) && AnchorsHits(g, Descending, DescAnchors(), p) > 0
    ensures exists d :: -(COLS - WIN_LENGTH) <= d <= 0 && HasRun(Values(g, Diagonal(d)), p)
  {
    var anchors := DescAnchors();
    AnchorsHitsPositive(g, Descending, anchors, p);
    var j :| 0 <= j < |anchors| && LineHits(g, Descending, anchors[j], p) > 0;
    DescAnchorIsFixed(j);
    FixedLineHitsIff(g, j, p);
    assert HasRun(Values(g, Diagonal(j - (COLS - WIN_LENGTH))), p);
  }

  /** The j-th anchor of the source's descending scans is the j-th corrected anchor. */
  lemma DescAnchorIsFixed(j: int)
    requires 0 <= j < |DescAnchors()|
    ensures j < |FixedDescAnchors()| && DescAnchors()[j] == FixedDescAnchors()[j]
  {
    DescAnchorsArePrefix();
  }

  /** A run on a diagonal with d in -4 .. 0 makes the descending scans of the source report. */
  lemma DescendingScanComplete(g: Grid, d: int, p: int)
    requires WellShaped(g) && -(COLS - WIN_LENGTH) <= d <= 0 && HasRun(Values(g, Diagonal(d)), p)
    ensures AnchorsHits(g, Descending, DescAnchors(), p) > 0
  {
    var anchors := DescAnchors();
    var j := d + (COLS - WIN_LENGTH);
    DescAnchorsArePrefix();
    DescAnchorIsFixed(j);
    FixedLineHitsIff(g, j, p);
    AnchorsHitsFrom(g, Descending, anchors, j, p);
  }

  lemma FixedDescendingScanSound(g: Grid, p: int)
    requires WellShaped(g) && AnchorsHits(g, Descending, FixedDescAnchors(), p) > 0
    ensures exists d :: HasRun(Values(g, Diagonal(d)), p)
  {
    AnchorsHitsPositive(g, Descending, FixedDescAnchors(), p);
    var j :| 0 <= j < |FixedDescAnchors()| && LineHits(g, Descending, FixedDescAnchors()[j], p) > 0;
    FixedLineHitsIff(g, j, p);
  }

  lemma FixedDescendingScanComplete(g: Grid, d: int, p: int)
    requires WellShaped(g) && HasRun(Values(g, Diagonal(d)), p)
    ensures AnchorsHits(g, Descending, FixedDescAnchors(), p) > 0
  {
    RunNeedsLength(Values(g, Diagonal(d)), p);
    LongDiagonals(d);
    var j := d + (COLS - WIN_LENGTH);
    FixedLineHitsIff(g, j, p);
    AnchorsHitsPositive(g, Descending, FixedDescAnchors(), p);
  }

  /** With the corrected loop bound the descending scans find a run on every diagonal of the board. */
  lemma FixedDescendingScanDetects(g: Grid, p: int)
    requires WellShaped(g)
    ensures AnchorsHits(g, Descending, FixedDescAnchors(), p) > 0 <==> exists d :: HasRun(Values(g, Diagonal(d)), p)
  {
    if AnchorsHits(g, Descending, FixedDescAnchors(), p) > 0 {
      FixedDescendingScanSound(g, p);
    }
    if exists d :: HasRun(Values(g, Diagonal(d)), p) {
      var d :| HasRun(Values(g, Diagonal(d)), p);
      FixedDescendingScanComplete(g, d, p);
    }
  }

  // ---------------------------------------------------------------------
  // Dropping a disc
  // ---------------------------------------------------------------------

  /** The board before the first move: every cell EMPTY. */
  function EmptyGrid(): (g: Grid)
    ensures WellShaped(g) && forall r, c :: 0 <= r < ROWS && 0 <= c < COLS ==> g[r][c] == EMPTY
  {
    seq(ROWS, _ => seq(COLS, _ => EMPTY))
  }

  /** The empty board obeys gravity: it holds no disc at all. */
  lemma EmptyGridGravity()
    ensures Gravity(EmptyGrid())
  {
  }

  /** No disc floats: below every occupied cell the cell is occupied too. */
  ghost predicate Gravity(g: Grid)
    requires WellShaped(g)
  {
    forall r, c :: 0 <= r < ROWS - 1 && 0 <= c < COLS ==> Supported(g, r, c)
  }

  /** The cell (r, c) is EMPTY or stands on an occupied cell. */
  predicate Supported(g: Grid, r: int, c: int)
    requires WellShaped(g) && 0 <= r < ROWS - 1 && 0 <= c < COLS
  {
    g[r][c] != EMPTY ==> g[r + 1][c] != EMPTY
  }

  lemma {:induction false} GravityBelow(g: Grid, r: int, r': int, c: int)
    requires WellShaped(g) && Gravity(g)
    requires 0 <= r <= r' < ROWS && 0 <= c < COLS && g[r][c] != EMPTY
    ensures g[r'][c] != EMPTY
    decreases r' - r
  {
    if r < r' {
      assert Supported(g, r, c);
      GravityBelow(g, r + 1, r', c);
    }
  }

  /**
   * The row makeMove fills when it scans column col upward from row `from`:
   * the lowest EMPTY cell at or above `from`, or None when there is none.
   */
  function DropRow(g: Grid, col: int, from: int): (row: Option<int>)
    requires WellShaped(g) && 0 <= col < COLS && from < ROWS
    ensures row.Some? ==> 0 <= row.value <= from && g[row.value][col] == EMPTY
    ensures row.Some? ==> forall i :: row.value < i <= from ==> g[i][col] != EMPTY
    ensures row.None? <==> forall i :: 0 <= i <= from ==> g[i][col] != EMPTY
    decreases from + 1
  {
    if from < 0 then None
    else if g[from][col] == EMPTY then Some(from)
    else DropRow(g, col, from - 1)
  }

  /** The board after makeMove(col, p): unchanged when the column is full. */
  function Drop(g: Grid, col: int, p: int): (g': Grid)
    requires WellShaped(g) && 0 <= col < COLS
    ensures WellShaped(g')
  {
    match DropRow(g, col, ROWS - 1)
    case None => g
    case Some(r) => g[r := g[r][col := p]]
  }

  /**
   * On a board without floating discs, the disc lands on top of the column's
   * stack: every cell above its row is EMPTY, and no disc lands exactly when
   * the top cell is taken.
   */
  lemma DropLandsOnStack(g: Grid, col: int)
    requires WellShaped(g) && Gravity(g) && 0 <= col < COLS
    ensures DropRow(g, col, ROWS - 1).None? <==> g[0][col] != EMPTY
    ensures DropRow(g, col, ROWS - 1).Some? ==>
              forall i :: 0 <= i <= DropRow(g, col, ROWS - 1).value ==> g[i][col] == EMPTY
  {
    if g[0][col] != EMPTY {
      forall i | 0 <= i < ROWS ensures g[i][col] != EMPTY {
        GravityBelow(g, 0, i, col);
      }
    }
    match DropRow(g, col, ROWS - 1)
    case None =>
    case Some(r) =>
      forall i | 0 <= i <= r ensures g[i][col] == EMPTY {
        if g[i][col] != EMPTY {
          GravityBelow(g, i, r, col);
        }
      }
  }

  /** A move keeps discs from floating. */
  lemma DropPreservesGravity(g: Grid, col: int, p: int)
    requires WellShaped(g) && Gravity(g) && 0 <= col < COLS
    ensures Gravity(Drop(g, col, p))
  {
    match DropRow(g, col, ROWS - 1)
    case None =>
    case Some(r) =>
      var g' := Drop(g, col, p);
      forall r0, c | 0 <= r0 < ROWS - 1 && 0 <= c < COLS
        ensures Supported(g', r0, c)
      {
        assert Supported(g, r0, c);
      }
  }

  // ---------------------------------------------------------------------
  // What a move reports
  // ---------------------------------------------------------------------

  /** Column col of g, top to bottom. */
  function Column(g: Grid, col: int): (column: seq<int>)
    requires WellShaped(g) && 0 <= col < COLS
    ensures |column| == ROWS && forall r :: 0 <= r < ROWS ==> column[r] == g[r][col]
  {
    seq(ROWS, r requires 0 <= r < ROWS => g[r][col])
  }

  /**
   * searchVertically: one setWinner call when the placement row is at most 1
   * and the WIN_LENGTH cells from it downward all hold p.
   */
  function VerticalHits(g: Grid, row: int, col: int, p: int): nat
    requires WellShaped(g) && InBounds(Pos(row, col))
  {
    if row > 1 then 0
    else if forall i :: row <= i < row + WIN_LENGTH ==> g[i][col] == p then 1
    else 0
  }

  /**
   * When the new disc p is the top of its column, the vertical scan reports
   * exactly when the column holds a run of p.
   */
  lemma VerticalScanComplete(g: Grid, row: int, col: int, p: int)
    requires WellShaped(g) && InBounds(Pos(row, col)) && g[row][col] == p
    requires forall i :: 0 <= i < row ==> g[i][col] != p
    ensures VerticalHits(g, row, col, p) > 0 <==> HasRun(Column(g, col), p)
  {
    var column := Column(g, col);
    if VerticalHits(g, row, col, p) > 0 {
      assert RunAt(column, row, p);
    }
    if HasRun(column, p) {
      var i :| RunAt(column, i, p);
      assert column[i] == p;
      assert row <= 1;
    }
  }

  /**
   * searchDiagonally: nothing for the four pruned cells, otherwise the
   * ascending scans followed by the descending scans started at the given
   * anchors.
   */
  function DiagonalHits(g: Grid, row: int, col: int, p: int, descAnchors: seq<Pos>): nat
    requires WellShaped(g)
  {
    if WinningDiagLineImpossible(row, col) then 0
    else AnchorsHits(g, Ascending, AscAnchors(), p) + AnchorsHits(g, Descending, descAnchors, p)
  }

  /**
   * checkForWinningLine after a disc of p landed at (row, col): the setWinner
   * calls of the horizontal, vertical and diagonal scans together.
   */
  function ScanHits(g: Grid, row: int, col: int, p: int, descAnchors: seq<Pos>): nat
    requires WellShaped(g) && InBounds(Pos(row, col))
  {
    Hits(g[row], p) + VerticalHits(g, row, col, p) + DiagonalHits(g, row, col, p, descAnchors)
  }

  /** The setWinner calls of checkForWinningLine as the source writes it. */
  function MoveHits(g: Grid, row: int, col: int, p: int): nat
    requires WellShaped(g) && InBounds(Pos(row, col))
  {
    ScanHits(g, row, col, p, DescAnchors())
  }

  /** The setWinner calls of checkForWinningLine with the descending loop bound corrected. */
  function FixedMoveHits(g: Grid, row: int, col: int, p: int): nat
    requires WellShaped(g) && InBounds(Pos(row, col))
  {
    ScanHits(g, row, col, p, FixedDescAnchors())
  }

  /**
   * The setWinner calls of makeMove(col, p) on g: none for a full column,
   * otherwise one per scan that reports.
   */
  function MoveReports(g: Grid, col: int, p: int): (reports: seq<int>)
    requires WellShaped(g) && 0 <= col < COLS
    ensures forall i :: 0 <= i < |reports| ==> reports[i] == p
  {
    match DropRow(g, col, ROWS - 1)
    case None => []
    case Some(r) => Repeat(p, MoveHits(Drop(g, col, p), r, col, p))
  }

  /** Player p has WIN_LENGTH discs in a row somewhere on the board: in a row, a column or a diagonal. */
  ghost predicate Won(g: Grid, p: int)
    requires WellShaped(g)
  {
    (exists r :: 0 <= r < ROWS && HasRun(g[r], p)) ||
    (exists c :: 0 <= c < COLS && HasRun(Column(g, c), p)) ||
    (exists s :: HasRun(Values(g, AntiDiagonal(s)), p)) ||
    (exists d :: HasRun(Values(g, Diagonal(d)), p))
  }

  /** A line that avoids the only changed cell reads the same values. */
  lemma ValuesAvoiding(g: Grid, g': Grid, path: seq<Pos>, q: Pos)
    requires WellShaped(g) && WellShaped(g')
    requires forall k :: 0 <= k < |path| ==> InBounds(path[k]) && path[k] != q
    requires forall r, c :: 0 <= r < ROWS && 0 <= c < COLS && Pos(r, c) != q ==> g'[r][c] == g[r][c]
    ensures Values(g', path) == Values(g, path)
  {
  }

  /**
   * What the move as written reports: a win in the row of the new disc, in
   * its column, or (unless the disc is on a pruned cell) on any
   * anti-diagonal or on one of the diagonals row - col = -4 .. 0.
   */
  lemma MoveReportsIff(g: Grid, col: int, p: int)
    requires WellShaped(g) && Gravity(g) && p != EMPTY && 0 <= col < COLS
    requires DropRow(g, col, ROWS - 1).Some?
    ensures var r := DropRow(g, col, ROWS - 1).value;
            var g' := Drop(g, col, p);
            MoveHits(g', r, col, p) > 0 <==>
              HasRun(g'[r], p) || HasRun(Column(g', col), p) ||
              (!WinningDiagLineImpossible(r, col) &&
               ((exists s :: HasRun(Values(g', AntiDiagonal(s)), p)) ||
                (exists d :: -(COLS - WIN_LENGTH) <= d <= 0 && HasRun(Values(g', Diagonal(d)), p))))
  {
    var r := DropRow(g, col, ROWS - 1).value;
    var g' := Drop(g, col, p);
    DropLandsOnStack(g, col);
    HitsIffRun(g'[r], p);
    VerticalScanComplete(g', r, col, p);
    AscendingScanDetects(g', p);
    DescendingScanDetects(g', p);
  }

  /**
   * A disc on a pruned cell q lies on no line long enough to win, so a run on
   * a line after the move was there before it.
   */
  lemma PrunedCellAddsNoRun(g: Grid, g': Grid, q: Pos, line: seq<Pos>, p: int)
    requires WellShaped(g) && WellShaped(g') && InBounds(q)
    requires forall r, c :: 0 <= r < ROWS && 0 <= c < COLS && Pos(r, c) != q ==> g'[r][c] == g[r][c]
    requires forall k :: 0 <= k < |line| ==> InBounds(line[k])
    requires q in line ==> |line| < WIN_LENGTH
    requires HasRun(Values(g', line), p)
    ensures HasRun(Values(g, line), p)
  {
    RunNeedsLength(Values(g', line), p);
    ValuesAvoiding(g, g', line, q);
  }

  /** A cell on AntiDiagonal(s) has row + col == s; a cell on Diagonal(d) has row - col == d. */
  lemma OnLine(q: Pos, s: int, d: int)
    ensures q in AntiDiagonal(s) ==> q.row + q.col == s
    ensures q in Diagonal(d) ==> q.row - q.col == d
  {
    if q in AntiDiagonal(s) {
      var k :| 0 <= k < |AntiDiagonal(s)| && AntiDiagonal(s)[k] == q;
    }
    if q in Diagonal(d) {
      var k :| 0 <= k < |Diagonal(d)| && Diagonal(d)[k] == q;
    }
  }

  /** A move on a pruned cell q creates no run on an anti-diagonal ... */
  lemma PrunedMoveAntiDiagonal(g: Grid, g': Grid, q: Pos, s: int, p: int)
    requires WellShaped(g) && WellShaped(g') && InBounds(q) && WinningDiagLineImpossible(q.row, q.col)
    requires forall r, c :: 0 <= r < ROWS && 0 <= c < COLS && Pos(r, c) != q ==> g'[r][c] == g[r][c]
    ensures HasRun(Values(g', AntiDiagonal(s)), p) ==> HasRun(Values(g, AntiDiagonal(s)), p)
  {
    PruningIsExact(q.row, q.col);
    OnLine(q, s, 0);
    if HasRun(Values(g', AntiDiagonal(s)), p) {
      PrunedCellAddsNoRun(g, g', q, AntiDiagonal(s), p);
    }
  }

  /** ... nor on a diagonal. */
  lemma PrunedMoveDiagonal(g: Grid, g': Grid, q: Pos, d: int, p: int)
    requires WellShaped(g) && WellShaped(g') && InBounds(q) && WinningDiagLineImpossible(q.row, q.col)
    requires forall r, c :: 0 <= r < ROWS && 0 <= c < COLS && Pos(r, c) != q ==> g'[r][c] == g[r][c]
    ensures HasRun(Values(g', Diagonal(d)), p) ==> HasRun(Values(g, Diagonal(d)), p)
  {
    PruningIsExact(q.row, q.col);
    OnLine(q, 0, d);
    if HasRun(Values(g', Diagonal(d)), p) {
      PrunedCellAddsNoRun(g, g', q, Diagonal(d), p);
    }
  }

  /** A move changes one cell: the other rows and the other columns read as before. */
  lemma DropChangesOneCell(g: Grid, col: int, p: int)
    requires WellShaped(g) && 0 <= col < COLS && DropRow(g, col, ROWS - 1).Some?
    ensures var r := DropRow(g, col, ROWS - 1).value;
            var g' := Drop(g, col, p);
            g'[r][col] == p &&
            (forall r0, c :: 0 <= r0 < ROWS && 0 <= c < COLS && Pos(r0, c) != Pos(r, col) ==> g'[r0][c] == g[r0][c]) &&
            (forall r0 :: 0 <= r0 < ROWS && r0 != r ==> g'[r0] == g[r0]) &&
            (forall c :: 0 <= c < COLS && c != col ==> Column(g', c) == Column(g, c))
  {
    var g' := Drop(g, col, p);
    forall c | 0 <= c < COLS && c != col ensures Column(g', c) == Column(g, c) {
    }
  }

  /**
   * A win that a move creates shows in the row or the column of the new disc,
   * or, when the disc is not on a pruned cell, on some diagonal.
   */
  lemma NewWinThroughMove(g: Grid, col: int, p: int)
    requires WellShaped(g) && 0 <= col < COLS
    requires DropRow(g, col, ROWS - 1).Some? && !Won(g, p) && Won(Drop(g, col, p), p)
    ensures var r := DropRow(g, col, ROWS - 1).value;
            var g' := Drop(g, col, p);
            HasRun(g'[r], p) || HasRun(Column(g', col), p) ||
            (!WinningDiagLineImpossible(r, col) &&
             ((exists s :: HasRun(Values(g', AntiDiagonal(s)), p)) || (exists d :: HasRun(Values(g', Diagonal(d)), p))))
  {
    var r := DropRow(g, col, ROWS - 1).value;
    var g' := Drop(g, col, p);
    DropChangesOneCell(g, col, p);
    forall r0 | 0 <= r0 < ROWS && r0 != r ensures !HasRun(g'[r0], p) {
      assert g'[r0] == g[r0];
    }
    forall c | 0 <= c < COLS && c != col ensures !HasRun(Column(g', c), p) {
      assert Column(g', c) == Column(g, c);
    }
    if WinningDiagLineImpossible(r, col) {
      forall s ensures !HasRun(Values(g', AntiDiagonal(s)), p) {
        PrunedMoveAntiDiagonal(g, g', Pos(r, col), s, p);
      }
      forall d ensures !HasRun(Values(g', Diagonal(d)), p) {
        PrunedMoveDiagonal(g, g', Pos(r, col), d, p);
      }
    }
  }

  /**
   * With the corrected descending bound, a move on a board where p has not
   * yet won reports exactly when p has won after it.
   */
  lemma FixedMoveDetectsWin(g: Grid, col: int, p: int)
    requires WellShaped(g) && Gravity(g) && p != EMPTY && 0 <= col < COLS
    requires DropRow(g, col, ROWS - 1).Some? && !Won(g, p)
    ensures var r := DropRow(g, col, ROWS - 1).value;
            FixedMoveHits(Drop(g, col, p), r, col, p) > 0 <==> Won(Drop(g, col, p), p)
  {
    var r := DropRow(g, col, ROWS - 1).value;
    var g' := Drop(g, col, p);
    DropLandsOnStack(g, col);
    HitsIffRun(g'[r], p);
    VerticalScanComplete(g', r, col, p);
    AscendingScanDetects(g', p);
    FixedDescendingScanDetects(g', p);
    if Won(g', p) {
      NewWinThroughMove(g, col, p);
    }
  }

  // ---------------------------------------------------------------------
  // A win the source does not report
  // ---------------------------------------------------------------------

  /** A cell at index k that is not p meets every window of WIN_LENGTH entries of vs. */
  lemma BlockedRun(vs: seq<int>, k: int, p: int)
    requires |vs| - WIN_LENGTH <= k < WIN_LENGTH && 0 <= k < |vs| && vs[k] != p
    ensures !HasRun(vs, p)
  {
  }

  /** A board with eight discs of each player, player 0 to move. */
  function MissedBoard(): Grid {
    [[-1, -1, -1, -1, -1, -1, -1, -1, -1],
     [ 0, -1, -1, -1, -1, -1, -1, -1, -1],
     [ 1,  0, -1, -1, -1, -1, -1, -1, -1],
     [ 0,  1,  0, -1, -1, -1, -1, -1, -1],
     [ 1,  0,  1,  0, -1, -1, -1, -1,  1],
     [ 0,  1,  1,  1, -1, -1, -1, -1,  0]]
  }

  lemma MissedBoardShape()
    ensures WellShaped(MissedBoard()) && Gravity(MissedBoard())
  {
    var g := MissedBoard();
    forall r, c | 0 <= r < ROWS - 1 && 0 <= c < COLS ensures Supported(g, r, c) {
      assert g[r + 1][0] != EMPTY && g[r + 1][0] != EMPTY;
    }
  }

  /** A line too short to hold WIN_LENGTH cells holds no run. */
  lemma ShortLineNoRun(g: Grid, line: seq<Pos>, p: int)
    requires WellShaped(g) && |line| < WIN_LENGTH && forall k :: 0 <= k < |line| ==> InBounds(line[k])
    ensures !HasRun(Values(g, line), p)
  {
  }

  /** BlockedRun for the values of g along a line. */
  lemma BlockedLine(g: Grid, line: seq<Pos>, k: int, p: int)
    requires WellShaped(g) && forall i :: 0 <= i < |line| ==> InBounds(line[i])
    requires |line| - WIN_LENGTH <= k < WIN_LENGTH && 0 <= k < |line|
    requires InBounds(line[k]) && g[line[k].row][line[k].col] != p
    ensures !HasRun(Values(g, line), p)
  {
    BlockedRun(Values(g, line), k, p);
  }

  lemma MissedBoardRowsAndColumns(p: int)
    requires p == 0 || p == 1
    ensures forall r :: 0 <= r < ROWS ==> !HasRun(MissedBoard()[r], p)
    ensures forall c :: 0 <= c < COLS ==> !HasRun(Column(MissedBoard(), c), p)
  {
    var g := MissedBoard();
    forall r | 0 <= r < ROWS ensures !HasRun(g[r], p) {
      BlockedRun(g[r], 4, p);
    }
    forall c | 0 <= c < COLS ensures !HasRun(Column(g, c), p) {
      BlockedRun(Column(g, c), if c == 0 then 2 - p else 1, p);
    }
  }

  /** MissedBoard after player 0 drops a disc into 0-based column 4. */
  function MissedBoardAfter(): Grid {
    [[-1, -1, -1, -1, -1, -1, -1, -1, -1],
     [ 0, -1, -1, -1, -1, -1, -1, -1, -1],
     [ 1,  0, -1, -1, -1, -1, -1, -1, -1],
     [ 0,  1,  0, -1, -1, -1, -1, -1, -1],
     [ 1,  0,  1,  0, -1, -1, -1, -1,  1],
     [ 0,  1,  1,  1,  0, -1, -1, -1,  0]]
  }

  lemma MissedBoardAntiDiagonal(g: Grid, s: int, p: int)
    requires g == MissedBoard() || g == MissedBoardAfter()
    requires p == 0 || p == 1
    ensures !HasRun(Values(g, AntiDiagonal(s)), p)
  {
    var line := AntiDiagonal(s);
    if s < WIN_LENGTH - 1 || s > ROWS + COLS - 1 - WIN_LENGTH {
      LongAntiDiagonals(s);
      ShortLineNoRun(g, line, p);
    } else {
      // One EMPTY cell (row, s - row) meets both windows of the line.
      var k := if s == 4 || s == 6 || s == 7 then 2 else if s == 5 then 3 else 1;
      assert line[k] == Pos(s - Max(0, s - (ROWS - 1)) - k, Max(0, s - (ROWS - 1)) + k);
      assert g[line[k].row][line[k].col] == EMPTY;
      BlockedLine(g, line, k, p);
    }
  }

  lemma MissedBoardDiagonal(g: Grid, d: int, p: int)
    requires g == MissedBoard() || (g == MissedBoardAfter() && d != ROWS - WIN_LENGTH)
    requires p == 0 || p == 1
    ensures !HasRun(Values(g, Diagonal(d)), p)
  {
    var line := Diagonal(d);
    if d < -(COLS - WIN_LENGTH) || d > ROWS - WIN_LENGTH {
      LongDiagonals(d);
      ShortLineNoRun(g, line, p);
    } else {
      var k := if d == 1 then 0 else 1;
      var hi := Min(COLS - 1, ROWS - 1 - d);
      assert line[k] == Pos(hi - k + d, hi - k);
      assert g[line[k].row][line[k].col] == EMPTY;
      BlockedLine(g, line, k, p);
    }
  }

  /** A board on which no row, column or diagonal holds a run of p is not won by p. */
  lemma NotWon(g: Grid, p: int)
    requires WellShaped(g)
    requires forall r :: 0 <= r < ROWS ==> !HasRun(g[r], p)
    requires forall c :: 0 <= c < COLS ==> !HasRun(Column(g, c), p)
    requires forall s :: !HasRun(Values(g, AntiDiagonal(s)), p)
    requires forall d :: !HasRun(Values(g, Diagonal(d)), p)
    ensures !Won(g, p)
  {
  }

  lemma MissedBoardAntiDiagonals(p: int)
    requires p == 0 || p == 1
    ensures forall s :: !HasRun(Values(MissedBoard(), AntiDiagonal(s)), p)
  {
    forall s ensures !HasRun(Values(MissedBoard(), AntiDiagonal(s)), p) {
      MissedBoardAntiDiagonal(MissedBoard(), s, p);
    }
  }

  lemma MissedBoardDiagonals(p: int)
    requires p == 0 || p == 1
    ensures forall d :: !HasRun(Values(MissedBoard(), Diagonal(d)), p)
  {
    forall d ensures !HasRun(Values(MissedBoard(), Diagonal(d)), p) {
      MissedBoardDiagonal(MissedBoard(), d, p);
    }
  }

  /** Neither player has a winning line on MissedBoard. */
  lemma MissedBoardUndecided(p: int)
    requires p == 0 || p == 1
    ensures WellShaped(MissedBoard()) && !Won(MissedBoard(), p)
  {
    MissedBoardRowsAndColumns(p);
    MissedBoardAntiDiagonals(p);
    MissedBoardDiagonals(p);
    NotWon(MissedBoard(), p);
  }

  /** After the move, no line that the as-written scans read holds five discs of player 0. */
  lemma MissedMoveScansNoRun()
    ensures WellShaped(MissedBoardAfter())
    ensures !HasRun(MissedBoardAfter()[ROWS - 1], 0)
    ensures !HasRun(Column(MissedBoardAfter(), 4), 0)
    ensures forall s :: !HasRun(Values(MissedBoardAfter(), AntiDiagonal(s)), 0)
    ensures forall d :: -(COLS - WIN_LENGTH) <= d <= 0 ==> !HasRun(Values(MissedBoardAfter(), Diagonal(d)), 0)
  {
    var g := MissedBoardAfter();
    var bottom := g[ROWS - 1];
    forall i | 0 <= i ensures !RunAt(bottom, i, 0) {
      if i <= 3 {
        assert bottom[3] != 0;
      } else {
        assert bottom[5] != 0;
      }
    }
    BlockedRun(Column(g, 4), 1, 0);
    forall s ensures !HasRun(Values(g, AntiDiagonal(s)), 0) {
      MissedBoardAntiDiagonal(g, s, 0);
    }
    forall d | -(COLS - WIN_LENGTH) <= d <= 0 ensures !HasRun(Values(g, Diagonal(d)), 0) {
      MissedBoardDiagonal(g, d, 0);
    }
  }

  /** Player 0's disc in column 4 lands on the bottom row. */
  lemma MissedMoveLands()
    ensures WellShaped(MissedBoard())
    ensures DropRow(MissedBoard(), 4, ROWS - 1) == Some(ROWS - 1)
    ensures Drop(MissedBoard(), 4, 0) == MissedBoardAfter()
  {
    var g, g' := MissedBoard(), MissedBoardAfter();
    assert DropRow(g, 4, ROWS - 1) == Some(ROWS - 1);
    assert g[ROWS - 1][4 := 0] == g'[ROWS - 1];
    assert g[ROWS - 1 := g[ROWS - 1][4 := 0]] == g';
  }

  /** After the move, the diagonal row - col == 1 holds five discs of player 0. */
  lemma MissedMoveWins()
    ensures WellShaped(MissedBoardAfter()) && Won(MissedBoardAfter(), 0)
  {
    var g' := MissedBoardAfter();
    var line := Diagonal(ROWS - WIN_LENGTH);
    assert forall k :: 0 <= k < |line| ==> line[k] == Pos(ROWS - 1 - k, WIN_LENGTH - 1 - k);
    assert RunAt(Values(g', line), 0, 0);
  }

  /**
   * The move that completes the diagonal (1, 0), (2, 1), (3, 2), (4, 3),
   * (5, 4): player 0's disc lands at (5, 4) and wins, but the source's scans
   * make no setWinner call. The corrected scans report it.
   */
  lemma DescendingScanMissesWin()
    ensures WellShaped(MissedBoard()) && Gravity(MissedBoard())
    ensures !Won(MissedBoard(), 0) && !Won(MissedBoard(), 1)
    ensures DropRow(MissedBoard(), 4, ROWS - 1) == Some(ROWS - 1)
    ensures Drop(MissedBoard(), 4, 0) == MissedBoardAfter()
    ensures Won(MissedBoardAfter(), 0)
    ensures MoveHits(MissedBoardAfter(), ROWS - 1, 4, 0) == 0
    ensures FixedMoveHits(MissedBoardAfter(), ROWS - 1, 4, 0) > 0
  {
    MissedBoardShape();
    MissedBoardUndecided(0);
    MissedBoardUndecided(1);
    MissedMoveLands();
    MissedMoveWins();
    MissedMoveScansNoRun();
    MoveReportsIff(MissedBoard(), 4, 0);
    FixedMoveDetectsWin(MissedBoard(), 4, 0);
  }

  // ---------------------------------------------------------------------
  // The board as text
  // ---------------------------------------------------------------------

  /** getGridAsText's text for one cell: the glyph in square brackets. */
  function CellText(n: int): string {
    "[" + ClassifySymbol(n) + "]"
  }

  /** The cells of one row, each as CellText. */
  function RowText(row: seq<int>): (t: string)
    ensures |t| == 3 * |row|
    ensures forall j :: 0 <= j < |row| ==>
              t[3 * j] == '[' && t[3 * j + 1] == ClassifySymbol(row[j])[0] && t[3 * j + 2] == ']'
  {
    if row == [] then ""
    else
      var prefix := row[..|row| - 1];
      assert forall j :: 0 <= j < |prefix| ==> prefix[j] == row[j];
      RowText(prefix) + CellText(row[|row| - 1])
  }

  /** The width of one line of getGridAsText: the cells of a row and a newline. */
  const LINE_WIDTH: int := 3 * COLS + 1

  /** getGridAsText: every row as RowText, each followed by a newline. */
  function GridText(g: seq<seq<int>>): (t: string)
    requires forall r :: 0 <= r < |g| ==> |g[r]| == COLS
    ensures |t| == |g| * LINE_WIDTH
  {
    if g == [] then ""
    else GridText(g[..|g| - 1]) + RowText(g[|g| - 1]) + "\n"
  }

  /** An offset into line r lies before the end of line n - 1 when r < n. */
  lemma RowOffsetBelow(r: int, n: int, k: int)
    requires 0 <= r < n && 0 <= k < LINE_WIDTH
    ensures r * LINE_WIDTH + k < n * LINE_WIDTH
  {
    assert n * LINE_WIDTH == r * LINE_WIDTH + (n - r) * LINE_WIDTH;
  }

  /** Line r of the text shows the glyph of cell (r, j) at offset 3 * j + 1. */
  lemma {:induction false} GridTextCell(g: seq<seq<int>>, r: int, j: int)
    requires forall r :: 0 <= r < |g| ==> |g[r]| == COLS
    requires 0 <= r < |g| && 0 <= j < COLS
    ensures GridText(g)[r * LINE_WIDTH + 3 * j + 1] == ClassifySymbol(g[r][j])[0]
  {
    var prefix := g[..|g| - 1];
    var front, last := GridText(prefix), RowText(g[|g| - 1]);
    var i := r * LINE_WIDTH + 3 * j + 1;
    assert GridText(g) == front + last + "\n";
    if r < |g| - 1 {
      GridTextCell(prefix, r, j);
      assert prefix[r] == g[r];
      RowOffsetBelow(r, |prefix|, 3 * j + 1);
    } else {
      assert i == |front| + 3 * j + 1;
    }
  }

  /** Line r of the text ends with a newline. */
  lemma {:induction false} GridTextNewline(g: seq<seq<int>>, r: int)
    requires forall r :: 0 <= r < |g| ==> |g[r]| == COLS
    requires 0 <= r < |g|
    ensures GridText(g)[r * LINE_WIDTH + 3 * COLS] == '\n'
  {
    var prefix := g[..|g| - 1];
    var front, last := GridText(prefix), RowText(g[|g| - 1]);
    assert GridText(g) == front + last + "\n";
    if r < |g| - 1 {
      GridTextNewline(prefix, r);
      RowOffsetBelow(r, |prefix|, 3 * COLS);
    }
  }

  /** The glyph of a cell value determines the value, for the three values a cell holds. */
  lemma GlyphDetermines(a: int, b: int)
    requires a in {EMPTY, 0, 1} && b in {EMPTY, 0, 1}
    requires ClassifySymbol(a)[0] == ClassifySymbol(b)[0]
    ensures a == b
  {
  }

  /** Two boards whose cells all hold EMPTY, 0 or 1 render to the same text only when they are equal. */
  lemma GridTextDetermines(g: Grid, h: Grid)
    requires WellShaped(g) && WellShaped(h)
    requires forall r, c :: 0 <= r < ROWS && 0 <= c < COLS ==> g[r][c] in {EMPTY, 0, 1} && h[r][c] in {EMPTY, 0, 1}
    requires GridText(g) == GridText(h)
    ensures g == h
  {
    forall r, c | 0 <= r < ROWS && 0 <= c < COLS ensures g[r][c] == h[r][c] {
      GridTextCell(g, r, c);
      GridTextCell(h, r, c);
      GlyphDetermines(g[r][c], h[r][c]);
    }
    GridsEqual(g, h);
  }

  lemma GridsEqual(g: Grid, h: Grid)
    requires WellShaped(g) && WellShaped(h)
    requires forall r, c :: 0 <= r < ROWS && 0 <= c < COLS ==> g[r][c] == h[r][c]
    ensures g == h
  {
    forall r | 0 <= r < ROWS ensures g[r] == h[r] {
      assert forall c :: 0 <= c < COLS ==> g[r][c] == h[r][c];
    }
  }

  // ---------------------------------------------------------------------
  // Reading one more cell
  // ---------------------------------------------------------------------

  /** Reading one more value x: the counter grows on p and resets otherwise, and a hit is counted at WIN_LENGTH. */
  lemma CounterStep(vs: seq<int>, x: int, p: int)
    ensures TrailingRun(vs + [x], p) == if x == p then TrailingRun(vs, p) + 1 else 0
    ensures Hits(vs + [x], p) == Hits(vs, p) + if TrailingRun(vs + [x], p) == WIN_LENGTH then 1 else 0
  {
    assert (vs + [x])[..|vs|] == vs;
  }

  /** One iteration of a line scan's loop. */
  lemma LinePathStep(d: Direction, r: int, c: int, n: nat)
    requires n > 0
    ensures LinePath(d, r, c, n) ==
              if OutOfBounds(r, c) then LinePath(d, r, c + ColStep(d), n - 1)
              else [Pos(r, c)] + LinePath(d, r - 1, c + ColStep(d), n - 1)
  {
  }

  lemma RowTextStep(row: seq<int>, j: int)
    requires 0 <= j < |row|
    ensures RowText(row[..j + 1]) == RowText(row[..j]) + CellText(row[j])
  {
    assert row[..j + 1][..j] == row[..j];
  }

  lemma GridTextStep(g: seq<seq<int>>, i: int)
    requires forall r :: 0 <= r < |g| ==> |g[r]| == COLS
    requires 0 <= i < |g|
    ensures GridText(g[..i + 1]) == GridText(g[..i]) + RowText(g[i]) + "\n"
  {
    assert g[..i + 1][..i] == g[..i];
  }

  /**
   * The state of a line scan whose whole path is `full`, with n iterations
   * left at (r, c): it has read the cells `seen`, and its counter and hit
   * count are those of their values.
   */
  ghost predicate ScanState(g: Grid, d: Direction, full: seq<Pos>, r: int, c: int, n: nat,
                            seen: seq<Pos>, counter: int, hits: int, p: int)
  {
    WellShaped(g) &&
    (forall k :: 0 <= k < |seen| ==> InBounds(seen[k])) &&
    seen + LinePath(d, r, c, n) == full &&
    counter == TrailingRun(Values(g, seen), p) &&
    hits == Hits(Values(g, seen), p)
  }

  lemma ScanBegin(g: Grid, d: Direction, start: Pos, p: int)
    requires WellShaped(g)
    ensures ScanState(g, d, LinePath(d, start.row, start.col, WIN_LENGTH + 1), start.row, start.col, WIN_LENGTH + 1, [], 0, 0, p)
  {
  }

  /** An out-of-bounds cell is skipped: the column moves, nothing else changes. */
  lemma {:induction false} ScanSkip(g: Grid, d: Direction, full: seq<Pos>, r: int, c: int, n: nat,
                 seen: seq<Pos>, counter: int, hits: int, p: int, c': int, n': nat)
    requires ScanState(g, d, full, r, c, n, seen, counter, hits, p)
    requires n > 0 && OutOfBounds(r, c) && c' == c + ColStep(d) && n' == n - 1
    ensures ScanState(g, d, full, r, c', n', seen, counter, hits, p)
  {
    LinePathStep(d, r, c, n);
  }

  /** An in-bounds cell is read: the counter grows or resets, a hit is counted at WIN_LENGTH, and the row moves up. */
  lemma {:induction false} ScanRead(g: Grid, d: Direction, full: seq<Pos>, r: int, c: int, n: nat,
                 seen: seq<Pos>, counter: int, hits: int, p: int,
                 r': int, c': int, n': nat, seen': seq<Pos>, counter': int, hits': int)
    requires ScanState(g, d, full, r, c, n, seen, counter, hits, p)
    requires n > 0 && !OutOfBounds(r, c)
    requires r' == r - 1 && c' == c + ColStep(d) && n' == n - 1 && seen' == seen + [Pos(r, c)]
    requires counter' == (if g[r][c] == p then counter + 1 else 0)
    requires hits' == hits + (if counter' == WIN_LENGTH then 1 else 0)
    ensures ScanState(g, d, full, r', c', n', seen', counter', hits', p)
  {
    ReadPathStep(d, r, c, n, seen, full);
    ReadCounterStep(g, seen, Pos(r, c), counter, hits, counter', hits', p);
    ReadInBounds(seen, Pos(r, c));
  }

  lemma ReadInBounds(seen: seq<Pos>, q: Pos)
    requires InBounds(q) && forall k :: 0 <= k < |seen| ==> InBounds(seen[k])
    ensures forall k :: 0 <= k < |seen + [q]| ==> InBounds((seen + [q])[k])
  {
  }

  lemma ReadCounterStep(g: Grid, seen: seq<Pos>, q: Pos, counter: int, hits: int, counter': int, hits': int, p: int)
    requires WellShaped(g) && InBounds(q) && forall k :: 0 <= k < |seen| ==> InBounds(seen[k])
    requires counter == TrailingRun(Values(g, seen), p) && hits == Hits(Values(g, seen), p)
    requires counter' == (if g[q.row][q.col] == p then counter + 1 else 0)
    requires hits' == hits + (if counter' == WIN_LENGTH then 1 else 0)
    ensures counter' == TrailingRun(Values(g, seen + [q]), p) && hits' == Hits(Values(g, seen + [q]), p)
  {
    ValuesStep(g, seen, q);
    CounterStep(Values(g, seen), g[q.row][q.col], p);
  }

  lemma ReadPathStep(d: Direction, r: int, c: int, n: nat, seen: seq<Pos>, full: seq<Pos>)
    requires n > 0 && !OutOfBounds(r, c) && seen + LinePath(d, r, c, n) == full
    ensures (seen + [Pos(r, c)]) + LinePath(d, r - 1, c + ColStep(d), n - 1) == full
  {
    LinePathStep(d, r, c, n);
    AppendAssocPos(seen, [Pos(r, c)], LinePath(d, r - 1, c + ColStep(d), n - 1));
  }

  lemma AppendAssocPos(a: seq<Pos>, b: seq<Pos>, c: seq<Pos>)
    ensures (a + b) + c == a + (b + c)
  {
  }

  /** With no iteration left the scan has read the whole path. */
  lemma ScanEnd(g: Grid, d: Direction, start: Pos, full: seq<Pos>, r: int, c: int,
                seen: seq<Pos>, counter: int, hits: int, p: int)
    requires full == LinePath(d, start.row, start.col, WIN_LENGTH + 1)
    requires ScanState(g, d, full, r, c, 0, seen, counter, hits, p)
    ensures hits == LineHits(g, d, start, p)
  {
    assert seen == full;
  }

  lemma ValuesStep(g: Grid, seen: seq<Pos>, q: Pos)
    requires WellShaped(g) && InBounds(q) && forall k :: 0 <= k < |seen| ==> InBounds(seen[k])
    ensures Values(g, seen + [q]) == Values(g, seen) + [g[q.row][q.col]]
  {
    assert (seen + [q])[..|seen|] == seen;
  }

  // ---------------------------------------------------------------------
  // The board object
  // ---------------------------------------------------------------------

  /**
   * BoardGrid: the matrix of cell values, updated in place, and the ID of
   * the player who moved last. The winner callback into GameManager is
   * recorded in reportedWinners: one entry per setWinner call.
   */
  class BoardGrid {
    const matrix: array2<int>
    var playerID: int
    ghost var reportedWinners: seq<int>

    /** The matrix has the board's dimensions. */
    ghost predicate Shaped() {
      matrix.Length0 == ROWS && matrix.Length1 == COLS
    }

    /** A well-shaped matrix in which no disc floats. */
    ghost predicate Valid()
      reads matrix
    {
      Shaped() && Gravity(Cells())
    }

    /** The matrix as a value. */
    ghost function Cells(): (g: Grid)
      requires Shaped()
      reads matrix
      ensures WellShaped(g)
      ensures forall r, c :: 0 <= r < ROWS && 0 <= c < COLS ==> g[r][c] == matrix[r, c]
    {
      seq(ROWS, r reads matrix requires 0 <= r < ROWS =>
        seq(COLS, c reads matrix requires 0 <= c < COLS => matrix[r, c]))
    }

    /** A new board: every cell EMPTY and no winner reported. */
    constructor ()
      ensures Valid() && fresh(matrix)
      ensures Cells() == EmptyGrid() && reportedWinners == []
    {
      matrix := new int[ROWS, COLS];
      playerID := 0;
      reportedWinners := [];
      new;
      InitializeMatrix();
    }

    /** initializeMatrix: every cell becomes EMPTY. */
    method InitializeMatrix()
      requires Shaped()
      modifies matrix
      ensures Valid() && Cells() == EmptyGrid()
    {
      for i := 0 to ROWS
        invariant forall r, c :: 0 <= r < i && 0 <= c < COLS ==> matrix[r, c] == EMPTY
      {
        for j := 0 to COLS
          invariant forall r, c :: 0 <= r < i && 0 <= c < COLS ==> matrix[r, c] == EMPTY
          invariant forall c :: 0 <= c < j ==> matrix[i, c] == EMPTY
        {
          matrix[i, j] := EMPTY;
        }
      }
      GridsEqual(Cells(), EmptyGrid());
      EmptyGridGravity();
    }

    method GetValueAtPosition(row: int, col: int) returns (v: int)
      requires Shaped() && InBounds(Pos(row, col))
      ensures v == Cells()[row][col]
    {
      v := matrix[row, col];
    }

    /** getGridAsText: the board as text, one line per row. */
    method GetGridAsText() returns (fullGrid: string)
      requires Shaped()
      ensures fullGrid == GridText(Cells())
      ensures |fullGrid| == ROWS * LINE_WIDTH
    {
      ghost var g := Cells();
      fullGrid := "";
      for i := 0 to ROWS
        invariant fullGrid == GridText(g[..i])
      {
        var line := RowAsText(i);
        GridTextStep(g, i);
        fullGrid := fullGrid + line + "\n";
      }
      assert g[..ROWS] == g;
    }

    /** The inner loop of getGridAsText: the cells of row i, each glyph in brackets. */
    method RowAsText(i: int) returns (line: string)
      requires Shaped() && 0 <= i < ROWS
      ensures line == RowText(Cells()[i])
    {
      ghost var row := Cells()[i];
      line := "";
      for j := 0 to COLS
        invariant line == RowText(row[..j])
      {
        var symbol := ClassifySymbol(matrix[i, j]);
        var cell := "[" + symbol + "]";
        RowTextStep(row, j);
        line := line + cell;
      }
      assert row[..COLS] == row;
    }

    /**
     * makeMove: the disc of pid goes into the lowest EMPTY cell of column
     * col, and the scans run from there; a full column is left as it is.
     */
    method MakeMove(col: int, pid: int)
      requires Valid() && 0 <= col < COLS
      modifies this, matrix
      ensures Valid()
      ensures playerID == pid
      ensures Cells() == Drop(old(Cells()), col, pid)
      ensures reportedWinners == old(reportedWinners) + MoveReports(old(Cells()), col, pid)
    {
      playerID := pid;
      ghost var g := Cells();
      var row := ROWS - 1;
      while row >= 0
        invariant -1 <= row <= ROWS - 1
        invariant Cells() == g && reportedWinners == old(reportedWinners) && playerID == pid
        invariant DropRow(g, col, ROWS - 1) == DropRow(g, col, row)
      {
        if matrix[row, col] == EMPTY {
          matrix[row, col] := pid;
          GridsEqual(Cells(), Drop(g, col, pid));
          DropPreservesGravity(g, col, pid);
          CheckForWinningLine(row, col);
          return;
        }
        row := row - 1;
      }
    }

    /** checkForWinningLine: the horizontal, vertical and diagonal scans from the new disc at (row, col). */
    method CheckForWinningLine(row: int, col: int)
      requires Shaped() && InBounds(Pos(row, col))
      modifies this
      ensures playerID == old(playerID)
      ensures reportedWinners == old(reportedWinners) + Repeat(playerID, MoveHits(Cells(), row, col, playerID))
    {
      var h := SearchHorizontally(row);
      var v := SearchVertically(row, col);
      var d := SearchDiagonally(row, col);
      reportedWinners := reportedWinners + Repeat(playerID, h + v + d);
    }

    /** searchVertically: the WIN_LENGTH cells from the new disc downward, when the disc is high enough. */
    method SearchVertically(row: int, col: int) returns (hits: nat)
      requires Shaped() && InBounds(Pos(row, col))
      ensures hits == VerticalHits(Cells(), row, col, playerID)
    {
      var counter := 0;
      hits := 0;
      if row > 1 {
        return;
      }
      for i := row to row + WIN_LENGTH
        invariant counter == i - row
        invariant forall k :: row <= k < i ==> matrix[k, col] == playerID
      {
        if matrix[i, col] == playerID {
          counter := counter + 1;
        } else {
          return;
        }
      }
      if counter == WIN_LENGTH {
        hits := 1;
      }
    }

    /** searchHorizontally: one counter run along the row; it reports exactly when the row holds a run. */
    method SearchHorizontally(row: int) returns (hits: nat)
      requires Shaped() && 0 <= row < ROWS
      ensures hits == Hits(Cells()[row], playerID)
      ensures hits <= 1
      ensures hits > 0 <==> HasRun(Cells()[row], playerID)
    {
      ghost var line := Cells()[row];
      var counter := 0;
      hits := 0;
      for i := 0 to COLS
        invariant counter == TrailingRun(line[..i], playerID)
        invariant hits == Hits(line[..i], playerID)
      {
        CounterStep(line[..i], line[i], playerID);
        assert line[..i + 1] == line[..i] + [line[i]];
        if matrix[row, i] == playerID {
          counter := counter + 1;
        } else {
          counter := 0;
        }
        if counter == WIN_LENGTH {
          hits := hits + 1;
        }
      }
      assert line[..COLS] == line;
      HitsIffRun(line, playerID);
      HitsAtMostOnce(line, playerID);
    }

    /** searchDiagonally: nothing on a pruned cell, otherwise both diagonal families. */
    method SearchDiagonally(row: int, col: int) returns (hits: nat)
      requires Shaped()
      ensures hits == DiagonalHits(Cells(), row, col, playerID, DescAnchors())
    {
      hits := 0;
      if WinningDiagLineImpossible(row, col) {
        return;
      }
      var a := SearchAscending();
      var d := SearchDescending();
      hits := a + d;
    }

    /** searchAscending: the scans from the ascending anchors; they report exactly when an anti-diagonal holds a run. */
    method SearchAscending() returns (hits: nat)
      requires Shaped()
      ensures hits == AnchorsHits(Cells(), Ascending, AscAnchors(), playerID)
      ensures hits > 0 <==> exists s :: HasRun(Values(Cells(), AntiDiagonal(s)), playerID)
    {
      ghost var g, anchors := Cells(), AscAnchors();
      hits := SearchAscLine(ROWS - 2, 0);
      AnchorsHitsStep(g, Ascending, anchors, 0, playerID);
      for i := 0 to WIN_LENGTH
        invariant hits == AnchorsHits(g, Ascending, anchors[..i + 1], playerID)
      {
        var h := SearchAscLine(ROWS - 1, i);
        assert anchors[i + 1] == Pos(ROWS - 1, i);
        AnchorsHitsStep(g, Ascending, anchors, i + 1, playerID);
        hits := hits + h;
      }
      assert anchors[..WIN_LENGTH + 1] == anchors;
      AscendingScanDetects(g, playerID);
    }

    /**
     * searchDescending: the scans from the descending anchors; they report
     * exactly when one of the diagonals row - col = -4 .. 0 holds a run.
     */
    method SearchDescending() returns (hits: nat)
      requires Shaped()
      ensures hits == AnchorsHits(Cells(), Descending, DescAnchors(), playerID)
      ensures hits > 0 <==> exists d :: -(COLS - WIN_LENGTH) <= d <= 0 && HasRun(Values(Cells(), Diagonal(d)), playerID)
    {
      ghost var g, anchors := Cells(), DescAnchors();
      hits := SearchDescLine(ROWS - 2, 8);
      AnchorsHitsStep(g, Descending, anchors, 0, playerID);
      for col := COLS downto WIN_LENGTH
        invariant hits == AnchorsHits(g, Descending, anchors[..COLS + 1 - col], playerID)
      {
        var h := SearchDescLine(ROWS - 1, col);
        DescAnchorAt(COLS - col);
        AnchorsHitsStep(g, Descending, anchors, COLS - col, playerID);
        hits := hits + h;
      }
      assert anchors[..COLS + 1 - WIN_LENGTH] == anchors;
      DescendingScanDetects(g, playerID);
    }

    /** searchAscLine: one counter run up and to the right from the anchor, out-of-bounds cells skipped. */
    method SearchAscLine(startingRow: int, startingCol: int) returns (hits: nat)
      requires Shaped()
      ensures hits == LineHits(Cells(), Ascending, Pos(startingRow, startingCol), playerID)
    {
      ghost var g, start := Cells(), Pos(startingRow, startingCol);
      ghost var seen: seq<Pos> := [];
      ghost var n: nat := WIN_LENGTH + 1;
      var counter := 0;
      hits := 0;
      var r := startingRow;
      var c := startingCol;
      ghost var full := LinePath(Ascending, start.row, start.col, WIN_LENGTH + 1);
      ScanBegin(g, Ascending, start, playerID);
      while c < startingCol + (WIN_LENGTH + 1)
        invariant n == startingCol + (WIN_LENGTH + 1) - c
        invariant ScanState(g, Ascending, full, r, c, n, seen, counter, hits, playerID)
        decreases n
      {
        ghost var r0, c0, n0, seen0, counter0, hits0 := r, c, n, seen, counter, hits;
        if OutOfBounds(r, c) {
          c := c + 1;
          n := n - 1;
          ScanSkip(g, Ascending, full, r, c0, n0, seen, counter, hits, playerID, c, n);
          continue;
        }
        assert matrix[r, c] == g[r][c];
        if matrix[r, c] == playerID {
          counter := counter + 1;
        } else {
          counter := 0;
        }
        if counter == WIN_LENGTH {
          hits := hits + 1;
        }
        seen := seen + [Pos(r, c)];
        r := r - 1;
        c := c + 1;
        n := n - 1;
        ScanRead(g, Ascending, full, r0, c0, n0, seen0, counter0, hits0, playerID, r, c, n, seen, counter, hits);
      }
      ScanEnd(g, Ascending, start, full, r, c, seen, counter, hits, playerID);
    }

    /** searchDescLine: one counter run up and to the left from the anchor, out-of-bounds cells skipped. */
    method SearchDescLine(startingRow: int, startingCol: int) returns (hits: nat)
      requires Shaped()
      ensures hits == LineHits(Cells(), Descending, Pos(startingRow, startingCol), playerID)
    {
      ghost var g, start := Cells(), Pos(startingRow, startingCol);
      ghost var seen: seq<Pos> := [];
      ghost var n: nat := WIN_LENGTH + 1;
      var counter := 0;
      hits := 0;
      var r := startingRow;
      var c := startingCol;
      ghost var full := LinePath(Descending, start.row, start.col, WIN_LENGTH + 1);
      ScanBegin(g, Descending, start, playerID);
      while c > startingCol - (WIN_LENGTH + 1)
        invariant n == c - (startingCol - (WIN_LENGTH + 1))
        invariant ScanState(g, Descending, full, r, c, n, seen, counter, hits, playerID)
        decreases n
      {
        ghost var r0, c0, n0, seen0, counter0, hits0 := r, c, n, seen, counter, hits;
        if OutOfBounds(r, c) {
          c := c - 1;
          n := n - 1;
          ScanSkip(g, Descending, full, r, c0, n0, seen, counter, hits, playerID, c, n);
          continue;
        }
        assert matrix[r, c] == g[r][c];
        if matrix[r, c] == playerID {
          counter := counter + 1;
        } else {
          counter := 0;
        }
        if counter == WIN_LENGTH {
          hits := hits + 1;
        }
        seen := seen + [Pos(r, c)];
        r := r - 1;
        c := c - 1;
        n := n - 1;
        ScanRead(g, Descending, full, r0, c0, n0, seen0, counter0, hits0, playerID, r, c, n, seen, counter, hits);
      }
      ScanEnd(g, Descending, start, full, r, c, seen, counter, hits, playerID);
    }
  }
}
