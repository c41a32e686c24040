/** The label tensor of SparseDataset (_get_labels): one row per window,
    either a (types x labels) grid (match_all / match_any) or one such grid
    per base of the window (seq2seq). */
module LabelTensors {
  import opened Common
  import opened Annotations
  import opened Windowing

  /** A types x labels grid of 0/1 entries. */
  type Grid = seq<seq<int>>

  /** One row of the label tensor: shape (T, C), or (L, T, C) under seq2seq. */
  datatype LabelRow = Whole(grid: Grid) | PerBase(grids: seq<Grid>)

  /** defined_positive */
  datatype Positive = PositiveMatchAll | PositiveMatchAny | PositiveOther

  /** The branch _get_labels takes. */
  datatype Mode = Seq2Seq | MatchAll | MatchAny | NoMode

  function ModeOf(seq2seq: bool, positive: Positive): Mode
  {
    if seq2seq then Seq2Seq
    else match positive
      case PositiveMatchAll => MatchAll
      case PositiveMatchAny => MatchAny
      case PositiveOther => NoMode
  }

  /** nb_types: the number of distinct type ids in the table. */
  function NbTypes(anns: seq<Ann>): nat
  {
    |set i | 0 <= i < |anns| :: anns[i].kind|
  }

  /** nb_labels: the number of distinct label ids in the table. */
  function NbLabels(anns: seq<Ann>): nat
  {
    |set i | 0 <= i < |anns| :: anns[i].labelId|
  }

  function Zeros(T: nat, C: nat): (g: Grid)
    ensures |g| == T && forall t :: 0 <= t < T ==> |g[t]| == C && forall c :: 0 <= c < C ==> g[t][c] == 0
  {
    seq(T, t => seq(C, c => 0))
  }

  /** An all-zero label row (np.zeros of the tensor's row shape). */
  function ZeroRow(seq2seq: bool, L: nat, T: nat, C: nat): LabelRow
  {
    if seq2seq then PerBase(seq(L, p => Zeros(T, C))) else Whole(Zeros(T, C))
  }

  /** The rows of local_df: contained in the window (match_all) or
      overlapping it (match_any, seq2seq). */
  predicate Selected(a: Ann, w: Window, mode: Mode)
  {
    if mode == MatchAll then a.start >= w.start && a.stop <= w.stop
    else a.start < w.stop && a.stop > w.start
  }

  /** The annotation writes cell (t, c). */
  predicate Hits(a: Ann, w: Window, mode: Mode, t: int, c: int)
  {
    Selected(a, w, mode) && a.kind == t + 1 && a.labelId == c + 1
  }

  /** The intersection of the closed intervals, shifted to the window:
      positions Lo..Hi-1 of the window's label are written. */
  function Lo(a: Ann, w: Window): int
  {
    (if a.start > w.start then a.start else w.start) - w.start
  }

  function Hi(a: Ann, w: Window): int
  {
    (if a.stop < w.stop then a.stop else w.stop) - w.start
  }

  predicate HitsAt(a: Ann, w: Window, p: int, t: int, c: int)
  {
    Hits(a, w, Seq2Seq, t, c) && Lo(a, w) <= p < Hi(a, w)
  }

  /** labels_[j, ..., kind - 1, labelId - 1] is inside the tensor. */
  predicate Writable(a: Ann, T: nat, C: nat)
  {
    a.kind <= T && a.labelId <= C
  }

  function Cell(b: bool): (r: int)
    ensures r == 0 || r == 1
    ensures r == 1 <==> b
  {
    if b then 1 else 0
  }

  /** The grid of one window (match_all / match_any). */
  function GridOf(S: seq<Ann>, w: Window, mode: Mode, T: nat, C: nat): Grid
  {
    seq(T, t => seq(C, c => Cell(AnyHits(S, w, mode, t, c))))
  }

  predicate AnyHits(S: seq<Ann>, w: Window, mode: Mode, t: int, c: int)
  {
    exists i :: 0 <= i < |S| && Hits(S[i], w, mode, t, c)
  }

  predicate AnyHitsAt(S: seq<Ann>, w: Window, p: int, t: int, c: int)
  {
    exists i :: 0 <= i < |S| && HitsAt(S[i], w, p, t, c)
  }

  /** The grid of one base of one window (seq2seq). */
  function GridAt(S: seq<Ann>, w: Window, p: int, T: nat, C: nat): Grid
  {
    seq(T, t => seq(C, c => Cell(AnyHitsAt(S, w, p, t, c))))
  }

  /** Some selected annotation writes outside the tensor (IndexError). */
  predicate WritesOutside(S: seq<Ann>, w: Window, mode: Mode, T: nat, C: nat)
  {
    exists i :: 0 <= i < |S| && Selected(S[i], w, mode) && !Writable(S[i], T, C)
  }

  /** The label row of one window against the annotations S of its
      chromosome. */
  function WindowLabel(S: seq<Ann>, w: Window, mode: Mode, L: nat, T: nat, C: nat): Result<LabelRow>
  {
    if WritesOutside(S, w, mode, T, C) then Err(LabelIndexOutOfRange)
    else if mode == Seq2Seq then Ok(PerBase(seq(L, p => GridAt(S, w, p, T, C))))
    else Ok(Whole(GridOf(S, w, mode, T, C)))
  }

  /** The rows of the windows ws, in order. */
  function RowsFor(S: seq<Ann>, ws: seq<Window>, mode: Mode, L: nat, T: nat, C: nat): Result<seq<LabelRow>>
    decreases |ws|
  {
    if ws == [] then Ok([])
    else
      match WindowLabel(S, ws[0], mode, L, T, C)
      case Err(e) => Err(e)
      case Ok(row) => Prepend([row], RowsFor(S, ws[1..], mode, L, T, C))
  }

  /** labels_ for one chromosome: its windows come from
      _calculate_interval(df_, return_all=True), without strand. */
  function ChromLabels(S: seq<Ann>, mode: Mode, L: nat, T: nat, C: nat, augment: bool): Result<seq<LabelRow>>
  {
    match CalculateInterval(S, L, augment, true, false)
    case Err(e) => Err(e)
    case Ok(ws) => if mode == NoMode then Err(UndefinedPositive) else RowsFor(S, ws, mode, L, T, C)
  }

  function LabelsOver(anns: seq<Ann>, cs: seq<string>, mode: Mode, L: nat, T: nat, C: nat, augment: bool): Result<seq<LabelRow>>
    decreases |cs|
  {
    if cs == [] then Ok([])
    else
      match ChromLabels(OnChrom(anns, cs[0]), mode, L, T, C, augment)
      case Err(e) => Err(e)
      case Ok(rows) => Prepend(rows, LabelsOver(anns, cs[1..], mode, L, T, C, augment))
  }

  /** _get_labels: the rows of every chromosome, in order of first
      appearance. */
  function Labels(anns: seq<Ann>, mode: Mode, L: nat, augment: bool): Result<seq<LabelRow>>
  {
    LabelsOver(anns, Chroms(anns), mode, L, NbTypes(anns), NbLabels(anns), augment)
  }

  // ------------------------------------------------------------ the loops

  function Mark(g: Grid, t: nat, c: nat): Grid
    requires t < |g| && c < |g[t]|
  {
    g[t := g[t][c := 1]]
  }

  /** labels_[j, lo:hi, t, c] = 1 (numpy clips the slice to the axis). */
  function MarkRange(gs: seq<Grid>, lo: int, hi: int, t: nat, c: nat): seq<Grid>
    requires forall p :: 0 <= p < |gs| ==> t < |gs[p]| && c < |gs[p][t]|
  {
    seq(|gs|, p requires 0 <= p < |gs| => if lo <= p < hi then Mark(gs[p], t, c) else gs[p])
  }

  /** Some annotation among the first n of S hits cell (t, c), at base p
      when `at` is Some(p). */
  predicate HitIn(S: seq<Ann>, n: nat, w: Window, mode: Mode, at: Option<int>, t: int, c: int)
    requires n <= |S|
  {
    exists k :: 0 <= k < n && (if at.Some? then HitsAt(S[k], w, at.value, t, c) else Hits(S[k], w, mode, t, c))
  }

  function GridUpTo(S: seq<Ann>, n: nat, w: Window, mode: Mode, at: Option<int>, T: nat, C: nat): Grid
    requires n <= |S|
  {
    seq(T, t => seq(C, c => Cell(HitIn(S, n, w, mode, at, t, c))))
  }

  lemma GridUpToPrefix(S: seq<Ann>, n: nat, w: Window, mode: Mode, T: nat, C: nat)
    requires n <= |S|
    ensures GridUpTo(S, n, w, mode, None, T, C) == GridOf(S[..n], w, mode, T, C)
    ensures forall p :: GridUpTo(S, n, w, mode, Some(p), T, C) == GridAt(S[..n], w, p, T, C)
  {
    var pre := S[..n];
    assert forall k :: 0 <= k < n ==> pre[k] == S[k];
    var g, h := GridUpTo(S, n, w, mode, None, T, C), GridOf(pre, w, mode, T, C);
    forall t | 0 <= t < T ensures g[t] == h[t] {
      forall c | 0 <= c < C ensures g[t][c] == h[t][c] {
        assert HitIn(S, n, w, mode, None, t, c) <==> exists k :: 0 <= k < |pre| && Hits(pre[k], w, mode, t, c);
      }
    }
    forall p ensures GridUpTo(S, n, w, mode, Some(p), T, C) == GridAt(pre, w, p, T, C) {
      var g, h := GridUpTo(S, n, w, mode, Some(p), T, C), GridAt(pre, w, p, T, C);
      forall t | 0 <= t < T ensures g[t] == h[t] {
        forall c | 0 <= c < C ensures g[t][c] == h[t][c] {
          assert HitIn(S, n, w, mode, Some(p), t, c) <==> exists k :: 0 <= k < |pre| && HitsAt(pre[k], w, p, t, c);
        }
      }
    }
  }

  /** An annotation that hits none of its own cell leaves the grid as it is. */
  lemma GridSkip(S: seq<Ann>, i: nat, w: Window, mode: Mode, at: Option<int>, T: nat, C: nat)
    requires i < |S|
    requires if at.Some? then !HitsAt(S[i], w, at.value, S[i].kind - 1, S[i].labelId - 1)
             else !Hits(S[i], w, mode, S[i].kind - 1, S[i].labelId - 1)
    ensures GridUpTo(S, i + 1, w, mode, at, T, C) == GridUpTo(S, i, w, mode, at, T, C)
  {
    var g0, g1 := GridUpTo(S, i, w, mode, at, T, C), GridUpTo(S, i + 1, w, mode, at, T, C);
    forall t | 0 <= t < T ensures g1[t] == g0[t] {
      forall c | 0 <= c < C ensures g1[t][c] == g0[t][c] {
        assert HitIn(S, i + 1, w, mode, at, t, c) <==> HitIn(S, i, w, mode, at, t, c);
      }
    }
  }

  /** Before any annotation is seen the grid is all zeros. */
  lemma GridUpToNone(S: seq<Ann>, w: Window, mode: Mode, at: Option<int>, T: nat, C: nat)
    ensures GridUpTo(S, 0, w, mode, at, T, C) == Zeros(T, C)
  {
    var g, z := GridUpTo(S, 0, w, mode, at, T, C), Zeros(T, C);
    forall t | 0 <= t < T ensures g[t] == z[t] {
      forall c | 0 <= c < C ensures g[t][c] == z[t][c] {
        assert !HitIn(S, 0, w, mode, at, t, c);
      }
    }
  }

  /** Adding annotation i to the ones already seen marks exactly its own
      cell, when it hits; otherwise the grid is unchanged. */
  lemma GridStep(S: seq<Ann>, i: nat, w: Window, mode: Mode, at: Option<int>, T: nat, C: nat)
    requires i < |S|
    requires 1 <= S[i].kind <= T && 1 <= S[i].labelId <= C
    ensures var hit := if at.Some? then HitsAt(S[i], w, at.value, S[i].kind - 1, S[i].labelId - 1)
                       else Hits(S[i], w, mode, S[i].kind - 1, S[i].labelId - 1);
            GridUpTo(S, i + 1, w, mode, at, T, C) ==
              if hit then Mark(GridUpTo(S, i, w, mode, at, T, C), S[i].kind - 1, S[i].labelId - 1)
              else GridUpTo(S, i, w, mode, at, T, C)
  {
    var g0, g1 := GridUpTo(S, i, w, mode, at, T, C), GridUpTo(S, i + 1, w, mode, at, T, C);
    var t0, c0 := S[i].kind - 1, S[i].labelId - 1;
    var hit := if at.Some? then HitsAt(S[i], w, at.value, t0, c0) else Hits(S[i], w, mode, t0, c0);
    var g2 := if hit then Mark(g0, t0, c0) else g0;
    forall t | 0 <= t < T ensures g1[t] == g2[t] {
      forall c | 0 <= c < C ensures g1[t][c] == g2[t][c] {
        var mine := if at.Some? then HitsAt(S[i], w, at.value, t, c) else Hits(S[i], w, mode, t, c);
        assert HitIn(S, i + 1, w, mode, at, t, c) <==> HitIn(S, i, w, mode, at, t, c) || mine;
        assert mine ==> t == t0 && c == c0;
      }
    }
  }

  /** The inner loop of _get_labels for one window: every row of local_df
      sets its cell (or its run of positions) to 1. */
  method LabelWindow(S: seq<Ann>, w: Window, mode: Mode, L: nat, T: nat, C: nat) returns (r: Result<LabelRow>)
    requires IdsPositive(S)
    ensures r == WindowLabel(S, w, mode, L, T, C)
  {
    var grid := Zeros(T, C);
    var grids := seq(L, p => Zeros(T, C));
    GridUpToNone(S, w, mode, None, T, C);
    forall p ensures GridUpTo(S, 0, w, mode, Some(p), T, C) == Zeros(T, C) {
      GridUpToNone(S, w, mode, Some(p), T, C);
    }
    for i := 0 to |S|
      invariant forall k :: 0 <= k < i && Selected(S[k], w, mode) ==> Writable(S[k], T, C)
      invariant grid == GridUpTo(S, i, w, mode, None, T, C)
      invariant mode == Seq2Seq ==> |grids| == L && forall p :: 0 <= p < L ==> grids[p] == GridUpTo(S, i, w, mode, Some(p), T, C)
    {
      if Selected(S[i], w, mode) {
        if !Writable(S[i], T, C) {
          return Err(LabelIndexOutOfRange);
        }
        var t, c := S[i].kind - 1, S[i].labelId - 1;
        GridStep(S, i, w, mode, None, T, C);
        grid := Mark(grid, t, c);
        if mode == Seq2Seq {
          forall p | 0 <= p < L
            ensures MarkRange(grids, Lo(S[i], w), Hi(S[i], w), t, c)[p] == GridUpTo(S, i + 1, w, mode, Some(p), T, C)
          {
            GridStep(S, i, w, mode, Some(p), T, C);
          }
          grids := MarkRange(grids, Lo(S[i], w), Hi(S[i], w), t, c);
        }
      } else if Writable(S[i], T, C) {
        GridStep(S, i, w, mode, None, T, C);
        if mode == Seq2Seq {
          forall p | 0 <= p < L ensures grids[p] == GridUpTo(S, i + 1, w, mode, Some(p), T, C) {
            GridStep(S, i, w, mode, Some(p), T, C);
          }
        }
      } else {
        GridSkip(S, i, w, mode, None, T, C);
        if mode == Seq2Seq {
          forall p | 0 <= p < L ensures grids[p] == GridUpTo(S, i + 1, w, mode, Some(p), T, C) {
            GridSkip(S, i, w, mode, Some(p), T, C);
          }
        }
      }
    }
    GridUpToPrefix(S, |S|, w, mode, T, C);
    assert S[..|S|] == S;
    assert !WritesOutside(S, w, mode, T, C);
    if mode == Seq2Seq {
      assert grids == seq(L, p => GridAt(S, w, p, T, C));
      r := Ok(PerBase(grids));
    } else {
      r := Ok(Whole(grid));
    }
  }

  /** The body of _get_labels' chromosome loop: the windows of the
      chromosome, then one label row per window. */
  method LabelChrom(S: seq<Ann>, mode: Mode, L: nat, T: nat, C: nat, augment: bool) returns (r: Result<seq<LabelRow>>)
    requires IdsPositive(S)
    ensures r == ChromLabels(S, mode, L, T, C, augment)
  {
    var windows := CalculateInterval(S, L, augment, true, false);
    if windows.Err? {
      return Err(windows.error);
    }
    if mode == NoMode {
      return Err(UndefinedPositive);
    }
    var ws := windows.value;
    var rows: seq<LabelRow> := [];
    assert ws[0..] == ws;
    PrependNothing(RowsFor(S, ws, mode, L, T, C));
    for j := 0 to |ws|
      invariant RowsFor(S, ws, mode, L, T, C) == Prepend(rows, RowsFor(S, ws[j..], mode, L, T, C))
    {
      assert ws[j..][0] == ws[j] && ws[j..][1..] == ws[j + 1..];
      var row := LabelWindow(S, ws[j], mode, L, T, C);
      if row.Err? {
        return Err(row.error);
      }
      PrependTwice(rows, [row.value], RowsFor(S, ws[j + 1..], mode, L, T, C));
      rows := rows + [row.value];
    }
    assert ws[|ws|..] == [] && rows + [] == rows;
    r := Ok(rows);
  }

  /** _get_labels as the source runs it: per chromosome, the rows appended
      to the tensor. */
  method GetLabels(anns: seq<Ann>, mode: Mode, L: nat, augment: bool) returns (r: Result<seq<LabelRow>>)
    requires IdsPositive(anns)
    ensures r == Labels(anns, mode, L, augment)
  {
    var T, C := NbTypes(anns), NbLabels(anns);
    var cs := Chroms(anns);
    var acc: seq<LabelRow> := [];
    assert cs[0..] == cs;
    PrependNothing(LabelsOver(anns, cs, mode, L, T, C, augment));
    for i := 0 to |cs|
      invariant Labels(anns, mode, L, augment) == Prepend(acc, LabelsOver(anns, cs[i..], mode, L, T, C, augment))
    {
      assert cs[i..][0] == cs[i] && cs[i..][1..] == cs[i + 1..];
      var S := OnChrom(anns, cs[i]);
      assert IdsPositive(S) by {
        forall k | 0 <= k < |S| ensures S[k].kind >= 1 && S[k].labelId >= 1 {
          assert S[k] in anns;
        }
      }
      var part := LabelChrom(S, mode, L, T, C, augment);
      if part.Err? {
        return Err(part.error);
      }
      PrependTwice(acc, part.value, LabelsOver(anns, cs[i + 1..], mode, L, T, C, augment));
      acc := acc + part.value;
    }
    assert cs[|cs|..] == [] && acc + [] == acc;
    r := Ok(acc);
  }

  // ------------------------------------------------------------ properties

  /** A grid of T rows of C entries, each 0 or 1. */
  predicate BinaryGrid(g: Grid, T: nat, C: nat)
  {
    |g| == T && forall t :: 0 <= t < T ==> |g[t]| == C && forall c :: 0 <= c < C ==> g[t][c] == 0 || g[t][c] == 1
  }

  /** The row has the tensor's row shape: (T, C), or (L, T, C) under
      seq2seq, with 0/1 entries. */
  predicate Shaped(row: LabelRow, mode: Mode, L: nat, T: nat, C: nat)
  {
    if mode == Seq2Seq then row.PerBase? && |row.grids| == L && forall p :: 0 <= p < L ==> BinaryGrid(row.grids[p], T, C)
    else row.Whole? && BinaryGrid(row.grid, T, C)
  }

  lemma WindowLabelShaped(S: seq<Ann>, w: Window, mode: Mode, L: nat, T: nat, C: nat)
    requires WindowLabel(S, w, mode, L, T, C).Ok?
    ensures Shaped(WindowLabel(S, w, mode, L, T, C).value, mode, L, T, C)
  {
    if mode == Seq2Seq {
      forall p | 0 <= p < L ensures BinaryGrid(GridAt(S, w, p, T, C), T, C) {
        var g := GridAt(S, w, p, T, C);
        forall t | 0 <= t < T ensures |g[t]| == C && forall c :: 0 <= c < C ==> g[t][c] == 0 || g[t][c] == 1 {
          forall c | 0 <= c < C ensures g[t][c] == 0 || g[t][c] == 1 {
            assert g[t][c] == Cell(AnyHitsAt(S, w, p, t, c));
          }
        }
      }
    } else {
      var g := GridOf(S, w, mode, T, C);
      forall t | 0 <= t < T ensures |g[t]| == C && forall c :: 0 <= c < C ==> g[t][c] == 0 || g[t][c] == 1 {
        forall c | 0 <= c < C ensures g[t][c] == 0 || g[t][c] == 1 {
          assert g[t][c] == Cell(AnyHits(S, w, mode, t, c));
        }
      }
    }
  }

  /** LabelsOver on a non-empty chromosome list: the first chromosome's
      rows, then the rest. */
  lemma LabelsOverCons(anns: seq<Ann>, cs: seq<string>, mode: Mode, L: nat, T: nat, C: nat, augment: bool)
    requires cs != [] && LabelsOver(anns, cs, mode, L, T, C, augment).Ok?
    ensures ChromLabels(OnChrom(anns, cs[0]), mode, L, T, C, augment).Ok?
    ensures LabelsOver(anns, cs[1..], mode, L, T, C, augment).Ok?
    ensures LabelsOver(anns, cs, mode, L, T, C, augment).value ==
            ChromLabels(OnChrom(anns, cs[0]), mode, L, T, C, augment).value + LabelsOver(anns, cs[1..], mode, L, T, C, augment).value
  {
  }

  lemma DataframeOverCons(anns: seq<Ann>, cs: seq<string>, L: int, augment: bool, withStrand: bool)
    requires cs != [] && DataframeOver(anns, cs, L, augment, false, withStrand).Ok?
    ensures ChromRows(OnChrom(anns, cs[0]), L, augment, false, withStrand).Ok?
    ensures DataframeOver(anns, cs[1..], L, augment, false, withStrand).Ok?
    ensures DataframeOver(anns, cs, L, augment, false, withStrand).value ==
            ChromRows(OnChrom(anns, cs[0]), L, augment, false, withStrand).value + DataframeOver(anns, cs[1..], L, augment, false, withStrand).value
  {
  }

  /** The rows of one chromosome, window by window. */
  lemma {:induction false} RowsForAt(S: seq<Ann>, ws: seq<Window>, mode: Mode, L: nat, T: nat, C: nat)
    requires RowsFor(S, ws, mode, L, T, C).Ok?
    ensures var rows := RowsFor(S, ws, mode, L, T, C).value;
            |rows| == |ws| && forall j :: 0 <= j < |ws| ==> Ok(rows[j]) == WindowLabel(S, ws[j], mode, L, T, C)
    decreases |ws|
  {
    if ws != [] {
      RowsForAt(S, ws[1..], mode, L, T, C);
      var rows := RowsFor(S, ws, mode, L, T, C).value;
      forall j | 0 <= j < |ws| ensures Ok(rows[j]) == WindowLabel(S, ws[j], mode, L, T, C) {
        if j > 0 {
          assert ws[1..][j - 1] == ws[j];
        }
      }
    }
  }

  /** One chromosome's df rows and label rows: as many, on that
      chromosome, row j's label computed on row j's interval. */
  lemma ChromAlign(anns: seq<Ann>, c: string, mode: Mode, L: nat, T: nat, C: nat, augment: bool, withStrand: bool)
    requires ChromRows(OnChrom(anns, c), L, augment, false, withStrand).Ok?
    requires ChromLabels(OnChrom(anns, c), mode, L, T, C, augment).Ok?
    ensures var ws, part := ChromRows(OnChrom(anns, c), L, augment, false, withStrand).value,
                            ChromLabels(OnChrom(anns, c), mode, L, T, C, augment).value;
            |part| == |ws| &&
            forall k :: 0 <= k < |ws| ==> ws[k].chrom == c && Ok(part[k]) == WindowLabel(OnChrom(anns, c), Unstranded(ws[k]), mode, L, T, C)
  {
    var S := OnChrom(anns, c);
    CalculateIntervalUnstranded(S, L, augment, withStrand);
    assert forall i :: 0 <= i < |S| ==> S[i].chrom == c by {
      forall i | 0 <= i < |S| ensures S[i].chrom == c {
        assert S[i] in S;
      }
    }
    CalculateIntervalChrom(S, c, L, augment, withStrand);
    var us := CalculateInterval(S, L, augment, true, false).value;
    RowsForAt(S, us, mode, L, T, C);
  }

  /** Row k of the label tensor is the label of row k of df (with
      seq_len other than 'real'): computed against the annotations of that
      row's chromosome on that row's interval. The two frames are built by
      separate loops, so this is what keeps sample k's input and target
      together. */
  lemma {:induction false} LabelsAlignOver(anns: seq<Ann>, cs: seq<string>, mode: Mode, L: nat, T: nat, C: nat,
                                           augment: bool, withStrand: bool)
    requires DataframeOver(anns, cs, L, augment, false, withStrand).Ok?
    requires LabelsOver(anns, cs, mode, L, T, C, augment).Ok?
    ensures var df, rows := DataframeOver(anns, cs, L, augment, false, withStrand).value,
                            LabelsOver(anns, cs, mode, L, T, C, augment).value;
            |rows| == |df| &&
            forall k :: 0 <= k < |df| ==>
              Ok(rows[k]) == WindowLabel(OnChrom(anns, df[k].chrom), Unstranded(df[k]), mode, L, T, C)
    decreases |cs|
  {
    if cs != [] {
      LabelsAlignOver(anns, cs[1..], mode, L, T, C, augment, withStrand);
      LabelsOverCons(anns, cs, mode, L, T, C, augment);
      DataframeOverCons(anns, cs, L, augment, withStrand);
      ChromAlign(anns, cs[0], mode, L, T, C, augment, withStrand);
      var ws := ChromRows(OnChrom(anns, cs[0]), L, augment, false, withStrand).value;
      var part := ChromLabels(OnChrom(anns, cs[0]), mode, L, T, C, augment).value;
      var df, rows := DataframeOver(anns, cs, L, augment, false, withStrand).value,
                      LabelsOver(anns, cs, mode, L, T, C, augment).value;
      var df', rows' := DataframeOver(anns, cs[1..], L, augment, false, withStrand).value,
                        LabelsOver(anns, cs[1..], mode, L, T, C, augment).value;
      var f := (w: Window) => WindowLabel(OnChrom(anns, w.chrom), Unstranded(w), mode, L, T, C);
      AlignedConcat(ws, df', part, rows', f);
    }
  }

  lemma LabelsAlignDataframe(anns: seq<Ann>, mode: Mode, L: nat, augment: bool, withStrand: bool)
    requires Dataframe(anns, L, augment, false, withStrand).Ok?
    requires Labels(anns, mode, L, augment).Ok?
    ensures var df, rows := Dataframe(anns, L, augment, false, withStrand).value, Labels(anns, mode, L, augment).value;
            |rows| == |df| &&
            forall k :: 0 <= k < |df| ==>
              Ok(rows[k]) == WindowLabel(OnChrom(anns, df[k].chrom), Unstranded(df[k]), mode, L, NbTypes(anns), NbLabels(anns))
  {
    LabelsAlignOver(anns, Chroms(anns), mode, L, NbTypes(anns), NbLabels(anns), augment, withStrand);
  }

  lemma ChromShaped(S: seq<Ann>, mode: Mode, L: nat, T: nat, C: nat, augment: bool)
    requires ChromLabels(S, mode, L, T, C, augment).Ok?
    ensures var part := ChromLabels(S, mode, L, T, C, augment).value;
            forall k :: 0 <= k < |part| ==> Shaped(part[k], mode, L, T, C)
  {
    var us := CalculateInterval(S, L, augment, true, false).value;
    var part := ChromLabels(S, mode, L, T, C, augment).value;
    RowsForAt(S, us, mode, L, T, C);
    forall k | 0 <= k < |part| ensures Shaped(part[k], mode, L, T, C) {
      WindowLabelShaped(S, us[k], mode, L, T, C);
    }
  }

  /** Every row of the label tensor has the tensor's row shape with 0/1
      entries. */
  lemma {:induction false} LabelsShapedOver(anns: seq<Ann>, cs: seq<string>, mode: Mode, L: nat, T: nat, C: nat, augment: bool)
    requires LabelsOver(anns, cs, mode, L, T, C, augment).Ok?
    ensures var rows := LabelsOver(anns, cs, mode, L, T, C, augment).value;
            forall k :: 0 <= k < |rows| ==> Shaped(rows[k], mode, L, T, C)
    decreases |cs|
  {
    if cs != [] {
      LabelsOverCons(anns, cs, mode, L, T, C, augment);
      LabelsShapedOver(anns, cs[1..], mode, L, T, C, augment);
      ChromShaped(OnChrom(anns, cs[0]), mode, L, T, C, augment);
      var part := ChromLabels(OnChrom(anns, cs[0]), mode, L, T, C, augment).value;
      var rows' := LabelsOver(anns, cs[1..], mode, L, T, C, augment).value;
      AllConcat(part, rows', r => Shaped(r, mode, L, T, C));
    }
  }

  /** Under seq2seq, base p of a window of length L is marked for
      (type t+1, label c+1) exactly when an annotation of that type and
      label covers the base at absolute position w.start + p. */
  lemma Seq2SeqMarksCoveredBases(S: seq<Ann>, w: Window, L: nat, T: nat, C: nat, p: int, t: int, c: int)
    requires w.stop - w.start == L && 0 <= p < L && 0 <= t < T && 0 <= c < C
    ensures GridAt(S, w, p, T, C)[t][c] == 1 <==>
            exists i :: 0 <= i < |S| && S[i].kind == t + 1 && S[i].labelId == c + 1 && S[i].start <= w.start + p < S[i].stop
  {
    if GridAt(S, w, p, T, C)[t][c] == 1 {
      var i :| 0 <= i < |S| && HitsAt(S[i], w, p, t, c);
      assert S[i].start <= w.start + p < S[i].stop;
    }
    if exists i :: 0 <= i < |S| && S[i].kind == t + 1 && S[i].labelId == c + 1 && S[i].start <= w.start + p < S[i].stop {
      var i :| 0 <= i < |S| && S[i].kind == t + 1 && S[i].labelId == c + 1 && S[i].start <= w.start + p < S[i].stop;
      assert HitsAt(S[i], w, p, t, c);
    }
  }

  /** An annotation inside the window also overlaps it: match_all marks
      no cell that match_any leaves clear. */
  lemma MatchAllWithinMatchAny(S: seq<Ann>, w: Window, T: nat, C: nat, t: int, c: int)
    requires Proper(S) && 0 <= t < T && 0 <= c < C
    requires GridOf(S, w, MatchAll, T, C)[t][c] == 1
    ensures GridOf(S, w, MatchAny, T, C)[t][c] == 1
  {
    var i :| 0 <= i < |S| && Hits(S[i], w, MatchAll, t, c);
    assert Hits(S[i], w, MatchAny, t, c);
  }

  /** match_any marks a cell exactly when the seq2seq label of the same
      window marks that cell at some base. */
  lemma MatchAnyIffSomeBase(S: seq<Ann>, w: Window, L: nat, T: nat, C: nat, t: int, c: int)
    requires Proper(S) && w.stop - w.start == L >= 1 && 0 <= t < T && 0 <= c < C
    ensures GridOf(S, w, MatchAny, T, C)[t][c] == 1 <==> exists p :: 0 <= p < L && GridAt(S, w, p, T, C)[t][c] == 1
  {
    if GridOf(S, w, MatchAny, T, C)[t][c] == 1 {
      var i :| 0 <= i < |S| && Hits(S[i], w, MatchAny, t, c);
      var p := Lo(S[i], w);
      assert HitsAt(S[i], w, p, t, c);
      assert 0 <= p < L && GridAt(S, w, p, T, C)[t][c] == 1;
    }
    if exists p :: 0 <= p < L && GridAt(S, w, p, T, C)[t][c] == 1 {
      var p :| 0 <= p < L && GridAt(S, w, p, T, C)[t][c] == 1;
      var i :| 0 <= i < |S| && HitsAt(S[i], w, p, t, c);
      assert Hits(S[i], w, MatchAny, t, c);
    }
  }

  /** With seq_len='real' (never with augmentation) df holds the
      annotation rows themselves and labels one row per annotation's
      centered window: the two still have one row each per annotation. */
  lemma {:induction false} LabelsCountReal(anns: seq<Ann>, cs: seq<string>, mode: Mode, L: nat, T: nat, C: nat, withStrand: bool)
    requires DataframeOver(anns, cs, L, false, true, withStrand).Ok?
    requires LabelsOver(anns, cs, mode, L, T, C, false).Ok?
    ensures |LabelsOver(anns, cs, mode, L, T, C, false).value| == |DataframeOver(anns, cs, L, false, true, withStrand).value|
    decreases |cs|
  {
    if cs != [] {
      LabelsCountReal(anns, cs[1..], mode, L, T, C, withStrand);
      LabelsOverCons(anns, cs, mode, L, T, C, false);
      var S := OnChrom(anns, cs[0]);
      var us := CalculateInterval(S, L, false, true, false).value;
      RowsForAt(S, us, mode, L, T, C);
    }
  }
}
