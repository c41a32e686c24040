/** The windowing policies of SparseDataset._calculate_interval and the
    positive window rows of _get_dataframe. */
module Windowing {
  import opened Common
  import opened Annotations

  /** The label/type columns a row of df may carry. */
  datatype Tag = Tag(labelId: nat, kind: nat)

  /** One row of df: an interval on a chromosome, its strand (None when df
      has no strand column or the value is missing) and its label/type
      columns (None where df leaves them empty). */
  datatype Window = Window(chrom: string, start: int, stop: int, strand: Option<char>, tag: Option<Tag>)

  function StrandOf(a: Ann, withStrand: bool): Option<char>
  {
    if withStrand then a.strand else None
  }

  /** True when [w.start, w.stop) holds all of a. */
  predicate Contains(w: Window, a: Ann)
  {
    w.start <= a.start && a.stop <= w.stop
  }

  // ---------------------------------------------------------- centered

  /** The centered policy: pad the annotation by wx = L - span, the extra
      base of an odd wx going to the left. Python's // and % by 2 floor,
      which is what Dafny's Euclidean / and % do for a positive divisor. */
  function Centered(a: Ann, L: int, withStrand: bool): (w: Window)
    ensures w.stop - w.start == L
    ensures Span(a) <= L ==> Contains(w, a)
    ensures 0 <= (a.start - w.start) - (w.stop - a.stop) <= 1
    ensures (a.start - w.start) - (w.stop - a.stop) == (L - Span(a)) % 2
    ensures w.chrom == a.chrom && w.strand == StrandOf(a, withStrand) && w.tag == None
  {
    var wx := L - (a.stop - a.start);
    Window(a.chrom, a.start - wx / 2 - wx % 2, a.stop + wx / 2, StrandOf(a, withStrand), None)
  }

  /** The centered window is the only window of length L around the
      annotation whose left pad is the right pad or one more. */
  lemma CenteredUnique(a: Ann, L: int, withStrand: bool, s: int, e: int)
    requires e - s == L
    requires 0 <= (a.start - s) - (e - a.stop) <= 1
    ensures Centered(a, L, withStrand).start == s && Centered(a, L, withStrand).stop == e
  {
    var w := Centered(a, L, withStrand);
    var left, right := a.start - s, e - a.stop;
    assert left + right == L - Span(a);
    var wl, wr := a.start - w.start, w.stop - a.stop;
    assert wl + wr == L - Span(a);
  }

  // --------------------------------------------------------- augmented

  /** Number of augmented windows of one annotation (np.arange's length,
      never negative). */
  function AugmentCount(a: Ann, L: int): nat
  {
    if L - Span(a) + 1 > 0 then L - Span(a) + 1 else 0
  }

  /** Augmentation with return_all: the windows whose starts run from
      stop - L to start and whose stops run from stop to start + L. */
  function Augmented(a: Ann, L: int, withStrand: bool): (ws: seq<Window>)
    ensures |ws| == AugmentCount(a, L)
    ensures forall k :: 0 <= k < |ws| ==> ws[k].start == a.stop - L + k && ws[k].stop - ws[k].start == L
    ensures forall k :: 0 <= k < |ws| ==> Contains(ws[k], a)
    ensures forall k :: 0 <= k < |ws| ==> ws[k].chrom == a.chrom && ws[k].strand == StrandOf(a, withStrand) && ws[k].tag == None
  {
    seq(AugmentCount(a, L), k requires 0 <= k < AugmentCount(a, L) =>
          Window(a.chrom, a.stop - L + k, a.stop + k, StrandOf(a, withStrand), None))
  }

  /** The augmented windows are exactly the windows of length L that
      contain the annotation: every start from stop - L to start occurs,
      and only those. */
  lemma AugmentedExactly(a: Ann, L: int, withStrand: bool, s: int)
    ensures (exists k :: 0 <= k < |Augmented(a, L, withStrand)| && Augmented(a, L, withStrand)[k].start == s)
            <==> a.stop - L <= s <= a.start
  {
    var ws := Augmented(a, L, withStrand);
    if a.stop - L <= s <= a.start {
      var k := s - (a.stop - L);
      assert 0 <= k < |ws| && ws[k].start == s;
    }
  }

  /** All annotations' augmented windows, annotation after annotation
      (np.concatenate of the per-annotation ranges). */
  function AugmentAll(anns: seq<Ann>, L: int, withStrand: bool): (ws: seq<Window>)
    decreases |anns|
  {
    if anns == [] then [] else Augmented(anns[0], L, withStrand) + AugmentAll(anns[1..], L, withStrand)
  }

  /** Every augmented window has length L and holds one of the annotations
      it was made from. */
  lemma {:induction false} AugmentAllWindows(anns: seq<Ann>, L: int, withStrand: bool)
    ensures forall k :: 0 <= k < |AugmentAll(anns, L, withStrand)| ==>
              var w := AugmentAll(anns, L, withStrand)[k];
              w.stop - w.start == L && w.tag == None &&
              exists i :: 0 <= i < |anns| && Contains(w, anns[i]) && w.chrom == anns[i].chrom && Within(w, Extremes(anns[i], L))
    decreases |anns|
  {
    if anns != [] {
      AugmentAllWindows(anns[1..], L, withStrand);
      var head := Augmented(anns[0], L, withStrand);
      var all := AugmentAll(anns, L, withStrand);
      forall k | 0 <= k < |all|
        ensures all[k].stop - all[k].start == L && all[k].tag == None
        ensures exists i :: 0 <= i < |anns| && Contains(all[k], anns[i]) && all[k].chrom == anns[i].chrom && Within(all[k], Extremes(anns[i], L))
      {
        if k < |head| {
          assert all[k] == head[k];
        } else {
          var w := AugmentAll(anns[1..], L, withStrand)[k - |head|];
          assert all[k] == w;
          var i :| 0 <= i < |anns[1..]| && Contains(w, anns[1..][i]) && w.chrom == anns[1..][i].chrom && Within(w, Extremes(anns[1..][i], L));
          assert anns[1..][i] == anns[i + 1];
        }
      }
    }
  }

  /** Augmentation without return_all: the two extreme windows, as one
      interval from the leftmost start to the rightmost stop. */
  function Extremes(a: Ann, L: int): (w: Window)
    ensures w.chrom == a.chrom && w.start == a.stop - L && w.stop == a.start + L
  {
    Window(a.chrom, a.stop - L, a.start + L, None, None)
  }

  /** The interval of w lies inside the interval of e. */
  predicate Within(w: Window, e: Window)
  {
    e.start <= w.start && w.stop <= e.stop
  }

  /** Every augmented window lies inside the extremes interval. */
  lemma AugmentedWithinExtremes(a: Ann, L: int, withStrand: bool, k: nat)
    requires k < |Augmented(a, L, withStrand)|
    ensures Within(Augmented(a, L, withStrand)[k], Extremes(a, L))
  {
  }

  /** ... and its two ends are reached: the extremes interval starts where
      the first augmented window starts and stops where the last one
      stops, whenever the annotation has an augmented window at all. */
  lemma ExtremesAreAugmentedEnds(a: Ann, L: int, withStrand: bool)
    requires AugmentCount(a, L) > 0
    ensures var ws := Augmented(a, L, withStrand);
            && Extremes(a, L).start == ws[0].start
            && Extremes(a, L).stop == ws[|ws| - 1].stop
  {
    var ws := Augmented(a, L, withStrand);
    var n := |ws|;
    assert ws[n - 1].start == a.stop - L + (n - 1);
  }

  // ------------------------------------------------- _calculate_interval

  /** The span guard: true when SOME annotation fits in L (numpy .any()). */
  predicate AnyFits(anns: seq<Ann>, L: int)
  {
    exists i :: 0 <= i < |anns| && Span(anns[i]) <= L
  }

  /** An annotation at least two bases longer than L makes np.repeat's
      count negative. */
  predicate RepeatFails(anns: seq<Ann>, L: int)
  {
    exists i :: 0 <= i < |anns| && L - Span(anns[i]) + 1 < 0
  }

  /** _calculate_interval(df, return_all, return_strand) for the rows of
      one chromosome. */
  function CalculateInterval(anns: seq<Ann>, L: int, augment: bool, returnAll: bool, withStrand: bool): (r: Result<seq<Window>>)
    ensures r.Err? ==> r.error == NoWindowFits || r.error == NegativeRepeat
    ensures r == Err(NoWindowFits) <==> !AnyFits(anns, L)
    ensures r == Err(NegativeRepeat) <==> AnyFits(anns, L) && augment && returnAll && withStrand && RepeatFails(anns, L)
    ensures r.Ok? && !(augment && returnAll) ==> |r.value| == |anns|
    ensures r.Ok? && !augment ==> forall i :: 0 <= i < |anns| ==> r.value[i] == Centered(anns[i], L, withStrand)
    ensures r.Ok? && augment && !returnAll ==> forall i :: 0 <= i < |anns| ==> r.value[i] == Extremes(anns[i], L)
    ensures r.Ok? && augment && returnAll ==> r.value == AugmentAll(anns, L, withStrand)
  {
    if !AnyFits(anns, L) then Err(NoWindowFits)
    else if augment && returnAll then
      if withStrand && RepeatFails(anns, L) then Err(NegativeRepeat)
      else Ok(AugmentAll(anns, L, withStrand))
    else if augment then
      Ok(seq(|anns|, i requires 0 <= i < |anns| => Extremes(anns[i], L)))
    else
      Ok(seq(|anns|, i requires 0 <= i < |anns| => Centered(anns[i], L, withStrand)))
  }

  /** Whatever the policy, every window _calculate_interval gives with
      return_all has length L and every fitting annotation lies in one of
      them. The guard only checks that one annotation fits, so the others
      may stick out of their centered windows (see GuardLetsOverlongThrough). */
  lemma CalculateIntervalLengths(anns: seq<Ann>, L: int, augment: bool, withStrand: bool)
    requires CalculateInterval(anns, L, augment, true, withStrand).Ok?
    ensures var ws := CalculateInterval(anns, L, augment, true, withStrand).value;
            forall k :: 0 <= k < |ws| ==> ws[k].stop - ws[k].start == L
  {
    if augment {
      AugmentAllWindows(anns, L, withStrand);
    }
  }

  /** The guard uses .any(): with one annotation that fits, an annotation
      longer than L still gets a window, and that window does not hold it. */
  lemma GuardLetsOverlongThrough()
    ensures var anns := [Ann("chr1", 0, 2, None, 1, 1), Ann("chr1", 10, 20, None, 1, 1)];
            var r := CalculateInterval(anns, 4, false, true, false);
            r.Ok? && !Contains(r.value[1], anns[1])
  {
    var anns := [Ann("chr1", 0, 2, None, 1, 1), Ann("chr1", 10, 20, None, 1, 1)];
    assert Span(anns[0]) <= 4;
  }

  /** A window as _get_labels sees it: coordinates only. */
  function Unstranded(w: Window): Window
  {
    Window(w.chrom, w.start, w.stop, None, None)
  }

  lemma {:induction false} AugmentAllUnstranded(anns: seq<Ann>, L: int, withStrand: bool)
    ensures |AugmentAll(anns, L, false)| == |AugmentAll(anns, L, withStrand)|
    ensures forall k :: 0 <= k < |AugmentAll(anns, L, false)| ==>
              AugmentAll(anns, L, false)[k] == Unstranded(AugmentAll(anns, L, withStrand)[k])
    decreases |anns|
  {
    if anns != [] {
      AugmentAllUnstranded(anns[1..], L, withStrand);
    }
  }

  /** The windows computed with and without return_strand are the same
      intervals, in the same order; the strand never makes the windows
      fail without it. */
  lemma CalculateIntervalUnstranded(anns: seq<Ann>, L: int, augment: bool, withStrand: bool)
    requires CalculateInterval(anns, L, augment, true, withStrand).Ok?
    ensures CalculateInterval(anns, L, augment, true, false).Ok?
    ensures var ws, us := CalculateInterval(anns, L, augment, true, withStrand).value,
                          CalculateInterval(anns, L, augment, true, false).value;
            |us| == |ws| && forall k :: 0 <= k < |us| ==> us[k] == Unstranded(ws[k])
  {
    if augment {
      AugmentAllUnstranded(anns, L, withStrand);
    }
  }

  /** The windows of one chromosome's rows lie on that chromosome. */
  lemma CalculateIntervalChrom(anns: seq<Ann>, c: string, L: int, augment: bool, withStrand: bool)
    requires forall i :: 0 <= i < |anns| ==> anns[i].chrom == c
    requires CalculateInterval(anns, L, augment, true, withStrand).Ok?
    ensures var ws := CalculateInterval(anns, L, augment, true, withStrand).value;
            forall k :: 0 <= k < |ws| ==> ws[k].chrom == c
  {
    if augment {
      AugmentAllWindows(anns, L, withStrand);
    }
  }

  // -------------------------------------------------------- _get_dataframe

  /** The df rows _get_dataframe makes for the rows of one chromosome: the
      augmented (or centered) windows, or with seq_len='real' the
      annotation rows themselves. */
  function ChromRows(anns: seq<Ann>, L: int, augment: bool, realLen: bool, withStrand: bool): Result<seq<Window>>
  {
    if realLen then
      Ok(seq(|anns|, i requires 0 <= i < |anns| =>
               Window(anns[i].chrom, anns[i].start, anns[i].stop, StrandOf(anns[i], withStrand),
                      Some(Tag(anns[i].labelId, anns[i].kind)))))
    else CalculateInterval(anns, L, augment, true, withStrand)
  }

  /** The rows for the chromosomes cs, in that order; the first failing
      chromosome's error otherwise. */
  function DataframeOver(anns: seq<Ann>, cs: seq<string>, L: int, augment: bool, realLen: bool, withStrand: bool): Result<seq<Window>>
    decreases |cs|
  {
    if cs == [] then Ok([])
    else
      match ChromRows(OnChrom(anns, cs[0]), L, augment, realLen, withStrand)
      case Err(e) => Err(e)
      case Ok(ws) => Prepend(ws, DataframeOver(anns, cs[1..], L, augment, realLen, withStrand))
  }

  /** _get_dataframe: one block of rows per chromosome, in order of first
      appearance. */
  function Dataframe(anns: seq<Ann>, L: int, augment: bool, realLen: bool, withStrand: bool): Result<seq<Window>>
  {
    DataframeOver(anns, Chroms(anns), L, augment, realLen, withStrand)
  }

  /** _get_dataframe as the source runs it: a loop over the chromosomes that
      appends each chromosome's rows. */
  method GetDataframe(anns: seq<Ann>, L: int, augment: bool, realLen: bool, withStrand: bool) returns (r: Result<seq<Window>>)
    ensures r == Dataframe(anns, L, augment, realLen, withStrand)
  {
    var cs := Chroms(anns);
    var acc: seq<Window> := [];
    assert cs[0..] == cs;
    PrependNothing(DataframeOver(anns, cs, L, augment, realLen, withStrand));
    for i := 0 to |cs|
      invariant Dataframe(anns, L, augment, realLen, withStrand) == Prepend(acc, DataframeOver(anns, cs[i..], L, augment, realLen, withStrand))
    {
      assert cs[i..][0] == cs[i] && cs[i..][1..] == cs[i + 1..];
      var part := ChromRows(OnChrom(anns, cs[i]), L, augment, realLen, withStrand);
      if part.Err? {
        return Err(part.error);
      }
      PrependTwice(acc, part.value, DataframeOver(anns, cs[i + 1..], L, augment, realLen, withStrand));
      acc := acc + part.value;
    }
    assert cs[|cs|..] == [] && acc + [] == acc;
    r := Ok(acc);
  }

  /** Every row of df lies on a chromosome of the table; outside 'real'
      mode every row is a window of length L. */
  lemma {:induction false} DataframeRows(anns: seq<Ann>, cs: seq<string>, L: int, augment: bool, realLen: bool, withStrand: bool)
    requires forall c :: c in cs ==> c in Chroms(anns)
    requires DataframeOver(anns, cs, L, augment, realLen, withStrand).Ok?
    ensures var rows := DataframeOver(anns, cs, L, augment, realLen, withStrand).value;
            forall k :: 0 <= k < |rows| ==> rows[k].chrom in Chroms(anns) && (!realLen ==> rows[k].stop - rows[k].start == L)
    decreases |cs|
  {
    if cs != [] {
      var slice := OnChrom(anns, cs[0]);
      var ws := ChromRows(slice, L, augment, realLen, withStrand).value;
      DataframeRows(anns, cs[1..], L, augment, realLen, withStrand);
      forall k | 0 <= k < |ws| ensures ws[k].chrom in Chroms(anns) && (!realLen ==> ws[k].stop - ws[k].start == L) {
        if realLen {
          assert slice[k] in slice;
        } else {
          CalculateIntervalLengths(slice, L, augment, withStrand);
          if augment {
            AugmentAllWindows(slice, L, withStrand);
            var i :| 0 <= i < |slice| && Contains(ws[k], slice[i]) && ws[k].chrom == slice[i].chrom;
            assert slice[i] in slice;
          } else {
            assert slice[k] in slice;
          }
        }
      }
    }
  }
}
