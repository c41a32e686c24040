/** ContinuousDataset: the table that maps a global index to a window of a
    chromosome. Every chromosome contributes a block of consecutive
    indices [first_index, last_index); an index is turned back into the
    window of its block. */
module Continuous {
  import opened Common
  import opened Windowing

  /** An entry of bw.chroms(): a chromosome name and its size. */
  datatype ChromSize = ChromSize(name: string, size: nat)

  /** A row of the frame _get_dataframe builds. */
  datatype IndexRow = IndexRow(chrom: string, start: int, stop: int, first: int, last: int)

  /** The constructor's arguments that the index table depends on.
      `downsampling` is the truth value of the argument (None or a mode). */
  datatype Settings = Settings(
    window: int,
    tgWindow: int,                       // tg_window
    downsampling: bool,
    overlapping: bool,
    numChr: bool,
    incl: Option<seq<string>>,           // incl_chromosomes
    excl: Option<seq<string>>,           // excl_chromosomes
    ignoreTargets: bool)

  // --------------------------------------------------- chromosome filter

  predicate KeepChrom(c: ChromSize, incl: Option<seq<string>>, excl: Option<seq<string>>)
  {
    if incl.Some? then c.name in incl.value
    else if excl.Some? then c.name !in excl.value
    else true
  }

  /** chrom_size: incl_chromosomes wins over excl_chromosomes; without
      either every chromosome of the file is kept, in the file's order. */
  function SelectChroms(sizes: seq<ChromSize>, incl: Option<seq<string>>, excl: Option<seq<string>>): (r: seq<ChromSize>)
    ensures forall c :: c in r <==> c in sizes && KeepChrom(c, incl, excl)
    ensures incl.Some? ==> forall c :: c in r ==> c.name in incl.value
    ensures incl.None? && excl.Some? ==> forall c :: c in r ==> c.name !in excl.value
    ensures incl.None? && excl.None? ==> r == sizes
  {
    if incl.None? && excl.None? then sizes
    else Filter(sizes, c => KeepChrom(c, incl, excl))
  }

  /** Filter over a prefix grows by the next element when it is kept. */
  lemma FilterStep(sizes: seq<ChromSize>, i: nat, keep: ChromSize -> bool)
    requires i < |sizes|
    ensures Filter(sizes[..i + 1], keep) == Filter(sizes[..i], keep) + if keep(sizes[i]) then [sizes[i]] else []
  {
    assert sizes[..i + 1][..i] == sizes[..i];
  }

  // ------------------------------------------------------------- stride

  /** asteps: 1 for overlapping windows; otherwise tg_window without
      downsampling and the whole window with it. */
  function Stride(st: Settings): int
  {
    if st.overlapping then 1
    else if !st.downsampling then st.tgWindow
    else st.window
  }

  // -------------------------------------------------------- index table

  /** hw = window // 2 (the divisor is positive, so Dafny's `/` floors). */
  function HalfWindow(window: int): int
  {
    window / 2
  }

  /** The stop column: size - hw + 1 - window % 2. */
  function StopOf(size: int, window: int): int
  {
    size - HalfWindow(window) + 1 - window % 2
  }

  /** The indices one chromosome contributes: (stop - start) // asteps,
      which is (size - window + 1) // asteps. */
  function Count(size: int, window: int, asteps: int): (n: int)
    requires asteps != 0
    ensures n == FloorDiv(size - window + 1, asteps)
  {
    FloorDiv(StopOf(size, window) - HalfWindow(window), asteps)
  }

  function Counts(sizes: seq<ChromSize>, window: int, asteps: int): (r: seq<int>)
    requires asteps != 0
    ensures |r| == |sizes| && forall i :: 0 <= i < |sizes| ==> r[i] == Count(sizes[i].size, window, asteps)
  {
    seq(|sizes|, i requires 0 <= i < |sizes| => Count(sizes[i].size, window, asteps))
  }

  /** last_index of the final row (np.cumsum's last value); 0 for no rows. */
  function End(rows: seq<IndexRow>): int
  {
    if rows == [] then 0 else rows[|rows| - 1].last
  }

  /** The frame of _get_dataframe: the row of each chromosome in turn,
      first_index the running total before it and last_index the running
      total after it. */
  function IndexRows(sizes: seq<ChromSize>, window: int, asteps: int): (rows: seq<IndexRow>)
    requires asteps != 0
    ensures |rows| == |sizes|
    decreases |sizes|
  {
    if sizes == [] then []
    else
      var prev := IndexRows(sizes[..|sizes| - 1], window, asteps);
      var c := sizes[|sizes| - 1];
      var first := End(prev);
      prev + [IndexRow(c.name, HalfWindow(window), StopOf(c.size, window), first, first + Count(c.size, window, asteps))]
  }

  /** _get_dataframe: ZeroDivisionError when asteps is 0 and there is a
      chromosome to divide for. */
  function IndexTable(sizes: seq<ChromSize>, window: int, asteps: int): Result<seq<IndexRow>>
  {
    if sizes == [] then Ok([])
    else if asteps == 0 then Err(ZeroStride)
    else Ok(IndexRows(sizes, window, asteps))
  }

  /** Consecutive blocks: the first starts at 0 and each starts where the
      previous one ends. */
  predicate Chained(rows: seq<IndexRow>)
  {
    && (|rows| > 0 ==> rows[0].first == 0)
    && forall i :: 0 < i < |rows| ==> rows[i].first == rows[i - 1].last
  }

  /** first_index[0] = 0, first_index[i] = last_index[i - 1], and every
      chromosome contributes (size - window + 1) // asteps indices, its row
      starting at start = hw. */
  lemma {:induction false} IndexRowsShape(sizes: seq<ChromSize>, window: int, asteps: int)
    requires asteps != 0
    ensures var rows := IndexRows(sizes, window, asteps);
            && Chained(rows)
            && forall i :: 0 <= i < |rows| ==>
                 && rows[i].chrom == sizes[i].name
                 && rows[i].start == HalfWindow(window)
                 && rows[i].stop == StopOf(sizes[i].size, window)
                 && rows[i].last - rows[i].first == Count(sizes[i].size, window, asteps)
    decreases |sizes|
  {
    if sizes != [] {
      IndexRowsShape(sizes[..|sizes| - 1], window, asteps);
    }
  }

  /** len, the last last_index, is the sum of all contributions. */
  lemma {:induction false} IndexRowsTotal(sizes: seq<ChromSize>, window: int, asteps: int)
    requires asteps != 0
    ensures End(IndexRows(sizes, window, asteps)) == Sum(Counts(sizes, window, asteps))
    decreases |sizes|
  {
    if sizes != [] {
      var init := sizes[..|sizes| - 1];
      IndexRowsTotal(init, window, asteps);
      assert Counts(sizes, window, asteps)[..|sizes| - 1] == Counts(init, window, asteps);
    }
  }

  // ------------------------------------------------------------- lookup

  /** The product of two signs, by cases. */
  function SignProduct(x: int, y: int): (p: int)
    requires -1 <= x <= 1 && -1 <= y <= 1
    ensures p == x * y
  {
    if x == 0 || y == 0 then 0 else if x == y then 1 else -1
  }

  /** np.sign(first_index - idx) * np.sign(last_index - idx) <= 0 */
  predicate Matches(row: IndexRow, idx: int)
  {
    SignProduct(Sign(row.first - idx), Sign(row.last - idx)) <= 0
  }

  /** The test holds when idx lies between first_index and last_index,
      both ends included, in either order. */
  lemma MatchesIff(row: IndexRow, idx: int)
    ensures Matches(row, idx) <==> row.first <= idx <= row.last || row.last <= idx <= row.first
  {
  }

  /** np.where(indicative_mat <= 0)[0][-1]: the last matching row, if any. */
  function LastMatch(rows: seq<IndexRow>, idx: int): (r: Option<nat>)
    ensures r.Some? ==> r.value < |rows| && Matches(rows[r.value], idx) &&
                        forall j :: r.value < j < |rows| ==> !Matches(rows[j], idx)
    ensures r.None? ==> forall j :: 0 <= j < |rows| ==> !Matches(rows[j], idx)
    decreases |rows|
  {
    if rows == [] then None
    else if Matches(rows[|rows| - 1], idx) then Some(|rows| - 1)
    else LastMatch(rows[..|rows| - 1], idx)
  }

  /** _get_interval without the pybedtools step: the row's start moved by
      (idx - first_index) strides, widened by hw to the left and by
      hw + window % 2 to the right; IndexError when no row matches. */
  function Interval(rows: seq<IndexRow>, idx: int, window: int, asteps: int): (r: Result<Window>)
    ensures r.Err? <==> LastMatch(rows, idx).None?
    ensures r.Err? ==> r.error == NoChromosomeRow
    ensures r.Ok? ==> var row := rows[LastMatch(rows, idx).value];
                      && r.value.chrom == row.chrom
                      && r.value.start == row.start - HalfWindow(window) + (idx - row.first) * asteps
                      && r.value.stop - r.value.start == window
  {
    match LastMatch(rows, idx)
    case None => Err(NoChromosomeRow)
    case Some(k) =>
      var row := rows[k];
      var offset := (idx - row.first) * asteps;
      Ok(Window(row.chrom, row.start + offset - HalfWindow(window), row.start + offset + HalfWindow(window) + window % 2, None, None))
  }

  /** With non-negative contributions the blocks only move forward. */
  lemma {:induction false} Ascending(rows: seq<IndexRow>, i: nat, j: nat)
    requires Chained(rows) && forall k :: 0 <= k < |rows| ==> rows[k].first <= rows[k].last
    requires i <= j < |rows|
    ensures rows[i].first <= rows[j].first && rows[i].last <= rows[j].last
    decreases j - i
  {
    if i < j {
      Ascending(rows, i, j - 1);
    }
  }

  /** ... so every block lies within [0, End). */
  lemma Bounded(rows: seq<IndexRow>, k: nat)
    requires Chained(rows) && forall k :: 0 <= k < |rows| ==> rows[k].first <= rows[k].last
    requires k < |rows|
    ensures 0 <= rows[k].first && rows[k].last <= End(rows)
  {
    Ascending(rows, 0, k);
    Ascending(rows, k, |rows| - 1);
  }

  /** The table of non-negative contributions is a chain of blocks. */
  lemma Blocks(sizes: seq<ChromSize>, window: int, asteps: int)
    requires asteps > 0 && forall i :: 0 <= i < |sizes| ==> sizes[i].size + 1 >= window
    ensures var rows := IndexRows(sizes, window, asteps);
            Chained(rows) && forall k :: 0 <= k < |rows| ==> rows[k].first <= rows[k].last
  {
    var rows := IndexRows(sizes, window, asteps);
    IndexRowsShape(sizes, window, asteps);
    forall k | 0 <= k < |rows| ensures rows[k].first <= rows[k].last {
      CountNonNegative(sizes[k].size, window, asteps);
    }
  }

  /** A chromosome at least window - 1 long contributes no negative count. */
  lemma CountNonNegative(size: int, window: int, asteps: int)
    requires asteps > 0 && size + 1 >= window
    ensures Count(size, window, asteps) >= 0
  {
    var q := Count(size, window, asteps);
    if q < 0 {
      MulMono(asteps, q, -1);
    }
  }

  /** Every index of [0, End) lies in some block [first, last). */
  lemma {:induction false} Covered(rows: seq<IndexRow>, idx: int)
    requires Chained(rows) && forall k :: 0 <= k < |rows| ==> rows[k].first <= rows[k].last
    requires 0 <= idx < End(rows)
    ensures exists r :: 0 <= r < |rows| && rows[r].first <= idx < rows[r].last
    decreases |rows|
  {
    var n := |rows|;
    if idx < rows[n - 1].first {
      var init := rows[..n - 1];
      assert init[n - 2] == rows[n - 2];
      Covered(init, idx);
      var r :| 0 <= r < |init| && init[r].first <= idx < init[r].last;
      assert rows[r] == init[r];
    }
  }

  /** The chosen row of an index of [0, End) is the block holding it: a
      row that merely ends at idx is passed over for the next one. */
  lemma ChosenBlock(rows: seq<IndexRow>, idx: int)
    requires Chained(rows) && forall k :: 0 <= k < |rows| ==> rows[k].first <= rows[k].last
    requires 0 <= idx < End(rows)
    ensures LastMatch(rows, idx).Some?
    ensures var r := LastMatch(rows, idx).value; rows[r].first <= idx < rows[r].last
  {
    Covered(rows, idx);
    var r0 :| 0 <= r0 < |rows| && rows[r0].first <= idx < rows[r0].last;
    assert Matches(rows[r0], idx);
  }

  /** For every index of [0, len) the lookup finds the chromosome whose
      block holds it and returns a window of length `window` that starts
      (idx - first_index) * asteps into the chromosome and ends within it. */
  lemma IntervalInRange(sizes: seq<ChromSize>, window: int, asteps: int, idx: int)
    requires asteps > 0 && forall i :: 0 <= i < |sizes| ==> sizes[i].size + 1 >= window
    requires 0 <= idx < End(IndexRows(sizes, window, asteps))
    ensures var rows := IndexRows(sizes, window, asteps);
            var w := Interval(rows, idx, window, asteps);
            && w.Ok? && LastMatch(rows, idx).Some?
            && var r := LastMatch(rows, idx).value;
               && rows[r].first <= idx < rows[r].last
               && w.value.chrom == sizes[r].name
               && w.value.start == (idx - rows[r].first) * asteps
               && w.value.stop - w.value.start == window
               && 0 <= w.value.start && w.value.stop <= sizes[r].size
  {
    var rows := IndexRows(sizes, window, asteps);
    ChosenRow(sizes, window, asteps, idx);
    var r := LastMatch(rows, idx).value;
    var d := idx - rows[r].first;
    IndexRowAt(sizes, window, asteps, r);
    FitsInChromosome(sizes[r].size, window, asteps, d);
    var w := Interval(rows, idx, window, asteps).value;
    assert w.start == d * asteps && w.stop == w.start + window;
  }

  /** ChosenBlock for the table of a chromosome list. */
  lemma ChosenRow(sizes: seq<ChromSize>, window: int, asteps: int, idx: int)
    requires asteps > 0 && forall i :: 0 <= i < |sizes| ==> sizes[i].size + 1 >= window
    requires 0 <= idx < End(IndexRows(sizes, window, asteps))
    ensures var rows := IndexRows(sizes, window, asteps);
            LastMatch(rows, idx).Some? && rows[LastMatch(rows, idx).value].first <= idx < rows[LastMatch(rows, idx).value].last
  {
    Blocks(sizes, window, asteps);
    ChosenBlock(IndexRows(sizes, window, asteps), idx);
  }

  /** IndexRowsShape for one row. */
  lemma IndexRowAt(sizes: seq<ChromSize>, window: int, asteps: int, i: nat)
    requires asteps != 0 && i < |sizes|
    ensures var row := IndexRows(sizes, window, asteps)[i];
            && row.chrom == sizes[i].name && row.start == HalfWindow(window)
            && row.last - row.first == Count(sizes[i].size, window, asteps)
  {
    IndexRowsShape(sizes, window, asteps);
  }

  /** The d-th window of a chromosome (d below its contribution) starts at
      d * asteps >= 0 and ends within the chromosome. */
  lemma FitsInChromosome(size: int, window: int, asteps: int, d: int)
    requires asteps > 0 && 0 <= d < FloorDiv(size - window + 1, asteps)
    ensures 0 <= d * asteps && d * asteps + window <= size
  {
    var n := FloorDiv(size - window + 1, asteps);
    assert asteps * n <= size - window + 1;
    MulMono(asteps, d + 1, n);
  }

  lemma MulMono(a: int, x: int, y: int)
    requires a >= 0 && x <= y
    ensures a * x <= a * y
  {
  }

  /** The window gives its index back: idx = first_index + start / asteps
      on the row of the window's chromosome (names are distinct), and the
      start is a whole number of strides. */
  lemma IntervalRecovers(sizes: seq<ChromSize>, window: int, asteps: int, idx: int)
    requires asteps > 0 && forall i :: 0 <= i < |sizes| ==> sizes[i].size + 1 >= window
    requires forall i, j :: 0 <= i < j < |sizes| ==> sizes[i].name != sizes[j].name
    requires 0 <= idx < End(IndexRows(sizes, window, asteps))
    ensures var rows := IndexRows(sizes, window, asteps);
            && Interval(rows, idx, window, asteps).Ok?
            && var w := Interval(rows, idx, window, asteps).value;
            && w.start % asteps == 0
            && forall r :: 0 <= r < |rows| && rows[r].chrom == w.chrom ==> idx == rows[r].first + w.start / asteps
  {
    var rows := IndexRows(sizes, window, asteps);
    IntervalInRange(sizes, window, asteps, idx);
    var w := Interval(rows, idx, window, asteps).value;
    var k := LastMatch(rows, idx).value;
    var d := idx - rows[k].first;
    assert w.start / asteps == d && w.start % asteps == 0 by {
      DivExact(d, asteps);
    }
    forall r | 0 <= r < |rows| && rows[r].chrom == w.chrom ensures r == k {
      IndexRowAt(sizes, window, asteps, r);
      IndexRowAt(sizes, window, asteps, k);
    }
  }

  lemma DivExact(d: int, a: int)
    requires a > 0
    ensures (d * a) / a == d && (d * a) % a == 0
  {
    var q, m := (d * a) / a, (d * a) % a;
    assert d * a == a * q + m && 0 <= m < a;
    assert a * (d - q) == m;
    if d - q >= 1 {
      MulMono(a, 1, d - q);
    } else if d - q <= -1 {
      MulMono(a, d - q, -1);
    }
  }

  /** Two indices of [0, len) never share a window. */
  lemma IntervalInjective(sizes: seq<ChromSize>, window: int, asteps: int, i: int, j: int)
    requires asteps > 0 && forall k :: 0 <= k < |sizes| ==> sizes[k].size + 1 >= window
    requires forall a, b :: 0 <= a < b < |sizes| ==> sizes[a].name != sizes[b].name
    requires 0 <= i < End(IndexRows(sizes, window, asteps)) && 0 <= j < End(IndexRows(sizes, window, asteps))
    requires Interval(IndexRows(sizes, window, asteps), i, window, asteps) == Interval(IndexRows(sizes, window, asteps), j, window, asteps)
    ensures i == j
  {
    var rows := IndexRows(sizes, window, asteps);
    IntervalRecovers(sizes, window, asteps, i);
    IntervalRecovers(sizes, window, asteps, j);
    IntervalInRange(sizes, window, asteps, i);
    var w := Interval(rows, i, window, asteps).value;
    var r := LastMatch(rows, i).value;
    assert rows[r].chrom == w.chrom;
  }

  /** The converse of IntervalRecovers: the d-th window of chromosome r (d
      below its contribution) is reached, by index first_index + d, and by
      the lookup of that row and no other. */
  lemma IntervalReaches(sizes: seq<ChromSize>, window: int, asteps: int, r: nat, d: int)
    requires asteps > 0 && forall i :: 0 <= i < |sizes| ==> sizes[i].size + 1 >= window
    requires r < |sizes| && 0 <= d < Count(sizes[r].size, window, asteps)
    ensures var rows := IndexRows(sizes, window, asteps);
            BlockIndex(rows, r, d, window, asteps) && rows[r].chrom == sizes[r].name
  {
    Blocks(sizes, window, asteps);
    IndexRowAt(sizes, window, asteps, r);
    BlockWindow(IndexRows(sizes, window, asteps), r, d, window, asteps);
  }

  /** Index first_index + d lies in [0, len), is looked up on row r, and
      gives the d-th window of r's chromosome. */
  predicate BlockIndex(rows: seq<IndexRow>, r: nat, d: int, window: int, asteps: int)
    requires r < |rows|
  {
    var idx := rows[r].first + d;
    && 0 <= idx < End(rows)
    && LastMatch(rows, idx) == Some(r)
    && Interval(rows, idx, window, asteps) == Ok(Window(rows[r].chrom, d * asteps, d * asteps + window, None, None))
  }

  /** The d-th index of a block gives the block's d-th window. */
  lemma BlockWindow(rows: seq<IndexRow>, r: nat, d: int, window: int, asteps: int)
    requires Chained(rows) && forall k :: 0 <= k < |rows| ==> rows[k].first <= rows[k].last
    requires r < |rows| && rows[r].start == HalfWindow(window) && 0 <= d < rows[r].last - rows[r].first
    ensures BlockIndex(rows, r, d, window, asteps)
  {
    var idx := rows[r].first + d;
    assert 0 <= idx < End(rows) by {
      Bounded(rows, r);
    }
    assert LastMatch(rows, idx) == Some(r) by {
      HolderChosen(rows, r, idx);
    }
    assert Interval(rows, idx, window, asteps) == Ok(Window(rows[r].chrom, d * asteps, d * asteps + window, None, None)) by {
      assert (idx - rows[r].first) * asteps == d * asteps;
      assert HalfWindow(window) * 2 + window % 2 == window;
    }
  }

  /** The lookup of an index picks the one block that holds it. */
  lemma HolderChosen(rows: seq<IndexRow>, r: nat, idx: int)
    requires Chained(rows) && forall k :: 0 <= k < |rows| ==> rows[k].first <= rows[k].last
    requires r < |rows| && rows[r].first <= idx < rows[r].last
    ensures LastMatch(rows, idx) == Some(r)
  {
    assert Matches(rows[r], idx);
    var k := LastMatch(rows, idx).value;
    if k > r {
      Ascending(rows, r + 1, k);
      assert false;
    }
  }

  /** A last_index that is not the final one belongs to the next block: the
      lookup skips the row that ends there. */
  lemma BoundaryGoesToNext(rows: seq<IndexRow>, r: nat)
    requires Chained(rows) && r + 1 < |rows|
    ensures LastMatch(rows, rows[r].last).Some? && LastMatch(rows, rows[r].last).value > r
  {
    assert Matches(rows[r + 1], rows[r].last);
  }

  /** The index is never range-checked against len: below 0 and above len
      no row matches, so the lookup fails with IndexError ... */
  lemma IntervalOutside(sizes: seq<ChromSize>, window: int, asteps: int, idx: int)
    requires asteps > 0 && forall i :: 0 <= i < |sizes| ==> sizes[i].size + 1 >= window
    requires idx < 0 || idx > End(IndexRows(sizes, window, asteps))
    ensures Interval(IndexRows(sizes, window, asteps), idx, window, asteps) == Err(NoChromosomeRow)
  {
    var rows := IndexRows(sizes, window, asteps);
    Blocks(sizes, window, asteps);
    forall k | 0 <= k < |rows| ensures !Matches(rows[k], idx) {
      Bounded(rows, k);
    }
  }

  /** ... while idx == len itself is looked up on the last chromosome and
      yields the window one stride past its last one. */
  lemma IntervalAtLen(sizes: seq<ChromSize>, window: int, asteps: int)
    requires asteps > 0 && sizes != []
    ensures var rows := IndexRows(sizes, window, asteps);
            && LastMatch(rows, End(rows)) == Some(|rows| - 1)
            && Interval(rows, End(rows), window, asteps).Ok?
            && Interval(rows, End(rows), window, asteps).value.start == Count(sizes[|sizes| - 1].size, window, asteps) * asteps
  {
    var rows := IndexRows(sizes, window, asteps);
    var n := |rows|;
    assert Matches(rows[n - 1], End(rows));
    IndexRowsShape(sizes, window, asteps);
    assert rows[n - 1].start == HalfWindow(window);
    assert End(rows) - rows[n - 1].first == Count(sizes[n - 1].size, window, asteps);
  }

  /** Consecutive indices of one block give windows one stride apart; with
      downsampling and no overlap the stride is the window, so the windows
      tile the chromosome without overlapping. */
  lemma StrideSpacing(rows: seq<IndexRow>, st: Settings, idx: int)
    requires Stride(st) != 0
    requires Chained(rows) && forall k :: 0 <= k < |rows| ==> rows[k].first <= rows[k].last
    requires 0 <= idx && idx + 1 < End(rows)
    requires LastMatch(rows, idx) == LastMatch(rows, idx + 1)
    ensures var a, b := Interval(rows, idx, st.window, Stride(st)), Interval(rows, idx + 1, st.window, Stride(st));
            && a.Ok? && b.Ok? && b.value.start == a.value.start + Stride(st)
            && (st.downsampling && !st.overlapping ==> b.value.start == a.value.stop)
  {
    ChosenBlock(rows, idx);
    ChosenBlock(rows, idx + 1);
  }

  // ----------------------------------------------- short chromosomes

  /** As written, a chromosome shorter than window - 1 contributes a
      negative count, which np.cumsum carries into the next blocks: here
      "b" (size 1) takes -2, len is 5 instead of 7, and the windows [0, 4)
      and [1, 5) of "a" are never reached from [0, len). */
  lemma ShortChromosomeLosesWindows()
    ensures var sizes := [ChromSize("b", 1), ChromSize("a", 10)];
            var rows := IndexRows(sizes, 4, 1);
            && Count(10, 4, 1) == 7
            && End(rows) == 5
            && forall idx :: 0 <= idx < End(rows) ==> Interval(rows, idx, 4, 1) != Ok(Window("a", 0, 4, None, None))
  {
    var sizes := [ChromSize("b", 1), ChromSize("a", 10)];
    var rows := IndexRows(sizes, 4, 1);
    assert sizes[..1] == [ChromSize("b", 1)];
    assert IndexRows(sizes[..1], 4, 1) == [IndexRow("b", 2, 0, 0, -2)];
    assert rows == [IndexRow("b", 2, 0, 0, -2), IndexRow("a", 2, 9, -2, 5)];
    forall idx | 0 <= idx < End(rows) ensures Interval(rows, idx, 4, 1) != Ok(Window("a", 0, 4, None, None)) {
      assert Matches(rows[1], idx);
      assert LastMatch(rows, idx) == Some(1);
    }
  }

  /** ... and the lookup no longer rejects every index outside [0, len]:
      on the same table index -1 falls in the block [-2, 5) of "a" and
      returns its window [1, 5). */
  lemma ShortChromosomeAnswersNegativeIndex()
    ensures var rows := IndexRows([ChromSize("b", 1), ChromSize("a", 10)], 4, 1);
            Interval(rows, -1, 4, 1) == Ok(Window("a", 1, 5, None, None))
  {
    var sizes := [ChromSize("b", 1), ChromSize("a", 10)];
    var rows := IndexRows(sizes, 4, 1);
    assert sizes[..1] == [ChromSize("b", 1)];
    assert IndexRows(sizes[..1], 4, 1) == [IndexRow("b", 2, 0, 0, -2)];
    assert rows == [IndexRow("b", 2, 0, 0, -2), IndexRow("a", 2, 9, -2, 5)];
    assert Matches(rows[1], -1);
  }

  /** The chromosomes that hold at least one window. */
  function Usable(sizes: seq<ChromSize>, window: int): (r: seq<ChromSize>)
    ensures forall c :: c in r <==> c in sizes && c.size + 1 >= window
  {
    Filter(sizes, (c: ChromSize) => c.size + 1 >= window)
  }

  /** The evidently intended table: a chromosome too short for a window
      contributes nothing, rather than a negative count. */
  function UsableIndexRows(sizes: seq<ChromSize>, window: int, asteps: int): seq<IndexRow>
    requires asteps != 0
  {
    IndexRows(Usable(sizes, window), window, asteps)
  }

  /** On the intended table every window of every chromosome is reached by
      an index of [0, len) ... */
  lemma UsableReaches(sizes: seq<ChromSize>, window: int, asteps: int, c: ChromSize, d: int)
    requires asteps > 0 && c in sizes && 0 <= d < Count(c.size, window, asteps)
    ensures var rows := UsableIndexRows(sizes, window, asteps);
            exists idx :: 0 <= idx < End(rows) && Interval(rows, idx, window, asteps) == Ok(Window(c.name, d * asteps, d * asteps + window, None, None))
  {
    var u := Usable(sizes, window);
    FitsInChromosome(c.size, window, asteps, d);
    assert c in u;
    var r :| 0 <= r < |u| && u[r] == c;
    IntervalReaches(u, window, asteps, r, d);
    var rows := IndexRows(u, window, asteps);
    assert rows == UsableIndexRows(sizes, window, asteps);
    Reached(rows, r, d, window, asteps, c.name);
  }

  lemma Reached(rows: seq<IndexRow>, r: nat, d: int, window: int, asteps: int, name: string)
    requires r < |rows| && BlockIndex(rows, r, d, window, asteps) && rows[r].chrom == name
    ensures exists idx :: 0 <= idx < End(rows) && Interval(rows, idx, window, asteps) == Ok(Window(name, d * asteps, d * asteps + window, None, None))
  {
    var idx := rows[r].first + d;
    assert 0 <= idx < End(rows) && Interval(rows, idx, window, asteps) == Ok(Window(rows[r].chrom, d * asteps, d * asteps + window, None, None));
  }

  /** ... and every index of [0, len) gives a window inside a chromosome. */
  lemma UsableInRange(sizes: seq<ChromSize>, window: int, asteps: int, idx: int)
    requires asteps > 0 && 0 <= idx < End(UsableIndexRows(sizes, window, asteps))
    ensures var w := Interval(UsableIndexRows(sizes, window, asteps), idx, window, asteps);
            && w.Ok? && w.value.stop - w.value.start == window
            && exists c :: c in sizes && c.name == w.value.chrom && 0 <= w.value.start && w.value.stop <= c.size
  {
    var u := Usable(sizes, window);
    var rows := IndexRows(u, window, asteps);
    IntervalInRange(u, window, asteps, idx);
    var r := LastMatch(rows, idx).value;
    assert u[r] in sizes;
  }

  /** Without short chromosomes the intended table is the table as written. */
  lemma UsableWhenLongEnough(sizes: seq<ChromSize>, window: int, asteps: int)
    requires asteps != 0 && forall i :: 0 <= i < |sizes| ==> sizes[i].size + 1 >= window
    ensures UsableIndexRows(sizes, window, asteps) == IndexRows(sizes, window, asteps)
  {
    FilterKeepsAll(sizes, (c: ChromSize) => c.size + 1 >= window);
  }

  // ------------------------------------------------- prefix normalisation

  function WithChrom(row: IndexRow, chrom: string): IndexRow
  {
    row.(chrom := chrom)
  }

  /** The chromosome-prefix step at the end of __init__: with num_chr and a
      first name starting with "chr", a leading "chr" is removed from every
      name; without num_chr and a first name lacking it, "chr" is put in
      front of every name; IndexError on an empty frame. */
  function Renamed(rows: seq<IndexRow>, numChr: bool): (r: Result<seq<IndexRow>>)
    ensures r.Err? <==> rows == []
    ensures r.Ok? ==> |r.value| == |rows|
    ensures r.Ok? ==> forall i :: 0 <= i < |rows| ==> r.value[i] == WithChrom(rows[i], r.value[i].chrom)
  {
    if rows == [] then Err(EmptyTable)
    else if numChr && HasChrPrefix(rows[0].chrom) then Ok(seq(|rows|, i requires 0 <= i < |rows| => WithChrom(rows[i], StripChr(rows[i].chrom))))
    else if !numChr && !HasChrPrefix(rows[0].chrom) then Ok(seq(|rows|, i requires 0 <= i < |rows| => WithChrom(rows[i], AddChr(rows[i].chrom))))
    else Ok(rows)
  }

  /** Which names the step produces: without num_chr, when the first name
      lacks "chr", the prefix is put in front of every name (whether that
      name had it or not) and can be stripped off again; when the first
      name has it, the frame is left alone; with num_chr a leading "chr" is
      dropped from every name exactly when the first had one. */
  lemma RenamedNames(rows: seq<IndexRow>, numChr: bool)
    requires rows != []
    ensures var r := Renamed(rows, numChr).value;
            && (!numChr ==> HasChrPrefix(r[0].chrom))
            && (!numChr && !HasChrPrefix(rows[0].chrom) ==>
                  forall i :: 0 <= i < |r| ==> r[i].chrom == AddChr(rows[i].chrom) && StripChr(r[i].chrom) == rows[i].chrom)
            && (numChr && HasChrPrefix(rows[0].chrom) ==> forall i :: 0 <= i < |r| ==> r[i].chrom == StripChr(rows[i].chrom))
            && (numChr != HasChrPrefix(rows[0].chrom) ==> r == rows)
  {
    if !numChr && !HasChrPrefix(rows[0].chrom) {
      forall i | 0 <= i < |rows| ensures StripChr(Renamed(rows, numChr).value[i].chrom) == rows[i].chrom {
        StripAddChr(rows[i].chrom);
      }
    }
  }

  /** Without num_chr the step is idempotent. */
  lemma RenamedIdempotent(rows: seq<IndexRow>)
    requires rows != []
    ensures Renamed(Renamed(rows, false).value, false) == Renamed(rows, false)
  {
    RenamedNames(rows, false);
  }

  /** Renaming leaves the blocks alone, so the lookup picks the same row. */
  lemma {:induction false} RenamedLookup(rows: seq<IndexRow>, renamed: seq<IndexRow>, idx: int)
    requires |renamed| == |rows| && forall i :: 0 <= i < |rows| ==> renamed[i] == WithChrom(rows[i], renamed[i].chrom)
    ensures LastMatch(renamed, idx) == LastMatch(rows, idx)
    decreases |rows|
  {
    if rows != [] {
      var n := |rows|;
      RenamedLookup(rows[..n - 1], renamed[..n - 1], idx);
    }
  }

  // ------------------------------------------------------------ __init__

  /** What __init__ leaves in the object. */
  datatype Index = Index(chromSize: seq<ChromSize>, asteps: int, df: seq<IndexRow>)

  /** ContinuousDataset(...) on the chromosome sizes of the first file. */
  function BuildIndex(st: Settings, sizes: seq<ChromSize>): Result<Index>
  {
    var selected := SelectChroms(sizes, st.incl, st.excl);
    var asteps := Stride(st);
    match IndexTable(selected, st.window, asteps)
    case Err(e) => Err(e)
    case Ok(rows) =>
      match Renamed(rows, st.numChr)
      case Err(e) => Err(e)
      case Ok(df) => Ok(Index(selected, asteps, df))
  }

  /** Once built, len is the sum of the contributions of the kept
      chromosomes, and every index of [0, len) is looked up to a window of
      length `window` that lies inside its chromosome. */
  lemma BuildIndexLookup(st: Settings, sizes: seq<ChromSize>, idx: int)
    requires BuildIndex(st, sizes).Ok?
    requires Stride(st) > 0 && forall i :: 0 <= i < |sizes| ==> sizes[i].size + 1 >= st.window
    ensures var x := BuildIndex(st, sizes).value;
            End(x.df) == Sum(Counts(x.chromSize, st.window, x.asteps))
    ensures var x := BuildIndex(st, sizes).value;
            0 <= idx < End(x.df) ==>
              && Interval(x.df, idx, st.window, x.asteps).Ok?
              && var r := LastMatch(x.df, idx).value;
                 var w := Interval(x.df, idx, st.window, x.asteps).value;
                 && w.stop - w.start == st.window && w.chrom == x.df[r].chrom
                 && 0 <= w.start && w.stop <= x.chromSize[r].size
  {
    var x := BuildIndex(st, sizes).value;
    var rows := IndexRows(x.chromSize, st.window, x.asteps);
    assert x.chromSize == SelectChroms(sizes, st.incl, st.excl) && x.asteps == Stride(st) && x.df == Renamed(rows, st.numChr).value;
    IndexRowsTotal(x.chromSize, st.window, x.asteps);
    assert End(x.df) == End(rows);
    if 0 <= idx < End(x.df) {
      assert forall i :: 0 <= i < |x.chromSize| ==> x.chromSize[i].size + 1 >= st.window by {
        forall i | 0 <= i < |x.chromSize| ensures x.chromSize[i].size + 1 >= st.window {
          assert x.chromSize[i] in sizes;
        }
      }
      IntervalInRange(x.chromSize, st.window, x.asteps, idx);
      IntervalRenamed(rows, x.df, idx, st.window, x.asteps);
    }
  }

  /** ... and, conversely, the d-th window of every kept chromosome is
      reached from index first_index + d of its row. */
  lemma BuildIndexReaches(st: Settings, sizes: seq<ChromSize>, r: nat, d: int)
    requires BuildIndex(st, sizes).Ok?
    requires Stride(st) > 0 && forall i :: 0 <= i < |sizes| ==> sizes[i].size + 1 >= st.window
    requires r < |BuildIndex(st, sizes).value.chromSize|
    requires 0 <= d < Count(BuildIndex(st, sizes).value.chromSize[r].size, st.window, Stride(st))
    ensures var x := BuildIndex(st, sizes).value;
            r < |x.df| && BlockIndex(x.df, r, d, st.window, x.asteps)
  {
    var x := BuildIndex(st, sizes).value;
    var rows := IndexRows(x.chromSize, st.window, x.asteps);
    assert x.chromSize == SelectChroms(sizes, st.incl, st.excl) && x.asteps == Stride(st) && x.df == Renamed(rows, st.numChr).value;
    assert forall i :: 0 <= i < |x.chromSize| ==> x.chromSize[i].size + 1 >= st.window by {
      forall i | 0 <= i < |x.chromSize| ensures x.chromSize[i].size + 1 >= st.window {
        assert x.chromSize[i] in sizes;
      }
    }
    IntervalReaches(x.chromSize, st.window, x.asteps, r, d);
    RenamedBlockIndex(rows, x.df, r, d, st.window, x.asteps);
  }

  /** Renaming keeps the blocks, so it keeps every reached window. */
  lemma RenamedBlockIndex(rows: seq<IndexRow>, renamed: seq<IndexRow>, r: nat, d: int, window: int, asteps: int)
    requires |renamed| == |rows| && forall i :: 0 <= i < |rows| ==> renamed[i] == WithChrom(rows[i], renamed[i].chrom)
    requires r < |rows| && BlockIndex(rows, r, d, window, asteps)
    ensures BlockIndex(renamed, r, d, window, asteps)
  {
    IntervalRenamed(rows, renamed, rows[r].first + d, window, asteps);
  }

  /** Looking up in the renamed table gives the same window under the
      renamed chromosome. */
  lemma IntervalRenamed(rows: seq<IndexRow>, renamed: seq<IndexRow>, idx: int, window: int, asteps: int)
    requires |renamed| == |rows| && forall i :: 0 <= i < |rows| ==> renamed[i] == WithChrom(rows[i], renamed[i].chrom)
    ensures LastMatch(renamed, idx) == LastMatch(rows, idx)
    ensures Interval(renamed, idx, window, asteps).Ok? == Interval(rows, idx, window, asteps).Ok?
    ensures Interval(rows, idx, window, asteps).Ok? ==>
              Interval(renamed, idx, window, asteps).value ==
              Interval(rows, idx, window, asteps).value.(chrom := renamed[LastMatch(rows, idx).value].chrom)
  {
    RenamedLookup(rows, renamed, idx);
  }

  // ------------------------------------------------------------ the object

  /** A batch from __getitem__: the intervals and, unless targets are
      ignored, what the extractor returns for each. */
  datatype Item<V> = Item(intervals: seq<Window>, labels: Option<seq<V>>)

  /** _get_interval followed by pybedtools' interval construction, which
      raises OverflowError for a window it cannot hold (`fits` false). */
  function Created(rows: seq<IndexRow>, idx: int, window: int, asteps: int, fits: Window -> bool): (r: Result<Window>)
    ensures r.Ok? <==> Interval(rows, idx, window, asteps).Ok? && fits(Interval(rows, idx, window, asteps).value)
    ensures r.Ok? ==> r == Interval(rows, idx, window, asteps)
    ensures r.Err? && Interval(rows, idx, window, asteps).Ok? ==> r.error == IntervalOverflow
  {
    match Interval(rows, idx, window, asteps)
    case Err(e) => Err(e)
    case Ok(w) => if fits(w) then Ok(w) else Err(IntervalOverflow)
  }

  /** The list comprehension of __getitem__: every index through
      _get_interval and pybedtools (`fits`), stopping at the first error. */
  function Intervals(rows: seq<IndexRow>, idx: seq<int>, window: int, asteps: int, fits: Window -> bool): (r: Result<seq<Window>>)
    ensures r.Ok? ==> |r.value| == |idx| && forall k :: 0 <= k < |idx| ==> Created(rows, idx[k], window, asteps, fits) == Ok(r.value[k])
    ensures r.Err? <==> exists k :: 0 <= k < |idx| && Created(rows, idx[k], window, asteps, fits).Err?
    ensures r.Err? ==> exists k :: 0 <= k < |idx| && Created(rows, idx[k], window, asteps, fits) == Err(r.error)
    decreases |idx|
  {
    if idx == [] then Ok([])
    else
      match Created(rows, idx[0], window, asteps, fits)
      case Err(e) => Err(e)
      case Ok(w) =>
        var rest := Intervals(rows, idx[1..], window, asteps, fits);
        assert forall k :: 1 <= k < |idx| ==> idx[1..][k - 1] == idx[k];
        Prepend([w], rest)
  }

  class ContinuousDataset {
    const st: Settings
    var chromSize: seq<ChromSize>
    var asteps: int
    var df: seq<IndexRow>

    constructor (st: Settings)
      ensures this.st == st && chromSize == [] && asteps == 1 && df == []
    {
      this.st := st;
      chromSize := [];
      asteps := 1;
      df := [];
    }

    function Snapshot(): Index
      reads this
    {
      Index(chromSize, asteps, df)
    }

    /** The chromosome filter of __init__ over bw.chroms(). */
    method SelectChromosomes(sizes: seq<ChromSize>)
      modifies this
      ensures chromSize == SelectChroms(sizes, st.incl, st.excl)
      ensures asteps == old(asteps) && df == old(df)
    {
      if st.incl.None? && st.excl.None? {
        chromSize := sizes;
        return;
      }
      var keep := c => KeepChrom(c, st.incl, st.excl);
      var kept: seq<ChromSize> := [];
      for i := 0 to |sizes|
        invariant kept == Filter(sizes[..i], keep)
        invariant asteps == old(asteps) && df == old(df)
      {
        FilterStep(sizes, i, keep);
        if (if st.incl.Some? then sizes[i].name in st.incl.value else sizes[i].name !in st.excl.value) {
          kept := kept + [sizes[i]];
        }
      }
      assert sizes[..|sizes|] == sizes;
      chromSize := kept;
    }

    /** _get_dataframe: one row per kept chromosome with the running total
        of the contributions (the np.cumsum of last_index). */
    method GetDataframe() returns (err: Option<Error>)
      modifies this
      ensures var t := IndexTable(chromSize, st.window, asteps);
              && (err.Some? <==> t.Err?)
              && (err.Some? ==> err.value == t.error)
              && (err.None? ==> df == t.value)
      ensures chromSize == old(chromSize) && asteps == old(asteps)
    {
      if chromSize == [] {
        df := [];
        return None;
      }
      if asteps == 0 {
        return Some(ZeroStride);
      }
      var hw := st.window / 2;
      var rows: seq<IndexRow> := [];
      var total := 0;
      for i := 0 to |chromSize|
        invariant rows == IndexRows(chromSize[..i], st.window, asteps)
        invariant total == End(rows)
      {
        var c := chromSize[i];
        var stop := c.size - hw + 1 - st.window % 2;
        var n := FloorDiv(stop - hw, asteps);
        assert chromSize[..i + 1][..i] == chromSize[..i];
        rows := rows + [IndexRow(c.name, hw, stop, total, total + n)];
        total := total + n;
      }
      assert chromSize[..|chromSize|] == chromSize;
      df := rows;
      err := None;
    }

    /** The chromosome-prefix step on df. */
    method NormaliseChroms() returns (err: Option<Error>)
      modifies this
      ensures var r := Renamed(old(df), st.numChr);
              && (err.Some? <==> r.Err?)
              && (err.Some? ==> err.value == r.error && df == old(df))
              && (err.None? ==> df == r.value)
      ensures chromSize == old(chromSize) && asteps == old(asteps)
    {
      if df == [] {
        return Some(EmptyTable);
      }
      if st.numChr && HasChrPrefix(df[0].chrom) {
        df := seq(|df|, i requires 0 <= i < |df| reads this => WithChrom(df[i], StripChr(df[i].chrom)));
      } else if !st.numChr && !HasChrPrefix(df[0].chrom) {
        df := seq(|df|, i requires 0 <= i < |df| reads this => WithChrom(df[i], AddChr(df[i].chrom)));
      }
      err := None;
    }

    /** __init__: the chromosome filter, the stride, the index table and
        the prefix step (the signal extractor is not part of the model). */
    method Init(sizes: seq<ChromSize>) returns (err: Option<Error>)
      modifies this
      ensures var b := BuildIndex(st, sizes);
              && (err.Some? <==> b.Err?)
              && (err.Some? ==> err.value == b.error)
              && (err.None? ==> Snapshot() == b.value)
    {
      SelectChromosomes(sizes);
      asteps := 1;
      if !st.downsampling {
        if !st.overlapping {
          asteps := st.tgWindow;
        }
      } else {
        if !st.overlapping {
          asteps := st.window;
        }
      }
      err := GetDataframe();
      if err.Some? {
        return;
      }
      err := NormaliseChroms();
    }

    /** __len__: the last last_index (IndexError on an empty frame). */
    method Len() returns (r: Result<int>)
      ensures df == [] ==> r == Err(EmptyTable)
      ensures df != [] ==> r == Ok(End(df))
    {
      if df == [] {
        return Err(EmptyTable);
      }
      r := Ok(df[|df| - 1].last);
    }

    /** _get_interval, followed by pybedtools' interval construction. */
    method GetInterval(idx: int, fits: Window -> bool) returns (r: Result<Window>)
      ensures r == Created(df, idx, st.window, asteps, fits)
    {
      var hits := LastMatch(df, idx);
      if hits.None? {
        return Err(NoChromosomeRow);
      }
      var row := df[hits.value];
      var start := row.start + (idx - row.first) * asteps - st.window / 2;
      var stop := row.start + (idx - row.first) * asteps + st.window / 2 + st.window % 2;
      var w := Window(row.chrom, start, stop, None, None);
      if !fits(w) {
        return Err(IntervalOverflow);
      }
      r := Ok(w);
    }

    /** __getitem__ for a list of indices. */
    method GetItem<V>(idx: seq<int>, fits: Window -> bool, extract: Window -> V) returns (r: Result<Item<V>>)
      ensures var ws := Intervals(df, idx, st.window, asteps, fits);
              && (r.Err? <==> ws.Err?)
              && (r.Err? ==> r.error == ws.error)
              && (r.Ok? ==>
                    && r.value.intervals == ws.value
                    && (st.ignoreTargets <==> r.value.labels.None?)
                    && (!st.ignoreTargets ==> r.value.labels.value == seq(|ws.value|, k requires 0 <= k < |ws.value| => extract(ws.value[k]))))
    {
      var ws: seq<Window> := [];
      assert idx[0..] == idx;
      PrependNothing(Intervals(df, idx, st.window, asteps, fits));
      for i := 0 to |idx|
        invariant Intervals(df, idx, st.window, asteps, fits) == Prepend(ws, Intervals(df, idx[i..], st.window, asteps, fits))
      {
        var w := GetInterval(idx[i], fits);
        if w.Err? {
          assert Intervals(df, idx[i..], st.window, asteps, fits).Err?;
          return Err(w.error);
        }
        assert idx[i..][1..] == idx[i + 1..];
        PrependTwice(ws, [w.value], Intervals(df, idx[i + 1..], st.window, asteps, fits));
        ws := ws + [w.value];
      }
      assert idx[|idx|..] == [];
      assert ws + [] == ws;
      if st.ignoreTargets {
        return Ok(Item(ws, None));
      }
      var labels := seq(|ws|, k requires 0 <= k < |ws| => extract(ws[k]));
      r := Ok(Item(ws, Some(labels)));
    }
  }
}
