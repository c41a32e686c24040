/** The negative examples of SparseDataset: windows carved out of the
    stretches of each chromosome that no positive window comes near
    (_negative_class), and the placeholder rows of _random_negative_class. */
module Negatives {
  import opened Common
  import opened Annotations
  import opened Windowing
  import opened LabelTensors

  /** negative_ratio: 'all', an integer, or anything else. */
  datatype Ratio = RatioAll | RatioInt(k: int) | RatioOther

  /** The label and type columns _negative_class writes: both 0. */
  const NegativeTag := Tag(0, 0)

  // ------------------------------------------------------------- carving

  /** Candidate start v (np.arange(1, max_stop + 1) holds v at position
      v - 1) is removed by np.delete: position v - 1 lies in
      [start - L, stop) of some positive interval. */
  predicate Blocked(ws: seq<Window>, L: int, v: int)
  {
    exists i :: 0 <= i < |ws| && ws[i].start - L <= v - 1 < ws[i].stop
  }

  /** The candidate starts 1..M that survive np.delete, in increasing
      order. Positions past the end of the candidates are ignored. */
  function Survivors(ws: seq<Window>, L: int, M: int): (r: seq<int>)
    ensures forall v :: v in r <==> 1 <= v <= M && !Blocked(ws, L, v)
    ensures forall j, k :: 0 <= j < k < |r| ==> r[j] < r[k]
    ensures forall j :: 0 <= j < |r| ==> 1 <= r[j] <= M
    decreases M
  {
    if M <= 0 then []
    else
      var below := Survivors(ws, L, M - 1);
      var last := if Blocked(ws, L, M) then [] else [M];
      assert forall j :: 0 <= j < |below| ==> below[j] < M;
      assert forall v :: v in below + last <==> v in below || v in last;
      below + last
  }

  /** A start survives exactly when the window [v, v + L) ends before every
      positive interval starts, or starts at least one base after it ends
      (a window starting right at the interval's stop is removed too). */
  lemma SurvivorsExactly(ws: seq<Window>, L: int, M: int, v: int)
    ensures v in Survivors(ws, L, M) <==>
            1 <= v <= M && forall i :: 0 <= i < |ws| ==> v + L <= ws[i].start || ws[i].stop < v
  {
    if v in Survivors(ws, L, M) {
      forall i | 0 <= i < |ws| ensures v + L <= ws[i].start || ws[i].stop < v {
        assert !(ws[i].start - L <= v - 1 < ws[i].stop);
      }
    }
  }

  /** The largest stop of the table (np.max of the stop column). */
  function MaxStop(anns: seq<Ann>): (m: int)
    requires |anns| > 0
    ensures forall i :: 0 <= i < |anns| ==> anns[i].stop <= m
    ensures exists i :: 0 <= i < |anns| && anns[i].stop == m
    decreases |anns|
  {
    if |anns| == 1 then anns[0].stop
    else
      var m := MaxStop(anns[..|anns| - 1]);
      var last := anns[|anns| - 1].stop;
      assert forall i :: 0 <= i < |anns| - 1 ==> anns[..|anns| - 1][i] == anns[i];
      if last > m then last else m
  }

  /** np.sum(pos_stops - pos_starts) */
  function Covered(ws: seq<Window>): int
    decreases |ws|
  {
    if ws == [] then 0 else Covered(ws[..|ws| - 1]) + (ws[|ws| - 1].stop - ws[|ws| - 1].start)
  }

  /** The candidates of one chromosome and its entry of number_of_pos. */
  datatype Carved = Carved(rows: seq<Window>, covered: int)

  /** The negative rows of chromosome c: one window of length L per
      surviving start, labelled 0/0. */
  function CarveChrom(anns: seq<Ann>, c: string, L: int, augment: bool): Result<Carved>
  {
    var S := OnChrom(anns, c);
    if S == [] then Err(EmptyMax)
    else
      match CalculateInterval(S, L, augment, false, false)
      case Err(e) => Err(e)
      case Ok(ws) =>
        Ok(Carved(StartsToRows(c, Survivors(ws, L, MaxStop(S)), L), Covered(ws)))
  }

  /** neg_df_: one row [v, v + L) on chromosome c per start v. */
  function StartsToRows(c: string, vs: seq<int>, L: int): (rows: seq<Window>)
    ensures |rows| == |vs|
    ensures forall k :: 0 <= k < |vs| ==> rows[k] == Window(c, vs[k], vs[k] + L, None, Some(NegativeTag))
  {
    seq(|vs|, k requires 0 <= k < |vs| => Window(c, vs[k], vs[k] + L, None, Some(NegativeTag)))
  }

  /** CarveChrom for the table and window length at hand. */
  function Carver(anns: seq<Ann>, L: int, augment: bool): string -> Result<Carved>
  {
    c => CarveChrom(anns, c, L, augment)
  }

  /** The candidates of the chromosomes cs, appended in order, and the sum
      of their number_of_pos entries; the first failing chromosome's error
      otherwise. */
  function Pool(carve: string -> Result<Carved>, cs: seq<string>): Result<Carved>
    decreases |cs|
  {
    if cs == [] then Ok(Carved([], 0))
    else
      match carve(cs[0])
      case Err(e) => Err(e)
      case Ok(p) => Joined(p.rows, p.covered, Pool(carve, cs[1..]))
  }

  /** np.random.choice(['+', '-'], n), as the supplied coin stream. */
  function Strands(rows: seq<Window>, hasStrand: bool, coin: nat -> bool): (r: seq<Window>)
    ensures |r| == |rows|
    ensures forall j :: 0 <= j < |r| ==> r[j] == rows[j].(strand := if hasStrand then Some(if coin(j) then '+' else '-') else None)
  {
    seq(|rows|, j requires 0 <= j < |rows| => rows[j].(strand := if hasStrand then Some(if coin(j) then '+' else '-') else None))
  }

  /** The rows and label rows _negative_class returns. */
  datatype Extra = Extra(rows: seq<Window>, labels: seq<LabelRow>)

  /** How many negatives an integer ratio asks for: k times the positions
      covered by the positive intervals with augmentation, k times the
      number of annotations otherwise. */
  function NegativeCount(k: int, augment: bool, covered: int, nAnns: nat): int
  {
    k * (if augment then covered else nAnns)
  }

  /** _negative_class: the pool of every chromosome, strands drawn, then
      the whole pool ('all') or draws from it (an integer ratio). The
      draws np.random.randint makes are the supplied stream `pick`. */
  function NegativeClass(anns: seq<Ann>, L: int, augment: bool, hasStrand: bool, ratio: Ratio, seq2seq: bool,
                         pick: nat -> nat, coin: nat -> bool): Result<Extra>
  {
    match Pool(Carver(anns, L, augment), Chroms(anns))
    case Err(e) => Err(e)
    case Ok(p) => Drawn(anns, p, L, augment, hasStrand, ratio, seq2seq, pick, coin)
  }

  /** _negative_class as the source runs it: the chromosome loop, then the
      draws. */
  method GetNegatives(anns: seq<Ann>, L: int, augment: bool, hasStrand: bool, ratio: Ratio, seq2seq: bool,
                      pick: nat -> nat, coin: nat -> bool) returns (r: Result<Extra>)
    ensures r == NegativeClass(anns, L, augment, hasStrand, ratio, seq2seq, pick, coin)
  {
    var pool := CarveAll(Carver(anns, L, augment), Chroms(anns));
    if pool.Err? {
      return Err(pool.error);
    }
    r := Drawn(anns, pool.value, L, augment, hasStrand, ratio, seq2seq, pick, coin);
  }

  /** The chromosome loop of _negative_class: each chromosome's candidates
      and its number_of_pos entry appended in turn. */
  method CarveAll(carve: string -> Result<Carved>, cs: seq<string>) returns (r: Result<Carved>)
    ensures r == Pool(carve, cs)
  {
    var rows: seq<Window> := [];
    var covered := 0;
    assert cs[0..] == cs;
    JoinedNothing(Pool(carve, cs));
    for i := 0 to |cs|
      invariant Pool(carve, cs) == Joined(rows, covered, Pool(carve, cs[i..]))
    {
      assert cs[i..][0] == cs[i] && cs[i..][1..] == cs[i + 1..];
      var part := carve(cs[i]);
      if part.Err? {
        return Err(part.error);
      }
      JoinedTwice(rows, covered, part.value, Pool(carve, cs[i + 1..]));
      rows := rows + part.value.rows;
      covered := covered + part.value.covered;
    }
    assert cs[|cs|..] == [] && rows + [] == rows && covered + 0 == covered;
    r := Ok(Carved(rows, covered));
  }

  /** A pool with `rows` and `covered` in front of a result. */
  function Joined(rows: seq<Window>, covered: int, r: Result<Carved>): Result<Carved>
  {
    match r
    case Err(e) => Err(e)
    case Ok(q) => Ok(Carved(rows + q.rows, covered + q.covered))
  }

  lemma JoinedNothing(r: Result<Carved>)
    ensures Joined([], 0, r) == r
  {
    if r.Ok? {
      assert [] + r.value.rows == r.value.rows;
    }
  }

  lemma JoinedTwice(rows: seq<Window>, covered: int, p: Carved, r: Result<Carved>)
    ensures Joined(rows, covered, Joined(p.rows, p.covered, r)) == Joined(rows + p.rows, covered + p.covered, r)
  {
    if r.Ok? {
      assert rows + (p.rows + r.value.rows) == (rows + p.rows) + r.value.rows;
    }
  }

  /** The tail of _negative_class once the pool is known. */
  function Drawn(anns: seq<Ann>, p: Carved, L: int, augment: bool, hasStrand: bool, ratio: Ratio, seq2seq: bool,
                 pick: nat -> nat, coin: nat -> bool): Result<Extra>
  {
    var pool := Strands(p.rows, hasStrand, coin);
    var zero := ZeroRow(seq2seq, if L < 0 then 0 else L, NbTypes(anns), NbLabels(anns));
    match ratio
    case RatioAll => Ok(Extra(pool, seq(|pool|, j => zero)))
    case RatioInt(k) =>
      var n := NegativeCount(k, augment, p.covered, |anns|);
      if n < 0 then Err(NegativeSize)
      else if n > 0 && |pool| == 0 then Err(EmptyNegativePool)
      else Ok(Extra(seq(n, i requires 0 <= i < n => pool[pick(i) % |pool|]), seq(n, i => zero)))
    case RatioOther => Err(BadNegativeRatio)
  }

  // ------------------------------------------------------------ properties

  /** A negative row keeps off annotation a: the window ends at or before
      a's start, or starts strictly after a's stop. */
  predicate KeepsOff(w: Window, a: Ann)
  {
    w.stop <= a.start || a.stop < w.start
  }

  /** What _negative_class promises of a row: a window of length L labelled
      0/0, starting at 1 or later, that keeps off every annotation of its
      chromosome that fits in L. */
  predicate NegativeRow(anns: seq<Ann>, L: int, w: Window)
  {
    && w.stop - w.start == L && w.start >= 1 && w.tag == Some(NegativeTag)
    && (exists i :: 0 <= i < |anns| && anns[i].chrom == w.chrom)
    && forall i :: 0 <= i < |anns| && anns[i].chrom == w.chrom && Span(anns[i]) <= L ==> KeepsOff(w, anns[i])
  }

  /** The windows _negative_class carves around cover every fitting
      annotation: the centered window, or the extremes interval. */
  lemma PositiveCovers(S: seq<Ann>, L: int, augment: bool, i: int)
    requires CalculateInterval(S, L, augment, false, false).Ok?
    requires 0 <= i < |S| && Span(S[i]) <= L
    ensures var ws := CalculateInterval(S, L, augment, false, false).value;
            ws[i].start <= S[i].start && S[i].stop <= ws[i].stop
  {
  }

  /** Every candidate row of chromosome c is a negative row, and the starts
      strictly increase. */
  lemma CarvedRows(anns: seq<Ann>, c: string, L: int, augment: bool)
    requires CarveChrom(anns, c, L, augment).Ok?
    ensures var rows := CarveChrom(anns, c, L, augment).value.rows;
            && (forall k :: 0 <= k < |rows| ==> rows[k].chrom == c && NegativeRow(anns, L, rows[k]))
            && (forall j, k :: 0 <= j < k < |rows| ==> rows[j].start < rows[k].start)
  {
    var rows := CarveChrom(anns, c, L, augment).value.rows;
    forall k | 0 <= k < |rows| ensures rows[k].chrom == c && NegativeRow(anns, L, rows[k]) {
      CarvedRow(anns, c, L, augment, k);
    }
    CarvedOrder(anns, c, L, augment);
  }

  /** The carved starts strictly increase. */
  lemma CarvedOrder(anns: seq<Ann>, c: string, L: int, augment: bool)
    requires CarveChrom(anns, c, L, augment).Ok?
    ensures var rows := CarveChrom(anns, c, L, augment).value.rows;
            forall j, k :: 0 <= j < k < |rows| ==> rows[j].start < rows[k].start
  {
  }

  /** CarvedRows for the k-th candidate. */
  lemma CarvedRow(anns: seq<Ann>, c: string, L: int, augment: bool, k: nat)
    requires CarveChrom(anns, c, L, augment).Ok? && k < |CarveChrom(anns, c, L, augment).value.rows|
    ensures var w := CarveChrom(anns, c, L, augment).value.rows[k];
            w.chrom == c && NegativeRow(anns, L, w)
  {
    var S := OnChrom(anns, c);
    var ws := CalculateInterval(S, L, augment, false, false).value;
    var vs := Survivors(ws, L, MaxStop(S));
    var w := CarveChrom(anns, c, L, augment).value.rows[k];
    assert w == Window(c, vs[k], vs[k] + L, None, Some(NegativeTag));
    assert vs[k] in vs;
    assert S[0] in anns;
    forall i | 0 <= i < |anns| && anns[i].chrom == c && Span(anns[i]) <= L
      ensures KeepsOff(w, anns[i])
    {
      SurvivorKeepsOff(anns, c, L, augment, vs[k], i);
    }
  }

  /** A surviving start keeps its window off one fitting annotation. */
  lemma SurvivorKeepsOff(anns: seq<Ann>, c: string, L: int, augment: bool, v: int, i: int)
    requires OnChrom(anns, c) != []
    requires CalculateInterval(OnChrom(anns, c), L, augment, false, false).Ok?
    requires v in Survivors(CalculateInterval(OnChrom(anns, c), L, augment, false, false).value, L, MaxStop(OnChrom(anns, c)))
    requires 0 <= i < |anns| && anns[i].chrom == c && Span(anns[i]) <= L
    ensures v + L <= anns[i].start || anns[i].stop < v
  {
    var j := PositionOnChrom(anns, c, i);
    SurvivorKeepsOffAt(OnChrom(anns, c), L, augment, v, j);
  }

  /** Where the i-th annotation sits in its chromosome's table. */
  lemma PositionOnChrom(anns: seq<Ann>, c: string, i: int) returns (j: int)
    requires 0 <= i < |anns| && anns[i].chrom == c
    ensures 0 <= j < |OnChrom(anns, c)| && OnChrom(anns, c)[j] == anns[i]
  {
    var S := OnChrom(anns, c);
    assert anns[i] in S;
    j :| 0 <= j < |S| && S[j] == anns[i];
  }

  /** SurvivorKeepsOff for the j-th annotation of the chromosome's table S. */
  lemma SurvivorKeepsOffAt(S: seq<Ann>, L: int, augment: bool, v: int, j: int)
    requires S != [] && CalculateInterval(S, L, augment, false, false).Ok?
    requires v in Survivors(CalculateInterval(S, L, augment, false, false).value, L, MaxStop(S))
    requires 0 <= j < |S| && Span(S[j]) <= L
    ensures v + L <= S[j].start || S[j].stop < v
  {
    var ws := CalculateInterval(S, L, augment, false, false).value;
    PositiveCovers(S, L, augment, j);
    SurvivorAvoids(ws, L, MaxStop(S), v, j);
  }

  /** A surviving start keeps its window off the j-th carved interval. */
  lemma SurvivorAvoids(ws: seq<Window>, L: int, M: int, v: int, j: int)
    requires v in Survivors(ws, L, M) && 0 <= j < |ws|
    ensures v + L <= ws[j].start || ws[j].stop < v
  {
    SurvivorsExactly(ws, L, M, v);
  }

  /** No candidate row of chromosome c overlaps any positive window that
      _get_dataframe makes for c (seq_len other than 'real'). */
  lemma CarvedAvoidsPositives(anns: seq<Ann>, c: string, L: int, augment: bool, withStrand: bool, k: int, j: int)
    requires CarveChrom(anns, c, L, augment).Ok?
    requires CalculateInterval(OnChrom(anns, c), L, augment, true, withStrand).Ok?
    requires 0 <= k < |CarveChrom(anns, c, L, augment).value.rows|
    requires 0 <= j < |CalculateInterval(OnChrom(anns, c), L, augment, true, withStrand).value|
    ensures var w, pw := CarveChrom(anns, c, L, augment).value.rows[k],
                         CalculateInterval(OnChrom(anns, c), L, augment, true, withStrand).value[j];
            w.stop <= pw.start || pw.stop < w.start
  {
    var S := OnChrom(anns, c);
    var ws := CalculateInterval(S, L, augment, false, false).value;
    var vs := Survivors(ws, L, MaxStop(S));
    var pws := CalculateInterval(S, L, augment, true, withStrand).value;
    assert vs[k] in vs;
    SurvivorsExactly(ws, L, MaxStop(S), vs[k]);
    if augment {
      AugmentAllWindows(S, L, withStrand);
      var i :| 0 <= i < |S| && Contains(pws[j], S[i]) && pws[j].chrom == S[i].chrom && Within(pws[j], Extremes(S[i], L));
      assert ws[i] == Extremes(S[i], L);
    } else {
      assert pws[j].start == ws[j].start && pws[j].stop == ws[j].stop;
    }
  }

  /** Every row of the pool is a negative row when every chromosome's
      candidates are. */
  lemma {:induction false} PoolRows(anns: seq<Ann>, L: int, carve: string -> Result<Carved>, cs: seq<string>)
    requires forall c :: c in cs && carve(c).Ok? ==>
               forall k :: 0 <= k < |carve(c).value.rows| ==> NegativeRow(anns, L, carve(c).value.rows[k])
    requires Pool(carve, cs).Ok?
    ensures var rows := Pool(carve, cs).value.rows;
            forall k :: 0 <= k < |rows| ==> NegativeRow(anns, L, rows[k])
    decreases |cs|
  {
    if cs != [] {
      var p := carve(cs[0]).value;
      PoolRows(anns, L, carve, cs[1..]);
      var rows := Pool(carve, cs).value.rows;
      var rest := Pool(carve, cs[1..]).value.rows;
      assert rows == p.rows + rest;
      forall k | 0 <= k < |rows| ensures NegativeRow(anns, L, rows[k]) {
        if k >= |p.rows| {
          assert rows[k] == rest[k - |p.rows|];
        } else {
          assert rows[k] == p.rows[k];
        }
      }
    }
  }

  /** _negative_class returns as many label rows as rows, every label row
      all zeros of the tensor's row shape, and every row a negative row
      (with its drawn strand when the table has strands); 'all' returns the
      whole pool with the drawn strands, and an integer ratio k returns k
      times the number of positive positions (augmentation) or annotations
      (otherwise), each drawn from that pool with replacement. */
  lemma NegativeClassRows(anns: seq<Ann>, L: nat, augment: bool, hasStrand: bool, ratio: Ratio, seq2seq: bool,
                          pick: nat -> nat, coin: nat -> bool)
    requires NegativeClass(anns, L, augment, hasStrand, ratio, seq2seq, pick, coin).Ok?
    ensures var x := NegativeClass(anns, L, augment, hasStrand, ratio, seq2seq, pick, coin).value;
            var p := Pool(Carver(anns, L, augment), Chroms(anns)).value;
            && |x.labels| == |x.rows|
            && (forall j :: 0 <= j < |x.labels| ==> x.labels[j] == ZeroRow(seq2seq, L, NbTypes(anns), NbLabels(anns)))
            && (forall j :: 0 <= j < |x.rows| ==> NegativeRow(anns, L, x.rows[j]))
            && (forall j :: 0 <= j < |x.rows| ==> (x.rows[j].strand.Some? <==> hasStrand))
            && (ratio == RatioAll ==> x.rows == Strands(p.rows, hasStrand, coin))
            && (ratio.RatioInt? ==> |x.rows| == NegativeCount(ratio.k, augment, p.covered, |anns|))
            && (ratio.RatioInt? ==> forall j :: 0 <= j < |x.rows| ==> x.rows[j] in Strands(p.rows, hasStrand, coin))
            && ratio != RatioOther
  {
    var carve := Carver(anns, L, augment);
    forall c | c in Chroms(anns) && carve(c).Ok?
      ensures forall k :: 0 <= k < |carve(c).value.rows| ==> NegativeRow(anns, L, carve(c).value.rows[k])
    {
      CarvedRows(anns, c, L, augment);
    }
    PoolRows(anns, L, carve, Chroms(anns));
    DrawnRows(anns, Pool(carve, Chroms(anns)).value, L, augment, hasStrand, ratio, seq2seq, pick, coin);
  }

  /** The draws keep what the pool promises: every drawn row is a pool row
      with its strand, every label row is the zero row. */
  lemma DrawnRows(anns: seq<Ann>, p: Carved, L: nat, augment: bool, hasStrand: bool, ratio: Ratio, seq2seq: bool,
                  pick: nat -> nat, coin: nat -> bool)
    requires forall k :: 0 <= k < |p.rows| ==> NegativeRow(anns, L, p.rows[k])
    requires Drawn(anns, p, L, augment, hasStrand, ratio, seq2seq, pick, coin).Ok?
    ensures var x := Drawn(anns, p, L, augment, hasStrand, ratio, seq2seq, pick, coin).value;
            && |x.labels| == |x.rows|
            && (forall j :: 0 <= j < |x.labels| ==> x.labels[j] == ZeroRow(seq2seq, L, NbTypes(anns), NbLabels(anns)))
            && (forall j :: 0 <= j < |x.rows| ==> NegativeRow(anns, L, x.rows[j]))
            && (forall j :: 0 <= j < |x.rows| ==> (x.rows[j].strand.Some? <==> hasStrand))
            && (ratio == RatioAll ==> x.rows == Strands(p.rows, hasStrand, coin))
            && (ratio.RatioInt? ==> |x.rows| == NegativeCount(ratio.k, augment, p.covered, |anns|))
            && (ratio.RatioInt? ==> forall j :: 0 <= j < |x.rows| ==> x.rows[j] in Strands(p.rows, hasStrand, coin))
            && ratio != RatioOther
  {
    var pool := Strands(p.rows, hasStrand, coin);
    forall j | 0 <= j < |pool| ensures NegativeRow(anns, L, pool[j]) {
      assert NegativeRow(anns, L, p.rows[j]);
      var i :| 0 <= i < |anns| && anns[i].chrom == p.rows[j].chrom;
    }
  }

  /** Without augmentation every positive interval is L long, so
      number_of_pos is L per annotation. */
  lemma {:induction false} CoveredCentered(ws: seq<Window>, L: int)
    requires forall k :: 0 <= k < |ws| ==> ws[k].stop - ws[k].start == L
    ensures Covered(ws) == |ws| * L
    decreases |ws|
  {
    if ws != [] {
      CoveredCentered(ws[..|ws| - 1], L);
    }
  }
}
