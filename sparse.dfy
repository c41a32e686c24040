/** SparseDataset: the annotation table built step by step in __init__,
    the window rows (df) and label tensor it ends with, the negatives it
    appends, and __getitem__ / __len__. */
module Sparse {
  import opened Common
  import opened Annotations
  import opened Windowing
  import opened LabelTensors
  import opened Negatives

  /** seq_len: 'MAXLEN', 'real', an integer, or anything else. */
  datatype SeqLen = MaxLen | RealLen | Fixed(n: nat) | SeqLenOther

  /** negative_type: 'real', 'random', or anything else (no negatives). */
  datatype NegType = NegReal | NegRandom | NegNone

  datatype Config = Config(
    names: seq<string>,                  // annotation_list
    predict: Predict,
    seqLen: SeqLen,
    augment: bool,                       // data_augmentation
    seq2seq: bool,
    positive: Positive,                  // defined_positive
    numChr: bool,
    incl: Option<seq<string>>,           // incl_chromosomes
    excl: Option<seq<string>>,           // excl_chromosomes
    ignoreTargets: bool,
    ratio: Ratio,                        // negative_ratio
    negType: NegType)                    // negative_type

  /** The annotation table once the chromosome filters have run, whether
      its frame has a strand column, and the window length. */
  datatype Table = Table(anns: seq<Ann>, hasStrand: bool, length: nat)

  /** What __init__ leaves in the object: ann_df, the window length, df
      and labels (empty when targets are ignored). */
  datatype State = State(anns: seq<Ann>, hasStrand: bool, length: nat, df: seq<Window>, labels: seq<LabelRow>)

  // ---------------------------------------------- the steps of __init__

  /** self.length: the largest span for 'MAXLEN' and 'real' (ValueError
      from np.max on an empty table), the integer itself, or NameError. */
  function LengthOf(seqLen: SeqLen, anns: seq<Ann>): (r: Result<nat>)
    requires WellFormed(anns)
    ensures r.Ok? && (seqLen == MaxLen || seqLen == RealLen) ==>
              (forall i :: 0 <= i < |anns| ==> Span(anns[i]) <= r.value) && exists i :: 0 <= i < |anns| && Span(anns[i]) == r.value
    ensures r.Err? <==> seqLen == SeqLenOther || ((seqLen == MaxLen || seqLen == RealLen) && anns == [])
    ensures seqLen == SeqLenOther ==> r == Err(BadSeqLen)
    ensures (seqLen == MaxLen || seqLen == RealLen) && anns == [] ==> r == Err(EmptyMax)
    ensures seqLen.Fixed? ==> r == Ok(seqLen.n)
  {
    match seqLen
    case Fixed(n) => Ok(n)
    case SeqLenOther => Err(BadSeqLen)
    case _ =>
      if anns == [] then Err(EmptyMax)
      else
        var m := MaxSpan(anns);
        assert Span(anns[0]) <= m;
        Ok(m)
  }

  /** The chromosome-prefix step reads column 0 of ann_df, which the
      parsed frame does not have (its columns are named): KeyError whenever
      a rename is due, that is when num_chr and the first chromosome
      starts with "chr", or neither. */
  predicate RenameDue(numChr: bool, firstChrom: string)
  {
    numChr == HasChrPrefix(firstChrom)
  }

  /** None of the assertion and attribute errors before self.length. */
  predicate EarlyChecksPass(cfg: Config, files: seq<ParsedFile>)
  {
    !(cfg.seqLen == RealLen && cfg.augment) && files != [] && (cfg.predict == PredictAll || AnyStrand(files))
  }

  /** ann_df once _binarize_label and, unless predict is 'all', _restrict
      have run. */
  function Annotated(cfg: Config, files: seq<ParsedFile>): (anns: seq<Ann>)
    requires ProperFiles(files)
    ensures WellFormed(anns)
  {
    var binarized := Binarized(TagFiles(files), cfg.names);
    BinarizedWellFormed(files, cfg.names);
    RestrictedWellFormed(binarized, cfg.predict);
    if cfg.predict != PredictAll then Restricted(binarized, cfg.predict) else binarized
  }

  /** __init__ up to the chromosome filters. It fails, in this order, with
      AssertionError for 'real' with augmentation; AttributeError when no
      file is given (the merged frame has no label column); AssertionError
      when restricting without a strand column; NameError or ValueError
      from self.length; IndexError on an empty table; KeyError when a
      chromosome rename is due. Otherwise it gives the filtered table with
      the strand flag of the files and the length self.length takes before
      the filters. */
  function Prepare(cfg: Config, files: seq<ParsedFile>): (r: Result<Table>)
    requires ProperFiles(files)
    ensures r.Ok? ==> WellFormed(r.value.anns)
    ensures var anns := Annotated(cfg, files);
            r.Err? <==> || (cfg.seqLen == RealLen && cfg.augment)
                        || files == []
                        || (cfg.predict != PredictAll && !AnyStrand(files))
                        || LengthOf(cfg.seqLen, anns).Err?
                        || anns == []
                        || RenameDue(cfg.numChr, anns[0].chrom)
    ensures cfg.seqLen == RealLen && cfg.augment ==> r == Err(RealWithAugmentation)
    ensures !(cfg.seqLen == RealLen && cfg.augment) && files == [] ==> r == Err(NoLabelColumn)
    ensures !(cfg.seqLen == RealLen && cfg.augment) && files != [] && cfg.predict != PredictAll && !AnyStrand(files) ==> r == Err(MissingStrand)
    ensures EarlyChecksPass(cfg, files) && LengthOf(cfg.seqLen, Annotated(cfg, files)).Err? ==>
              r == Err(LengthOf(cfg.seqLen, Annotated(cfg, files)).error)
    ensures EarlyChecksPass(cfg, files) && LengthOf(cfg.seqLen, Annotated(cfg, files)).Ok? ==>
              var anns := Annotated(cfg, files);
              && (anns == [] ==> r == Err(EmptyTable))
              && (anns != [] && RenameDue(cfg.numChr, anns[0].chrom) ==> r == Err(MissingColumn))
    ensures r.Ok? ==>
              && r.value.hasStrand == AnyStrand(files)
              && LengthOf(cfg.seqLen, Annotated(cfg, files)) == Ok(r.value.length)
              && r.value.anns == FilterChroms(Annotated(cfg, files), cfg.incl, cfg.excl)
  {
    if cfg.seqLen == RealLen && cfg.augment then Err(RealWithAugmentation)
    else
      var hasStrand := AnyStrand(files);
      if files == [] then Err(NoLabelColumn)
      else if cfg.predict != PredictAll && !hasStrand then Err(MissingStrand)
      else
        var anns := Annotated(cfg, files);
        match LengthOf(cfg.seqLen, anns)
        case Err(e) => Err(e)
        case Ok(L) =>
          if anns == [] then Err(EmptyTable)
          else if RenameDue(cfg.numChr, anns[0].chrom) then Err(MissingColumn)
          else
            FilterChromsWellFormed(anns, cfg.incl, cfg.excl);
            Ok(Table(FilterChroms(anns, cfg.incl, cfg.excl), hasStrand, L))
  }

  /** df from _get_dataframe and, unless targets are ignored, labels from
      _get_labels. */
  function Positives(cfg: Config, t: Table): Result<State>
  {
    match Dataframe(t.anns, t.length, cfg.augment, cfg.seqLen == RealLen, t.hasStrand)
    case Err(e) => Err(e)
    case Ok(df) =>
      if cfg.ignoreTargets then Ok(State(t.anns, t.hasStrand, t.length, df, []))
      else
        match Labels(t.anns, ModeOf(cfg.seq2seq, cfg.positive), t.length, cfg.augment)
        case Err(e) => Err(e)
        case Ok(labels) => Ok(State(t.anns, t.hasStrand, t.length, df, labels))
  }

  /** _random_negative_class: negative_ratio times len(df) zero-length
      rows on the first chromosome of df; AttributeError on an empty df
      (the column-less frame _get_dataframe returns when no annotation is
      left) and ValueError (np.zeros) for a negative count. */
  function RandomRows(df: seq<Window>, k: int, hasStrand: bool, coin: nat -> bool): (r: Result<seq<Window>>)
    ensures r.Err? <==> df == [] || k < 0
    ensures r.Err? ==> r.error == if df == [] then NoChromColumn else NegativeSize
    ensures r.Ok? ==> |r.value| == k * |df|
    ensures r.Ok? ==> forall j :: 0 <= j < |r.value| ==>
              && r.value[j].chrom == df[0].chrom && r.value[j].start == 0 && r.value[j].stop == 0
              && r.value[j].tag == None && (r.value[j].strand.Some? <==> hasStrand)
  {
    if df == [] then Err(NoChromColumn)
    else if k < 0 then Err(NegativeSize)
    else
      var n := k * |df|;
      assert n >= 0;
      Ok(seq(n, j requires 0 <= j < n => Window(df[0].chrom, 0, 0, if hasStrand then Some(if coin(j) then '+' else '-') else None, None)))
  }

  /** The tensor's all-zero row for the table at hand. */
  function ZeroFor(cfg: Config, t: Table): LabelRow
  {
    ZeroRow(cfg.seq2seq, t.length, NbTypes(t.anns), NbLabels(t.anns))
  }

  /** Appends rows to df and, unless targets are ignored, label rows to
      labels. */
  function Append(s: State, rows: seq<Window>, labels: seq<LabelRow>, ignoreTargets: bool): State
  {
    s.(df := s.df + rows, labels := if ignoreTargets then s.labels else s.labels + labels)
  }

  /** The negative step of __init__. */
  function WithNegatives(cfg: Config, t: Table, s: State, pick: nat -> nat, coin: nat -> bool): Result<State>
  {
    match cfg.negType
    case NegNone => Ok(s)
    case NegRandom =>
      if !cfg.ratio.RatioInt? then Err(BadNegativeRatio)
      else
        (match RandomRows(s.df, cfg.ratio.k, t.hasStrand, coin)
        case Err(e) => Err(e)
        case Ok(rows) => Ok(Append(s, rows, seq(|rows|, j => ZeroFor(cfg, t)), cfg.ignoreTargets)))
    case NegReal =>
      match NegativeClass(t.anns, t.length, cfg.augment, t.hasStrand, cfg.ratio, cfg.seq2seq, pick, coin)
      case Err(e) => Err(e)
      case Ok(x) => Ok(Append(s, x.rows, x.labels, cfg.ignoreTargets))
  }

  /** SparseDataset(...): the object __init__ builds from the parsed files,
      with the draws of np.random as the supplied streams. */
  function Build(cfg: Config, files: seq<ParsedFile>, pick: nat -> nat, coin: nat -> bool): Result<State>
    requires ProperFiles(files)
  {
    match Prepare(cfg, files)
    case Err(e) => Err(e)
    case Ok(t) =>
      match Positives(cfg, t)
      case Err(e) => Err(e)
      case Ok(s) => WithNegatives(cfg, t, s, pick, coin)
  }

  /** A batch from __getitem__: the intervals that could be built and the
      label rows of the same requests. */
  datatype Batch = Batch(intervals: seq<Window>, labels: seq<LabelRow>)

  /** iloc's reading of a possibly negative index. */
  function Wrap(i: int, n: nat): int
  {
    if i < 0 then i + n else i
  }

  predicate InFrame(idx: seq<int>, n: nat)
  {
    forall j :: 0 <= j < |idx| ==> -(n as int) <= idx[j] < n
  }

  /** The positions of idx whose row pybedtools accepts, in order. */
  function Kept(df: seq<Window>, idx: seq<int>, fits: Window -> bool): (ks: seq<nat>)
    requires InFrame(idx, |df|)
    ensures forall k :: 0 <= k < |ks| ==> ks[k] < |idx|
    decreases |idx|
  {
    if idx == [] then []
    else
      var init := idx[..|idx| - 1];
      assert InFrame(init, |df|) by {
        forall j | 0 <= j < |init| ensures -(|df| as int) <= init[j] < |df| {
          assert init[j] == idx[j];
        }
      }
      Kept(df, init, fits) + if fits(df[Wrap(idx[|idx| - 1], |df|)]) then [|idx| - 1] else []
  }

  /** Kept lists exactly the positions whose row fits, each once and in
      increasing order. */
  lemma {:induction false} KeptExactly(df: seq<Window>, idx: seq<int>, fits: Window -> bool)
    requires InFrame(idx, |df|)
    ensures var ks := Kept(df, idx, fits);
            && (forall k :: 0 <= k < |ks| ==> fits(df[Wrap(idx[ks[k]], |df|)]))
            && (forall j :: 0 <= j < |idx| && fits(df[Wrap(idx[j], |df|)]) ==> j in ks)
            && (forall a, b :: 0 <= a < b < |ks| ==> ks[a] < ks[b])
    decreases |idx|
  {
    if idx != [] {
      var n := |idx|;
      var init := idx[..n - 1];
      assert InFrame(init, |df|) by {
        forall j | 0 <= j < |init| ensures -(|df| as int) <= init[j] < |df| {
          assert init[j] == idx[j];
        }
      }
      KeptExactly(df, init, fits);
      var ks0 := Kept(df, init, fits);
      var ks := Kept(df, idx, fits);
      assert ks == ks0 + if fits(df[Wrap(idx[n - 1], |df|)]) then [n - 1] else [];
      forall k | 0 <= k < |ks| ensures fits(df[Wrap(idx[ks[k]], |df|)]) {
        if k < |ks0| {
          assert ks[k] == ks0[k] && idx[ks0[k]] == init[ks0[k]];
          assert fits(df[Wrap(init[ks0[k]], |df|)]);
        } else {
          assert ks[k] == n - 1;
        }
      }
      forall j | 0 <= j < n && fits(df[Wrap(idx[j], |df|)]) ensures j in ks {
        if j < n - 1 {
          assert init[j] == idx[j];
        }
      }
    }
  }

  lemma KeptStep(df: seq<Window>, idx: seq<int>, j: nat, fits: Window -> bool)
    requires j < |idx| && InFrame(idx, |df|)
    ensures InFrame(idx[..j], |df|) && InFrame(idx[..j + 1], |df|)
    ensures Kept(df, idx[..j + 1], fits) ==
            Kept(df, idx[..j], fits) + if fits(df[Wrap(idx[j], |df|)]) then [j] else []
  {
    var a, b := idx[..j], idx[..j + 1];
    assert InFrame(b, |df|) by {
      forall i | 0 <= i < |b| ensures -(|df| as int) <= b[i] < |df| {
        assert b[i] == idx[i];
      }
    }
    assert b[..j] == a;
    assert b[j] == idx[j];
  }

  // ------------------------------------------------------------ the object

  class SparseDataset {
    const cfg: Config
    var annDf: seq<Ann>
    var hasStrand: bool
    var length: nat
    var df: seq<Window>
    var labels: seq<LabelRow>

    /** Every df row has its label row, unless targets are ignored. */
    predicate Valid()
      reads this
    {
      !cfg.ignoreTargets ==> |labels| == |df|
    }

    function Snapshot(): State
      reads this
    {
      State(annDf, hasStrand, length, df, labels)
    }

    constructor (cfg: Config)
      ensures this.cfg == cfg && df == [] && labels == [] && annDf == []
    {
      this.cfg := cfg;
      annDf := [];
      hasStrand := false;
      length := 0;
      df := [];
      labels := [];
    }

    /** _binarize_label: keep the rows whose label is listed, then replace
        each listed name by its position + 1, name after name. */
    method BinarizeLabel(rows: seq<Tagged>)
      modifies this
      ensures annDf == Binarized(rows, cfg.names)
      ensures hasStrand == old(hasStrand) && length == old(length) && df == old(df) && labels == old(labels)
    {
      var names := cfg.names;
      var kept := Listed(rows, names);
      var ids: seq<nat> := seq(|kept|, k => 0);
      for i := 0 to |names|
        invariant |ids| == |kept|
        invariant forall k :: 0 <= k < |kept| ==> ids[k] == PartialId(names[..i], kept[k].row.name)
      {
        forall k | 0 <= k < |kept| ensures PartialId(names[..i + 1], kept[k].row.name) ==
                                           if ids[k] == 0 && kept[k].row.name == names[i] then i + 1 else ids[k] {
          PartialIdStep(names, i, kept[k].row.name);
        }
        ids := seq(|kept|, k requires 0 <= k < |kept| => if ids[k] == 0 && kept[k].row.name == names[i] then i + 1 else ids[k]);
      }
      assert names[..|names|] == names;
      annDf := seq(|kept|, k requires 0 <= k < |kept| => ToAnn(kept[k], ids[k]));
    }

    /** _restrict: fails without a strand column, otherwise cuts every row
        down to its start or stop site, row by row. */
    method Restrict() returns (err: Option<Error>)
      modifies this
      ensures err.Some? <==> !hasStrand
      ensures err.Some? ==> err.value == MissingStrand && annDf == old(annDf)
      ensures err.None? ==> annDf == Restricted(old(annDf), cfg.predict)
      ensures hasStrand == old(hasStrand) && length == old(length) && df == old(df) && labels == old(labels)
    {
      if !hasStrand {
        return Some(MissingStrand);
      }
      var rows := annDf;
      for i := 0 to |rows|
        invariant |rows| == |annDf|
        invariant forall k :: 0 <= k < |rows| ==> rows[k] == if k < i then RestrictRow(annDf[k], cfg.predict) else annDf[k]
      {
        rows := rows[i := RestrictRow(rows[i], cfg.predict)];
      }
      annDf := rows;
      err := None;
    }

    /** The chromosome-prefix step: KeyError when a rename is due, nothing
        otherwise (see RenameDue). */
    method NormaliseChroms() returns (err: Option<Error>)
      requires annDf != []
      ensures err.Some? <==> RenameDue(cfg.numChr, annDf[0].chrom)
      ensures err.Some? ==> err.value == MissingColumn
    {
      if cfg.numChr && HasChrPrefix(annDf[0].chrom) {
        return Some(MissingColumn);
      }
      if !cfg.numChr && !HasChrPrefix(annDf[0].chrom) {
        return Some(MissingColumn);
      }
      err := None;
    }

    /** incl_chromosomes, then excl_chromosomes. */
    method FilterChromosomes()
      modifies this
      ensures annDf == FilterChroms(old(annDf), cfg.incl, cfg.excl)
      ensures hasStrand == old(hasStrand) && length == old(length) && df == old(df) && labels == old(labels)
    {
      if cfg.incl.Some? {
        annDf := KeepChroms(annDf, cfg.incl.value);
      }
      if cfg.excl.Some? {
        annDf := DropChroms(annDf, cfg.excl.value);
      }
    }

    /** The steps of __init__ up to the label columns: merge the files,
        binarise the labels and, when predicting a site, restrict. */
    method Annotate(files: seq<ParsedFile>) returns (err: Option<Error>)
      requires ProperFiles(files)
      modifies this
      ensures hasStrand == AnyStrand(files)
      ensures err.Some? <==> files == [] || (cfg.predict != PredictAll && !AnyStrand(files))
      ensures files == [] ==> err == Some(NoLabelColumn)
      ensures files != [] && err.Some? ==> err.value == MissingStrand
      ensures err.None? ==> annDf == Annotated(cfg, files)
      ensures length == old(length) && df == old(df) && labels == old(labels)
    {
      var merged := MultiCellularType(files);
      hasStrand := AnyStrand(files);
      if files == [] {
        return Some(NoLabelColumn);
      }
      BinarizeLabel(merged);
      if cfg.predict != PredictAll {
        err := Restrict();
      } else {
        err := None;
      }
    }

    /** The steps of __init__ up to the chromosome filters. */
    method PrepareTable(files: seq<ParsedFile>) returns (err: Option<Error>)
      requires ProperFiles(files)
      modifies this
      ensures err.Some? <==> Prepare(cfg, files).Err?
      ensures err.Some? ==> err.value == Prepare(cfg, files).error
      ensures err.None? ==> Table(annDf, hasStrand, length) == Prepare(cfg, files).value
      ensures df == old(df) && labels == old(labels)
    {
      if cfg.seqLen == RealLen && cfg.augment {
        return Some(RealWithAugmentation);
      }
      err := Annotate(files);
      if err.Some? {
        return err;
      }
      var L := LengthOf(cfg.seqLen, annDf);
      if L.Err? {
        return Some(L.error);
      }
      length := L.value;
      if annDf == [] {
        return Some(EmptyTable);
      }
      err := NormaliseChroms();
      if err.Some? {
        return err;
      }
      FilterChromosomes();
    }

    /** _random_negative_class */
    method RandomNegativeClass(k: int, coin: nat -> bool) returns (err: Option<Error>)
      requires Valid()
      modifies this
      ensures var rows := RandomRows(old(df), k, hasStrand, coin);
              var zero := ZeroFor(cfg, Table(annDf, hasStrand, length));
              && (err.Some? <==> rows.Err?)
              && (err.Some? ==> err.value == rows.error && df == old(df) && labels == old(labels))
              && (err.None? ==> Snapshot() == Append(old(Snapshot()), rows.value, seq(|rows.value|, j => zero), cfg.ignoreTargets))
      ensures Valid()
      ensures annDf == old(annDf) && hasStrand == old(hasStrand) && length == old(length)
    {
      var rows := RandomRows(df, k, hasStrand, coin);
      if rows.Err? {
        return Some(rows.error);
      }
      var zero := ZeroFor(cfg, Table(annDf, hasStrand, length));
      df := df + rows.value;
      if !cfg.ignoreTargets {
        labels := labels + seq(|rows.value|, j => zero);
      }
      err := None;
    }

    /** The positive part of __init__: df from _get_dataframe, then labels
        from _get_labels unless targets are ignored. */
    method AddPositives() returns (err: Option<Error>)
      requires WellFormed(annDf) && !(cfg.seqLen == RealLen && cfg.augment)
      modifies this
      ensures annDf == old(annDf) && hasStrand == old(hasStrand) && length == old(length)
      ensures var p := Positives(cfg, Table(annDf, hasStrand, length));
              && (err.Some? <==> p.Err?)
              && (err.Some? ==> err.value == p.error)
              && (err.None? ==> Snapshot() == p.value && Valid())
    {
      var d := GetDataframe(annDf, length, cfg.augment, cfg.seqLen == RealLen, hasStrand);
      if d.Err? {
        return Some(d.error);
      }
      if !cfg.ignoreTargets {
        var l := GetLabels(annDf, ModeOf(cfg.seq2seq, cfg.positive), length, cfg.augment);
        if l.Err? {
          return Some(l.error);
        }
        labels := l.value;
      } else {
        labels := [];
      }
      df := d.value;
      PositivesValid(cfg, Table(annDf, hasStrand, length));
      err := None;
    }

    /** The negative part of __init__, by negative_type. */
    method AddNegatives(pick: nat -> nat, coin: nat -> bool) returns (err: Option<Error>)
      requires Valid()
      modifies this
      ensures annDf == old(annDf) && hasStrand == old(hasStrand) && length == old(length)
      ensures var w := WithNegatives(cfg, Table(annDf, hasStrand, length), old(Snapshot()), pick, coin);
              && (err.Some? <==> w.Err?)
              && (err.Some? ==> err.value == w.error)
              && (err.None? ==> Snapshot() == w.value && Valid())
    {
      match cfg.negType {
        case NegNone =>
          err := None;
        case NegRandom =>
          if !cfg.ratio.RatioInt? {
            return Some(BadNegativeRatio);
          }
          err := RandomNegativeClass(cfg.ratio.k, coin);
        case NegReal =>
          var x := GetNegatives(annDf, length, cfg.augment, hasStrand, cfg.ratio, cfg.seq2seq, pick, coin);
          if x.Err? {
            return Some(x.error);
          }
          NegativeClassRows(annDf, length, cfg.augment, hasStrand, cfg.ratio, cfg.seq2seq, pick, coin);
          df := df + x.value.rows;
          if !cfg.ignoreTargets {
            labels := labels + x.value.labels;
          }
          err := None;
      }
    }

    /** __init__: every step in the order the source takes them. */
    method Init(files: seq<ParsedFile>, pick: nat -> nat, coin: nat -> bool) returns (err: Option<Error>)
      requires ProperFiles(files)
      modifies this
      ensures err.Some? <==> Build(cfg, files, pick, coin).Err?
      ensures err.Some? ==> err.value == Build(cfg, files, pick, coin).error
      ensures err.None? ==> Snapshot() == Build(cfg, files, pick, coin).value && Valid()
    {
      err := PrepareTable(files);
      if err.Some? {
        return err;
      }
      err := AddPositives();
      if err.Some? {
        return err;
      }
      err := AddNegatives(pick, coin);
    }

    /** __len__ */
    method Len() returns (n: nat)
      ensures n == |df|
    {
      n := |df|;
    }

    /** __getitem__(idx) for a list of indices: IndexError when an index is
        outside df; the rows pybedtools accepts (`fits`; the others are
        dropped with a warning); their label rows; UnboundLocalError at the
        end when targets are ignored. */
    method GetItem(idx: seq<int>, fits: Window -> bool) returns (r: Result<Batch>)
      requires Valid()
      ensures r.Err? <==> !InFrame(idx, |df|) || cfg.ignoreTargets
      ensures r.Err? ==> r.error == if !InFrame(idx, |df|) then IndexOutOfRange else UnboundIndex
      ensures r.Ok? ==>
                var ks := Kept(df, idx, fits);
                && |r.value.intervals| == |ks| == |r.value.labels|
                && forall k :: 0 <= k < |ks| ==>
                     r.value.intervals[k] == df[Wrap(idx[ks[k]], |df|)] && r.value.labels[k] == labels[Wrap(idx[ks[k]], |df|)]
    {
      var inFrame := CheckFrame(idx, |df|);
      if !inFrame {
        return Err(IndexOutOfRange);
      }
      var intervals, picked := Gather(df, labels, idx, fits, !cfg.ignoreTargets);
      if cfg.ignoreTargets {
        return Err(UnboundIndex);
      }
      r := Ok(Batch(intervals, picked));
    }
  }

  /** .iloc[idx]: whether every index lies in a frame of n rows. */
  method CheckFrame(idx: seq<int>, n: nat) returns (ok: bool)
    ensures ok == InFrame(idx, n)
  {
    for j := 0 to |idx|
      invariant InFrame(idx[..j], n)
    {
      if !(-(n as int) <= idx[j] < n) {
        return false;
      }
    }
    assert idx[..|idx|] == idx;
    ok := true;
  }

  /** The loop of __getitem__: the rows at idx that pybedtools accepts and,
      when targets are kept, their label rows. */
  method Gather(df: seq<Window>, labels: seq<LabelRow>, idx: seq<int>, fits: Window -> bool, withLabels: bool)
    returns (intervals: seq<Window>, picked: seq<LabelRow>)
    requires InFrame(idx, |df|)
    requires withLabels ==> |labels| == |df|
    ensures var ks := Kept(df, idx, fits);
            && |intervals| == |ks|
            && (forall k :: 0 <= k < |ks| ==> intervals[k] == df[Wrap(idx[ks[k]], |df|)])
            && (withLabels ==> |picked| == |ks| && forall k :: 0 <= k < |ks| ==> picked[k] == labels[Wrap(idx[ks[k]], |df|)])
  {
    var n := |df|;
    intervals, picked := [], [];
    ghost var ks: seq<nat> := [];
    for j := 0 to |idx|
      invariant ks == Kept(df, idx[..j], fits)
      invariant |intervals| == |ks| && forall k :: 0 <= k < |ks| ==> ks[k] < j && intervals[k] == df[Wrap(idx[ks[k]], n)]
      invariant withLabels ==> |picked| == |ks| && forall k :: 0 <= k < |ks| ==> picked[k] == labels[Wrap(idx[ks[k]], n)]
    {
      KeptStep(df, idx, j, fits);
      var row := df[Wrap(idx[j], n)];
      if fits(row) {
        intervals := intervals + [row];
        if withLabels {
          picked := picked + [labels[Wrap(idx[j], n)]];
        }
        ks := ks + [j];
      }
    }
    assert idx[..|idx|] == idx;
  }

  /** The positive df and labels line up row for row. */
  lemma PositivesValid(cfg: Config, t: Table)
    requires !(cfg.seqLen == RealLen && cfg.augment)
    requires Positives(cfg, t).Ok?
    ensures Positioned(cfg, t, Positives(cfg, t).value)
  {
    if !cfg.ignoreTargets {
      var mode := ModeOf(cfg.seq2seq, cfg.positive);
      if cfg.seqLen == RealLen {
        LabelsCountReal(t.anns, Chroms(t.anns), mode, t.length, NbTypes(t.anns), NbLabels(t.anns), t.hasStrand);
      } else {
        LabelsAlignDataframe(t.anns, mode, t.length, cfg.augment, t.hasStrand);
      }
    }
  }

  /** The all-zero row has the tensor's row shape. */
  lemma ZeroRowShaped(seq2seq: bool, positive: Positive, L: nat, T: nat, C: nat)
    ensures Shaped(ZeroRow(seq2seq, L, T, C), ModeOf(seq2seq, positive), L, T, C)
  {
    var z := Zeros(T, C);
    assert BinaryGrid(z, T, C) by {
      forall t | 0 <= t < T ensures |z[t]| == C && forall c :: 0 <= c < C ==> z[t][c] == 0 || z[t][c] == 1 {
        assert z[t] == ZeroRow(false, 0, T, C).grid[t];
      }
    }
  }

  /** What the negative step promises of the state s' it leaves after s:
      df and labels stay row-aligned, the old rows stay in front, every
      appended label row is the zero row, nothing but df and labels changes,
      and the appended rows are what each negative_type writes. */
  predicate NegativesAppended(cfg: Config, t: Table, s: State, s': State)
  {
    && s'.anns == t.anns && s'.hasStrand == t.hasStrand && s'.length == t.length
    && |s'.df| >= |s.df| && s'.df[..|s.df|] == s.df
    && (cfg.ignoreTargets ==> s'.labels == [])
    && (!cfg.ignoreTargets ==>
          && |s'.labels| == |s'.df| && |s'.labels| >= |s.labels| && s'.labels[..|s.labels|] == s.labels
          && forall k :: |s.labels| <= k < |s'.labels| ==> s'.labels[k] == ZeroFor(cfg, t))
    && (cfg.negType == NegNone ==> s' == s)
    && (cfg.negType == NegReal ==> forall k :: |s.df| <= k < |s'.df| ==> NegativeRow(t.anns, t.length, s'.df[k]))
    && (cfg.negType == NegRandom ==>
          cfg.ratio.RatioInt? && |s'.df| == |s.df| * (cfg.ratio.k + 1) &&
          forall k :: |s.df| <= k < |s'.df| ==> s'.df[k].chrom == s.df[0].chrom && s'.df[k].start == s'.df[k].stop == 0)
  }

  /** The state the positive step leaves: it agrees with the table, and its
      labels are row-aligned with df, or empty when targets are ignored. */
  predicate Positioned(cfg: Config, t: Table, s: State)
  {
    && s.anns == t.anns && s.hasStrand == t.hasStrand && s.length == t.length
    && (!cfg.ignoreTargets ==> |s.labels| == |s.df|)
    && (cfg.ignoreTargets ==> s.labels == [])
  }

  /** The negative step keeps its promise for every negative_type. */
  lemma WithNegativesValid(cfg: Config, t: Table, s: State, pick: nat -> nat, coin: nat -> bool)
    requires Positioned(cfg, t, s)
    requires WithNegatives(cfg, t, s, pick, coin).Ok?
    ensures NegativesAppended(cfg, t, s, WithNegatives(cfg, t, s, pick, coin).value)
  {
    match cfg.negType
    case NegNone =>
    case NegRandom => WithRandomNegatives(cfg, t, s, pick, coin);
    case NegReal => WithRealNegatives(cfg, t, s, pick, coin);
  }

  /** WithNegativesValid for negative_type='random'. */
  lemma WithRandomNegatives(cfg: Config, t: Table, s: State, pick: nat -> nat, coin: nat -> bool)
    requires cfg.negType == NegRandom && Positioned(cfg, t, s)
    requires WithNegatives(cfg, t, s, pick, coin).Ok?
    ensures NegativesAppended(cfg, t, s, WithNegatives(cfg, t, s, pick, coin).value)
  {
    var rows := RandomRows(s.df, cfg.ratio.k, t.hasStrand, coin).value;
    AppendParts(s, rows, seq(|rows|, j => ZeroFor(cfg, t)), cfg.ignoreTargets);
    assert |s.df| + cfg.ratio.k * |s.df| == |s.df| * (cfg.ratio.k + 1);
  }

  /** WithNegativesValid for negative_type='real'. */
  lemma WithRealNegatives(cfg: Config, t: Table, s: State, pick: nat -> nat, coin: nat -> bool)
    requires cfg.negType == NegReal && Positioned(cfg, t, s)
    requires WithNegatives(cfg, t, s, pick, coin).Ok?
    ensures NegativesAppended(cfg, t, s, WithNegatives(cfg, t, s, pick, coin).value)
  {
    NegativeClassRows(t.anns, t.length, cfg.augment, t.hasStrand, cfg.ratio, cfg.seq2seq, pick, coin);
    var x := NegativeClass(t.anns, t.length, cfg.augment, t.hasStrand, cfg.ratio, cfg.seq2seq, pick, coin).value;
    AppendParts(s, x.rows, x.labels, cfg.ignoreTargets);
  }

  /** Append keeps the old rows in front and puts the new ones after them. */
  lemma AppendParts(s: State, rows: seq<Window>, labels: seq<LabelRow>, ignoreTargets: bool)
    ensures var s' := Append(s, rows, labels, ignoreTargets);
            && s'.anns == s.anns && s'.hasStrand == s.hasStrand && s'.length == s.length
            && |s'.df| == |s.df| + |rows| && s'.df[..|s.df|] == s.df
            && (forall k :: |s.df| <= k < |s'.df| ==> s'.df[k] == rows[k - |s.df|])
            && (ignoreTargets ==> s'.labels == s.labels)
            && (!ignoreTargets ==>
                  && |s'.labels| == |s.labels| + |labels| && s'.labels[..|s.labels|] == s.labels
                  && forall k :: |s.labels| <= k < |s'.labels| ==> s'.labels[k] == labels[k - |s.labels|])
  {
    var s' := Append(s, rows, labels, ignoreTargets);
    assert s'.df == s.df + rows;
  }

  /** What SparseDataset(...) holds once built: df starts with the rows of
      _get_dataframe and labels with the rows of _get_labels; each positive
      label row (seq_len other than 'real') is the label of its df row;
      every label row has the tensor's shape; the two stay row-aligned, and
      labels is empty when targets are ignored. */
  lemma {:induction false} BuildRows(cfg: Config, files: seq<ParsedFile>, pick: nat -> nat, coin: nat -> bool)
    requires ProperFiles(files)
    requires Build(cfg, files, pick, coin).Ok?
    ensures var t := Prepare(cfg, files).value;
            var p := Positives(cfg, t).value;
            var s := Build(cfg, files, pick, coin).value;
            var mode := ModeOf(cfg.seq2seq, cfg.positive);
            var T, C := NbTypes(t.anns), NbLabels(t.anns);
            && Prepare(cfg, files).Ok? && Positives(cfg, t).Ok?
            && p.df == Dataframe(t.anns, t.length, cfg.augment, cfg.seqLen == RealLen, t.hasStrand).value
            && |s.df| >= |p.df| && s.df[..|p.df|] == p.df
            && (cfg.ignoreTargets ==> s.labels == [])
            && (!cfg.ignoreTargets ==>
                  && |s.labels| == |s.df|
                  && s.labels[..|p.df|] == p.labels
                  && (forall k :: 0 <= k < |s.labels| ==> Shaped(s.labels[k], mode, t.length, T, C))
                  && (cfg.seqLen != RealLen ==>
                        forall k :: 0 <= k < |p.df| ==>
                          Ok(s.labels[k]) == WindowLabel(OnChrom(t.anns, p.df[k].chrom), Unstranded(p.df[k]), mode, t.length, T, C)))
  {
    var t := Prepare(cfg, files).value;
    var p := Positives(cfg, t).value;
    var s := Build(cfg, files, pick, coin).value;
    var mode := ModeOf(cfg.seq2seq, cfg.positive);
    var T, C := NbTypes(t.anns), NbLabels(t.anns);
    PositivesValid(cfg, t);
    WithNegativesValid(cfg, t, p, pick, coin);
    if !cfg.ignoreTargets {
      if cfg.seqLen != RealLen {
        LabelsAlignDataframe(t.anns, mode, t.length, cfg.augment, t.hasStrand);
        forall k | 0 <= k < |p.df|
          ensures Ok(s.labels[k]) == WindowLabel(OnChrom(t.anns, p.df[k].chrom), Unstranded(p.df[k]), mode, t.length, T, C)
        {
          assert s.labels[k] == s.labels[..|p.labels|][k] == p.labels[k];
        }
      }
      LabelsShapedOver(t.anns, Chroms(t.anns), mode, t.length, T, C, cfg.augment);
      ZeroRowShaped(cfg.seq2seq, cfg.positive, t.length, T, C);
      forall k | 0 <= k < |s.labels| ensures Shaped(s.labels[k], mode, t.length, T, C) {
        if k < |p.labels| {
          assert s.labels[k] == s.labels[..|p.labels|][k] == p.labels[k];
        }
      }
    }
  }
}
