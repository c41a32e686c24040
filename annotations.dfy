/** The annotation table of SparseDataset: parsed rows, the source-file
    ("type") tag, the label ids, the start/stop restriction, the maximal
    span and the per-chromosome slices every later step works on. */
module Annotations {
  import opened Common

  /** One row as the BED/GFF parser delivers it; `strand` is None where the
      frame has no strand value for the row (a missing column or NaN). */
  datatype Row = Row(chrom: string, start: int, stop: int, strand: Option<char>, name: string)

  /** One parsed annotation file: its rows and whether its frame has a
      strand column. */
  datatype ParsedFile = ParsedFile(rows: seq<Row>, hasStrand: bool)

  /** A row tagged with the 1-based position of its file (the 'type' column). */
  datatype Tagged = Tagged(row: Row, kind: nat)

  /** An annotation of ann_df once its label is replaced by its id:
      `labelId` is the 1-based position of the name in annotation_list and
      `kind` the 1-based position of its file. */
  datatype Ann = Ann(chrom: string, start: int, stop: int, strand: Option<char>, labelId: nat, kind: nat)

  function Span(a: Ann): int
  {
    a.stop - a.start
  }

  /** The rows of one file, each tagged with `kind`. */
  function TagFile(f: ParsedFile, kind: nat): (r: seq<Tagged>)
    ensures |r| == |f.rows|
    ensures forall j :: 0 <= j < |r| ==> r[j] == Tagged(f.rows[j], kind)
  {
    seq(|f.rows|, j requires 0 <= j < |f.rows| => Tagged(f.rows[j], kind))
  }

  /** The merged frame of _multi_cellular_type: the files' rows in file
      order, file i tagged i + 1. */
  function TagFiles(fs: seq<ParsedFile>): seq<Tagged>
    decreases |fs|
  {
    if fs == [] then [] else TagFiles(fs[..|fs| - 1]) + TagFile(fs[|fs| - 1], |fs|)
  }

  /** Number of rows in the first n files. */
  function Offset(fs: seq<ParsedFile>, n: nat): nat
    requires n <= |fs|
  {
    if n == 0 then 0 else Offset(fs, n - 1) + |fs[n - 1].rows|
  }

  /** The merged frame has a strand column when any file's frame has one. */
  predicate AnyStrand(fs: seq<ParsedFile>)
  {
    exists i :: 0 <= i < |fs| && fs[i].hasStrand
  }

  /** The merged frame holds exactly the rows of all files. */
  lemma {:induction false} TagFilesLength(fs: seq<ParsedFile>)
    ensures |TagFiles(fs)| == Offset(fs, |fs|)
    decreases |fs|
  {
    if fs != [] {
      var n := |fs| - 1;
      TagFilesLength(fs[..n]);
      OffsetPrefix(fs, n, n);
    }
  }

  /** Row j of file i sits at Offset(fs, i) + j of the merged frame, tagged
      i + 1: with TagFilesLength, the merge loses, adds and reorders
      nothing. */
  lemma {:induction false} TagFilesAt(fs: seq<ParsedFile>, i: nat, j: nat)
    requires i < |fs| && j < |fs[i].rows|
    ensures Offset(fs, i) + j < |TagFiles(fs)|
    ensures TagFiles(fs)[Offset(fs, i) + j] == Tagged(fs[i].rows[j], i + 1)
    decreases |fs|
  {
    var n := |fs| - 1;
    var init := fs[..n];
    TagFilesLength(init);
    OffsetPrefix(fs, n, n);
    if i < n {
      OffsetPrefix(fs, n, i);
      assert init[i] == fs[i];
      TagFilesAt(init, i, j);
    }
  }

  lemma {:induction false} OffsetPrefix(fs: seq<ParsedFile>, n: nat, i: nat)
    requires i <= n <= |fs|
    ensures Offset(fs[..n], i) == Offset(fs, i)
    decreases i
  {
    if i > 0 {
      OffsetPrefix(fs, n, i - 1);
    }
  }

  /** Every tag of the merged frame names one of the files. */
  lemma {:induction false} TagFilesKinds(fs: seq<ParsedFile>)
    ensures forall k :: 0 <= k < |TagFiles(fs)| ==> 1 <= TagFiles(fs)[k].kind <= |fs|
    decreases |fs|
  {
    if fs != [] {
      TagFilesKinds(fs[..|fs| - 1]);
    }
  }

  /** _multi_cellular_type: append each file's frame with its type column. */
  method MultiCellularType(fs: seq<ParsedFile>) returns (merged: seq<Tagged>)
    ensures merged == TagFiles(fs)
  {
    merged := [];
    for i := 0 to |fs|
      invariant merged == TagFiles(fs[..i])
    {
      assert fs[..i + 1][..i] == fs[..i];
      merged := merged + TagFile(fs[i], i + 1);
    }
    assert fs[..|fs|] == fs;
  }

  // ---------------------------------------------------------------- labels

  /** Position of the first occurrence of s in names. */
  function IndexOf(names: seq<string>, s: string): (r: nat)
    requires s in names
    ensures r < |names| && names[r] == s && s !in names[..r]
  {
    if names[0] == s then 0
    else
      assert names == [names[0]] + names[1..];
      var k := IndexOf(names[1..], s);
      assert names[..k + 1] == [names[0]] + names[1..][..k];
      k + 1
  }

  lemma FirstIndexUnique(names: seq<string>, s: string, r: nat)
    requires r < |names| && names[r] == s && s !in names[..r]
    ensures IndexOf(names, s) == r
  {
  }

  /** The id a label has after the replacements for names: 1 + its first
      position, or 0 (still the raw name) when it is not among them. */
  function PartialId(names: seq<string>, s: string): nat
  {
    if s in names then IndexOf(names, s) + 1 else 0
  }

  /** One step of the replacement loop of _binarize_label: entries still
      holding a name equal to names[i] become i + 1; entries already
      replaced hold an integer and never compare equal to a name again. */
  lemma PartialIdStep(names: seq<string>, i: nat, s: string)
    requires i < |names|
    ensures PartialId(names[..i + 1], s) ==
            if PartialId(names[..i], s) == 0 && s == names[i] then i + 1 else PartialId(names[..i], s)
  {
    var pre, ext := names[..i], names[..i + 1];
    assert ext == pre + [names[i]];
    if s in pre {
      var q := IndexOf(pre, s);
      assert ext[..q] == pre[..q];
      FirstIndexUnique(ext, s, q);
    } else if s == names[i] {
      assert ext[..i] == pre;
      FirstIndexUnique(ext, s, i);
    }
  }

  /** Rows of the merged frame whose label is in annotation_list. */
  function Listed(rows: seq<Tagged>, names: seq<string>): seq<Tagged>
  {
    Filter(rows, (t: Tagged) => t.row.name in names)
  }

  /** The label mask keeps every listed row as often as it occurs. */
  lemma ListedCounts(rows: seq<Tagged>, names: seq<string>)
    ensures forall t :: multiset(Listed(rows, names))[t] == if t.row.name in names then multiset(rows)[t] else 0
  {
    FilterCounts(rows, (t: Tagged) => t.row.name in names);
  }

  function ToAnn(t: Tagged, id: nat): Ann
  {
    Ann(t.row.chrom, t.row.start, t.row.stop, t.row.strand, id, t.kind)
  }

  /** _binarize_label: ann_df restricted to annotation_list, with each label
      replaced by its 1-based id. */
  function Binarized(rows: seq<Tagged>, names: seq<string>): seq<Ann>
  {
    var kept := Listed(rows, names);
    seq(|kept|, k requires 0 <= k < |kept| => ToAnn(kept[k], PartialId(names, kept[k].row.name)))
  }

  /** Every id is in 1..|names| and decodes to the row's own label name,
      at its first position in annotation_list; coordinates, strand and
      type are the row's. */
  lemma BinarizedDecodes(rows: seq<Tagged>, names: seq<string>, k: nat)
    requires k < |Binarized(rows, names)|
    ensures var a, t := Binarized(rows, names)[k], Listed(rows, names)[k];
            && 1 <= a.labelId <= |names|
            && names[a.labelId - 1] == t.row.name
            && t.row.name !in names[..a.labelId - 1]
            && a.chrom == t.row.chrom && a.start == t.row.start && a.stop == t.row.stop
            && a.strand == t.row.strand && a.kind == t.kind
  {
    var t := Listed(rows, names)[k];
    assert t in Listed(rows, names);
  }

  // ----------------------------------------------------------- restriction

  datatype Predict = PredictAll | PredictStart | PredictStop | PredictOther

  /** One row of _restrict: the 1-bp start site ('start') or stop site
      ('stop') of the annotation, read on its strand. */
  function RestrictRow(a: Ann, p: Predict): Ann
  {
    match p
    case PredictStart =>
      if a.strand == Some('+') then a.(stop := a.start + 1) else a.(start := a.stop - 1)
    case PredictStop =>
      if a.strand == Some('-') then a.(stop := a.start + 1) else a.(start := a.stop - 1)
    case _ => a
  }

  /** _restrict over the whole table, row by row. */
  function Restricted(anns: seq<Ann>, p: Predict): (r: seq<Ann>)
    ensures |r| == |anns| && forall i :: 0 <= i < |anns| ==> r[i] == RestrictRow(anns[i], p)
  {
    seq(|anns|, i requires 0 <= i < |anns| => RestrictRow(anns[i], p))
  }

  /** The kept base is the first one: 'start' on '+', 'stop' on '-'. */
  predicate SiteAtStart(a: Ann, p: Predict)
  {
    (p == PredictStart && a.strand == Some('+')) || (p == PredictStop && a.strand == Some('-'))
  }

  /** A restricted annotation is one base long, lies inside the original,
      sits on the start for '+' ('start') / '-' ('stop') and on the last
      base otherwise, and keeps chrom, strand, label and type. */
  lemma RestrictedSite(a: Ann, p: Predict)
    requires a.start < a.stop
    requires p == PredictStart || p == PredictStop
    ensures var b := RestrictRow(a, p);
            && b.stop - b.start == 1
            && a.start <= b.start && b.stop <= a.stop
            && b.chrom == a.chrom && b.strand == a.strand && b.labelId == a.labelId && b.kind == a.kind
            && (if SiteAtStart(a, p) then b.start == a.start else b.stop == a.stop)
  {
  }

  // ------------------------------------------------------------ max length

  /** _find_maxlen: the largest span in the table. */
  function MaxSpan(anns: seq<Ann>): (m: int)
    requires |anns| > 0
    ensures forall i :: 0 <= i < |anns| ==> Span(anns[i]) <= m
    ensures exists i :: 0 <= i < |anns| && Span(anns[i]) == m
    decreases |anns|
  {
    if |anns| == 1 then Span(anns[0])
    else
      var m := MaxSpan(anns[..|anns| - 1]);
      var last := Span(anns[|anns| - 1]);
      assert forall i :: 0 <= i < |anns| - 1 ==> anns[..|anns| - 1][i] == anns[i];
      if last > m then last else m
  }

  // --------------------------------------------------- chromosome slicing

  /** ann_df.chrom.unique(): the chromosomes in order of first appearance. */
  function Chroms(anns: seq<Ann>): (cs: seq<string>)
    ensures forall c :: c in cs <==> exists i :: 0 <= i < |anns| && anns[i].chrom == c
    ensures forall i, j :: 0 <= i < j < |cs| ==> cs[i] != cs[j]
    decreases |anns|
  {
    if anns == [] then []
    else
      var init := anns[..|anns| - 1];
      var cs := Chroms(init);
      assert forall i :: 0 <= i < |init| ==> init[i] == anns[i];
      if anns[|anns| - 1].chrom in cs then cs else cs + [anns[|anns| - 1].chrom]
  }

  /** ann_df[ann_df.chrom == c] */
  function OnChrom(anns: seq<Ann>, c: string): (r: seq<Ann>)
    ensures forall a :: a in r <==> a in anns && a.chrom == c
  {
    Filter(anns, (a: Ann) => a.chrom == c)
  }

  /** The chromosome mask keeps every row of c as often as it occurs. */
  lemma OnChromCounts(anns: seq<Ann>, c: string)
    ensures forall a :: multiset(OnChrom(anns, c))[a] == if a.chrom == c then multiset(anns)[a] else 0
  {
    FilterCounts(anns, (a: Ann) => a.chrom == c);
  }

  /** ann_df[ann_df.chrom.isin(names)] */
  function KeepChroms(anns: seq<Ann>, names: seq<string>): (r: seq<Ann>)
    ensures forall a :: a in r <==> a in anns && a.chrom in names
  {
    Filter(anns, (a: Ann) => a.chrom in names)
  }

  /** isin keeps every matching row as often as it occurs. */
  lemma KeepChromsCounts(anns: seq<Ann>, names: seq<string>)
    ensures forall a :: multiset(KeepChroms(anns, names))[a] == if a.chrom in names then multiset(anns)[a] else 0
  {
    FilterCounts(anns, (a: Ann) => a.chrom in names);
  }

  /** ann_df[~ann_df.chrom.isin(names)] */
  function DropChroms(anns: seq<Ann>, names: seq<string>): (r: seq<Ann>)
    ensures forall a :: a in r <==> a in anns && a.chrom !in names
  {
    Filter(anns, (a: Ann) => a.chrom !in names)
  }

  /** ~isin keeps every other row as often as it occurs. */
  lemma DropChromsCounts(anns: seq<Ann>, names: seq<string>)
    ensures forall a :: multiset(DropChroms(anns, names))[a] == if a.chrom !in names then multiset(anns)[a] else 0
  {
    FilterCounts(anns, (a: Ann) => a.chrom !in names);
  }

  /** Rows as the parser delivers them: non-empty intervals. */
  predicate Proper(anns: seq<Ann>)
  {
    forall i :: 0 <= i < |anns| ==> anns[i].start < anns[i].stop
  }

  /** Rows that every later step assumes: type and label ids are 1-based. */
  predicate IdsPositive(anns: seq<Ann>)
  {
    forall i :: 0 <= i < |anns| ==> anns[i].kind >= 1 && anns[i].labelId >= 1
  }

  /** The include list, then the exclude list (both apply when both are
      given). */
  function FilterChroms(anns: seq<Ann>, incl: Option<seq<string>>, excl: Option<seq<string>>): (r: seq<Ann>)
    ensures forall a :: a in r <==>
              a in anns && (incl.Some? ==> a.chrom in incl.value) && (excl.Some? ==> a.chrom !in excl.value)
  {
    var kept := if incl.Some? then KeepChroms(anns, incl.value) else anns;
    if excl.Some? then DropChroms(kept, excl.value) else kept
  }

  /** The filters keep every passing row as often as it occurs, so the
      filtered table has exactly as many rows as pass. */
  lemma FilterChromsCounts(anns: seq<Ann>, incl: Option<seq<string>>, excl: Option<seq<string>>)
    ensures forall a :: multiset(FilterChroms(anns, incl, excl))[a] ==
              if (incl.Some? ==> a.chrom in incl.value) && (excl.Some? ==> a.chrom !in excl.value) then multiset(anns)[a] else 0
  {
    if incl.Some? {
      KeepChromsCounts(anns, incl.value);
    }
    if excl.Some? {
      DropChromsCounts(if incl.Some? then KeepChroms(anns, incl.value) else anns, excl.value);
    }
  }

  /** What every step after _binarize_label relies on. */
  predicate WellFormed(anns: seq<Ann>)
  {
    Proper(anns) && IdsPositive(anns)
  }

  /** Rows of a file as the parser delivers them: 0 <= start < stop. */
  predicate ProperFiles(fs: seq<ParsedFile>)
  {
    forall i, j :: 0 <= i < |fs| && 0 <= j < |fs[i].rows| ==> 0 <= fs[i].rows[j].start < fs[i].rows[j].stop
  }

  lemma {:induction false} TagFilesProper(fs: seq<ParsedFile>)
    requires ProperFiles(fs)
    ensures forall k :: 0 <= k < |TagFiles(fs)| ==> TagFiles(fs)[k].row.start < TagFiles(fs)[k].row.stop && TagFiles(fs)[k].kind >= 1
    decreases |fs|
  {
    if fs != [] {
      var init := fs[..|fs| - 1];
      assert ProperFiles(init) by {
        forall i, j | 0 <= i < |init| && 0 <= j < |init[i].rows| ensures 0 <= init[i].rows[j].start < init[i].rows[j].stop {
          assert init[i] == fs[i];
        }
      }
      TagFilesProper(init);
    }
  }

  /** The table _binarize_label leaves is well formed. */
  lemma BinarizedWellFormed(fs: seq<ParsedFile>, names: seq<string>)
    requires ProperFiles(fs)
    ensures WellFormed(Binarized(TagFiles(fs), names))
  {
    var rows := TagFiles(fs);
    TagFilesProper(fs);
    var b := Binarized(rows, names);
    forall k | 0 <= k < |b| ensures b[k].start < b[k].stop && b[k].kind >= 1 && b[k].labelId >= 1 {
      var t := Listed(rows, names)[k];
      assert t in Listed(rows, names);
      BinarizedDecodes(rows, names, k);
    }
  }

  lemma RestrictedWellFormed(anns: seq<Ann>, p: Predict)
    requires WellFormed(anns)
    ensures WellFormed(Restricted(anns, p))
  {
    forall i | 0 <= i < |anns| ensures RestrictRow(anns[i], p).start < RestrictRow(anns[i], p).stop {
      if p == PredictStart || p == PredictStop {
        RestrictedSite(anns[i], p);
      }
    }
  }

  lemma FilterChromsWellFormed(anns: seq<Ann>, incl: Option<seq<string>>, excl: Option<seq<string>>)
    requires WellFormed(anns)
    ensures WellFormed(FilterChroms(anns, incl, excl))
  {
    var r := FilterChroms(anns, incl, excl);
    forall k | 0 <= k < |r| ensures r[k].start < r[k].stop && r[k].kind >= 1 && r[k].labelId >= 1 {
      assert r[k] in r;
    }
  }

  /** Every row of a chromosome's slice comes from the table. */
  lemma OnChromWellFormed(anns: seq<Ann>, c: string)
    requires WellFormed(anns)
    ensures WellFormed(OnChrom(anns, c))
  {
    var r := OnChrom(anns, c);
    forall k | 0 <= k < |r| ensures r[k].start < r[k].stop && r[k].kind >= 1 && r[k].labelId >= 1 {
      assert r[k] in r;
    }
  }
}
