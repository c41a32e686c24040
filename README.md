# keras_dna datasets: a Dafny model of `sequence.py`

This project models the two dataset classes of keras_dna's `sequence.py`.
They turn genome annotations into the intervals and labels a Keras model
trains on.

- **SparseDataset** reads annotation rows (bed/gff) and merges the files,
  tagging each row with the index of its file (the cellular type). It
  replaces label names by 1-based ids and can cut every row down to its
  start or stop site. It then fixes the window length, filters
  chromosomes and builds `df`, the table of positive windows, through
  `_calculate_interval`: centered windows, every window that contains
  the annotation (data augmentation), or the annotation rows themselves
  (`seq_len='real'`). `_get_labels` computes a 0/1 label tensor per window
  (match_all, match_any or per-base seq2seq). Negatives come from the
  stretches of each chromosome that no positive window comes near
  (`negative_type='real'`), or as zero-length placeholder rows
  (`'random'`). `__getitem__` returns the rows that pybedtools accepts
  together with their label rows.
- **ContinuousDataset** takes the chromosome sizes of a BigWig file and
  filters them. It picks a stride and builds an index table with one
  block of consecutive sample indices per chromosome. `_get_interval`
  maps a sample index back to its window, and `__len__` is the total
  number of indices.

Modules:

| file | module | what it holds |
|---|---|---|
| common.dfy | `Common` | Option/Result, the errors the classes raise, the "chr" prefix helpers, floor division |
| annotations.dfy | `Annotations` | rows, `_multi_cellular_type`, `_binarize_label`, `_restrict`, `_find_maxlen`, chromosome slices and filters |
| windows.dfy | `Windowing` | `_calculate_interval` and `_get_dataframe` |
| labels.dfy | `LabelTensors` | `_get_labels` |
| negatives.dfy | `Negatives` | `_negative_class` |
| sparse.dfy | `Sparse` | class `SparseDataset`: `__init__`, `_random_negative_class`, `__getitem__`, `__len__` |
| continuous.dfy | `Continuous` | class `ContinuousDataset`: chromosome filter, stride, index table, `_get_interval`, `__getitem__`, `__len__` |

Each computation is written twice. A specification function states the
whole result (`Build`, `Dataframe`, `Labels`, `NegativeClass`,
`BuildIndex`). Where the source changes objects step by step, a class
method with loops is proved equal to that function (`Init`,
`GetDataframe`, `GetLabels`, `GetNegatives`). The lemmas then prove what
the source promises about the functions.

Where the code and the library's documentation differ, the model follows
the code:

- With `ignore_targets`, the negative rows are still appended to `df`.
  Only `labels` is skipped.
- The stretches that `_negative_class` removes are measured from the
  `_calculate_interval` windows, not from the raw annotations. A negative
  window may start one base after a positive window's stop, but not right
  at it.
- The "chr" prefix step of SparseDataset reads column `0` of a frame whose
  columns are named. It raises KeyError whenever a rename would be due and
  never renames anything.
- With no annotation file of a known suffix, the merged frame has no
  columns and `_binarize_label` fails with AttributeError before any
  other check on the table.
- With `seq_len='real'`, `df` holds the annotation rows as they are. The
  label rows are computed on their centered windows of length `length`.
- `ContinuousDataset.__getitem__` does not range-check its index.
  `idx == len` returns the window one stride past the last one. When
  every kept chromosome is at least window - 1 long, an index below 0 or
  above `len` fails with IndexError; with a shorter chromosome it need
  not (index -1 then returns a window, see
  `ShortChromosomeAnswersNegativeIndex`).

## Model

| member | source | states |
|---|---|---|
| Common.StripChr | sequence.py:619-620 | a leading "chr" is removed and nothing else; a name without it is unchanged |
| Common.AddChr | sequence.py:621-622 | "chr" + name starts with "chr" and is three longer |
| Common.StripAddChr | sequence.py:619-622 | removing the prefix undoes adding it |
| Common.FloorDiv | sequence.py:636 | Python's `//`: the quotient q with b*q <= a < b*q + b (b > 0), mirrored for b < 0 |
| Common.Sign | sequence.py:649-650 | numpy.sign: -1, 0 or 1, with the sign of its argument |
| Common.FilterCounts | sequence.py:150-153 | a boolean mask keeps every selected row as often as it occurs and drops every other row |
| Annotations.ListedCounts | sequence.py:228 | _binarize_label's mask keeps every row with a listed label as often as it occurs and no other row |
| Annotations.TagFile | sequence.py:223 | every row of one file is kept in order and tagged with the file's type |
| Annotations.TagFilesLength | sequence.py:220-225 | the merged frame holds as many rows as all files together |
| Annotations.TagFilesAt | sequence.py:220-225 | row j of file i is at Offset(i) + j of the merged frame, tagged i + 1 (nothing lost, added or reordered) |
| Annotations.TagFilesKinds | sequence.py:220-225 | every type tag names one of the files (1..number of files) |
| Annotations.MultiCellularType | sequence.py:220-225 | the appending loop builds exactly the merged frame |
| Annotations.TagFilesProper | sequence.py:121-131 | merged rows keep 0 <= start < stop and get type >= 1 |
| Annotations.IndexOf | sequence.py:231-232 | the first position of a listed name |
| Annotations.FirstIndexUnique | sequence.py:231-232 | the first position is unique |
| Annotations.PartialIdStep | sequence.py:231-232 | one replacement pass turns entries equal to names[i] into i + 1 and leaves replaced entries alone |
| Annotations.BinarizedDecodes | sequence.py:227-233 | every kept row's id is in 1..len(list) and decodes to its own label name at the name's first position; coordinates, strand and type unchanged |
| Annotations.BinarizedWellFormed | sequence.py:227-233 | the binarized table has proper rows and positive ids |
| Annotations.Restricted | sequence.py:235-258 | the table keeps its length and row i is the restriction of row i |
| Annotations.RestrictedSite | sequence.py:240-256 | a restricted row is 1 base long, inside the original, on the first base for '+' with 'start' or '-' with 'stop' and on the last base otherwise; chrom, strand, label and type are kept |
| Annotations.RestrictedWellFormed | sequence.py:235-258 | restricting keeps the table well formed |
| Annotations.MaxSpan | sequence.py:260-261 | the largest stop - start: an upper bound that some row attains |
| Annotations.Chroms | sequence.py:334 | the chromosomes of the table, each exactly once |
| Annotations.OnChrom | sequence.py:337 | a row is in the slice iff it is in the table and on chromosome c |
| Annotations.OnChromCounts | sequence.py:337 | the slice holds every row of chromosome c as often as the table does, and no other row |
| Annotations.KeepChroms | sequence.py:150-151 | a row is kept iff its chromosome is in incl_chromosomes |
| Annotations.KeepChromsCounts | sequence.py:150-151 | every row on a listed chromosome is kept as often as it occurs and every other row is dropped, so the frame has exactly as many rows as match |
| Annotations.DropChroms | sequence.py:152-153 | a row is kept iff its chromosome is not in excl_chromosomes |
| Annotations.DropChromsCounts | sequence.py:152-153 | every row on an unlisted chromosome is kept as often as it occurs and every other row is dropped |
| Annotations.FilterChroms | sequence.py:150-153 | a row survives iff it passes the include list (if given) and the exclude list (if given) |
| Annotations.FilterChromsCounts | sequence.py:150-153 | every passing row survives as often as it occurs and no other row does, so the filtered frame has exactly as many rows as pass |
| Annotations.FilterChromsWellFormed | sequence.py:150-153 | filtering keeps the table well formed |
| Annotations.OnChromWellFormed | sequence.py:404 | a chromosome's slice is well formed |
| Windowing.Centered | sequence.py:298-305 | the centered window has length L, holds a fitting annotation, and its left pad is the right pad or one more ((L - span) % 2) |
| Windowing.CenteredUnique | sequence.py:299-305 | it is the only window of length L with that padding |
| Windowing.Augmented | sequence.py:276-284 | the augmented windows start at stop - L, stop - L + 1, ..., all of length L and all containing the annotation |
| Windowing.AugmentedExactly | sequence.py:277-284 | a start occurs iff stop - L <= start <= annotation start: every containing window, and only those |
| Windowing.AugmentAllWindows | sequence.py:276-293 | every concatenated window has length L and contains, and lies within the extremes of, one of the annotations |
| Windowing.Extremes | sequence.py:295-296 | the extremes interval runs from stop - L to start + L |
| Windowing.ExtremesAreAugmentedEnds | sequence.py:276-296 | with at least one augmented window, the extremes interval starts where the first augmented window starts and stops where the last one stops |
| Windowing.AugmentedWithinExtremes | sequence.py:276-296 | every augmented window lies inside the extremes interval |
| Windowing.CalculateInterval | sequence.py:263-305 | AssertionError iff no annotation fits; ValueError iff np.repeat gets a negative count; otherwise the centered, extremes or augmented windows of the rows, in order |
| Windowing.CalculateIntervalLengths | sequence.py:263-305 | with return_all every window has length L |
| Windowing.GuardLetsOverlongThrough | sequence.py:267-268 | the `.any()` guard lets through an annotation longer than L, whose window does not hold it |
| Windowing.AugmentAllUnstranded | sequence.py:286-293 | the stranded and unstranded augmented windows are the same intervals in the same order |
| Windowing.CalculateIntervalUnstranded | sequence.py:269-305 | computing with return_strand never fails where computing without it succeeds, and gives the same intervals |
| Windowing.CalculateIntervalChrom | sequence.py:403-416 | a chromosome's windows lie on that chromosome |
| Windowing.GetDataframe | sequence.py:400-428 | the per-chromosome appending loop builds exactly Dataframe |
| Windowing.DataframeRows | sequence.py:400-428 | every df row is on a chromosome of the table and, outside 'real', has length L |
| LabelTensors.Zeros | sequence.py:435-437 | a (T, C) grid of zeros |
| LabelTensors.GridUpToNone | sequence.py:472-474 | before any row is seen the grid is all zeros |
| LabelTensors.GridSkip | sequence.py:476-495 | a row that hits nothing leaves the grid unchanged |
| LabelTensors.GridStep | sequence.py:476-495 | adding a row marks exactly its (type-1, label-1) cell when it hits, else nothing |
| LabelTensors.GridUpToPrefix | sequence.py:455-495 | the running grid over the first n rows is the grid of those rows |
| LabelTensors.LabelWindow | sequence.py:455-495 | the inner loops compute exactly WindowLabel of the window |
| LabelTensors.LabelChrom | sequence.py:439-497 | one chromosome's loop gives exactly its label rows |
| LabelTensors.GetLabels | sequence.py:430-499 | the chromosome loop gives exactly Labels |
| LabelTensors.WindowLabelShaped | sequence.py:430-499 | every label row has the tensor's row shape with 0/1 entries |
| LabelTensors.LabelsOverCons | sequence.py:439-497 | labels are the first chromosome's rows followed by the rest |
| LabelTensors.DataframeOverCons | sequence.py:403-425 | df rows are the first chromosome's rows followed by the rest |
| LabelTensors.RowsForAt | sequence.py:455-497 | row j of a chromosome's labels is the label of its window j |
| LabelTensors.ChromAlign | sequence.py:400-499 | a chromosome's df rows and label rows match in number, and row j's label is computed on row j's interval |
| LabelTensors.LabelsAlignOver | sequence.py:400-499 | across chromosomes, labels[k] is the label of df[k] against df[k]'s chromosome |
| LabelTensors.LabelsAlignDataframe | sequence.py:155-158 | the two frames __init__ builds line up row for row |
| LabelTensors.ChromShaped | sequence.py:449-497 | every row of a chromosome's labels is shaped |
| LabelTensors.LabelsShapedOver | sequence.py:430-499 | every row of the label tensor is shaped |
| LabelTensors.Seq2SeqMarksCoveredBases | sequence.py:455-469 | seq2seq marks base p for (type, label) iff an annotation of that type and label covers position start + p |
| LabelTensors.MatchAllWithinMatchAny | sequence.py:471-495 | a cell match_all marks is also marked by match_any |
| LabelTensors.MatchAnyIffSomeBase | sequence.py:449-495 | match_any marks a cell iff seq2seq marks it at some base |
| LabelTensors.LabelsCountReal | sequence.py:426-441 | with seq_len='real', labels and df still have one row per annotation |
| Negatives.Survivors | sequence.py:335-347 | the candidate starts 1..max_stop that np.delete keeps, strictly increasing |
| Negatives.SurvivorsExactly | sequence.py:342-347 | a start survives iff its window ends at or before every positive window's start or starts after its stop |
| Negatives.MaxStop | sequence.py:336 | the largest stop: an upper bound that some row attains |
| Negatives.StartsToRows | sequence.py:349-352 | one row [v, v + L) per start, on the chromosome, labelled 0/0 |
| Negatives.Strands | sequence.py:359-360 | every row gets a drawn strand iff the table has strands, nothing else changes |
| Negatives.GetNegatives | sequence.py:330-398 | the loop and draws compute exactly NegativeClass |
| Negatives.CarveAll | sequence.py:334-354 | the chromosome loop computes exactly the pool |
| Negatives.PositiveCovers | sequence.py:339 | the carved windows cover every fitting annotation |
| Negatives.CarvedRows | sequence.py:334-354 | every candidate row of a chromosome is a negative row on it, in increasing order |
| Negatives.CarvedAvoidsPositives | sequence.py:339-347 | no candidate row overlaps a positive window of df |
| Negatives.PoolRows | sequence.py:334-354 | every pooled row is a negative row |
| Negatives.NegativeClassRows | sequence.py:330-398 | as many zero label rows as rows, all negative rows with a strand iff the table has one; 'all' gives exactly the whole pool with the drawn strands; an integer k gives k times covered positions or annotations, each a row of that pool; any other ratio fails |
| Negatives.DrawnRows | sequence.py:356-398 | zero label rows, one per row; 'all' returns exactly the stranded pool, an integer ratio returns the requested count of rows, each drawn from the stranded pool (with replacement); every row keeps the pool's promises |
| Negatives.CoveredCentered | sequence.py:340 | without augmentation number_of_pos is L per annotation |
| Sparse.LengthOf | sequence.py:137-142 | 'MAXLEN'/'real' give the largest span, which some row attains, and ValueError (np.max of nothing) on an empty table; an integer is taken as is; any other seq_len gives NameError |
| Sparse.Prepare | sequence.py:114-153 | fails iff one of these holds, with the error of the first that does: AssertionError for 'real' with augmentation; AttributeError when no file is given; AssertionError (no strand) when restricting without a strand column; NameError or ValueError from self.length; IndexError on an empty table; KeyError when a rename is due. On success, the strand flag of the files, the length LengthOf gives for the binarized (and restricted) table, and that table filtered by FilterChroms, which is well formed |
| Sparse.RandomRows | sequence.py:307-317 | k * len(df) rows on df's first chromosome with start = stop = 0 and a strand iff the table has one; AttributeError on an empty df (the column-less frame left when no annotation survives the filters), ValueError for k < 0 |
| Sparse.Kept | sequence.py:184-214 | the kept positions index the request |
| Sparse.KeptExactly | sequence.py:184-214 | exactly the positions whose row pybedtools accepts, once each, in order |
| Sparse.SparseDataset.constructor | sequence.py:87-112 | the configuration is stored and the frames start empty |
| Sparse.SparseDataset.BinarizeLabel | sequence.py:227-233 | ann_df becomes Binarized; nothing else changes |
| Sparse.SparseDataset.Restrict | sequence.py:235-258 | AssertionError iff there is no strand column; otherwise ann_df becomes Restricted |
| Sparse.SparseDataset.NormaliseChroms | sequence.py:144-147 | KeyError iff a rename is due |
| Sparse.SparseDataset.FilterChromosomes | sequence.py:150-153 | ann_df becomes FilterChroms of itself; nothing else changes |
| Sparse.SparseDataset.Annotate | sequence.py:131-135 | the merged, binarized and (when predicting a site) restricted table; AttributeError when no file is given, AssertionError without a strand column |
| Sparse.SparseDataset.PrepareTable | sequence.py:114-153 | fails iff Prepare fails, with its error; otherwise holds Prepare's table |
| Sparse.SparseDataset.RandomNegativeClass | sequence.py:307-328 | fails iff RandomRows fails; otherwise df and labels get the random rows and zero label rows appended; labels stay aligned |
| Sparse.SparseDataset.AddPositives | sequence.py:155-158 | the state becomes Positives and is aligned |
| Sparse.SparseDataset.AddNegatives | sequence.py:160-170 | the state becomes WithNegatives and stays aligned |
| Sparse.SparseDataset.Init | sequence.py:87-170 | fails iff Build fails, with its error; otherwise the object holds Build's state |
| Sparse.SparseDataset.Len | sequence.py:217-218 | the number of df rows |
| Sparse.SparseDataset.GetItem | sequence.py:172-215 | IndexError iff an index is outside df; UnboundLocalError when targets are ignored; otherwise the accepted rows and their own label rows, in request order |
| Sparse.CheckFrame | sequence.py:176 | true iff every index is within -len..len-1 |
| Sparse.Gather | sequence.py:184-215 | the loop returns the rows at the kept positions and their label rows |
| Sparse.PositivesValid | sequence.py:155-158 | the positive state agrees with the table, with labels aligned to df or empty |
| Sparse.ZeroRowShaped | sequence.py:322-324 | the zero label row has the tensor's row shape |
| Sparse.WithNegativesValid | sequence.py:160-170 | the negative step keeps the old rows in front, appends only zero label rows, keeps alignment, appends negative rows ('real') or k * len(df) placeholders ('random') |
| Sparse.WithRandomNegatives | sequence.py:160-163 | the promise above for 'random' |
| Sparse.WithRealNegatives | sequence.py:165-170 | the promise above for 'real' |
| Sparse.AppendParts | sequence.py:167-170 | appending puts the new rows after the old ones |
| Sparse.BuildRows | sequence.py:87-170 | df starts with _get_dataframe's rows and labels with _get_labels' rows; each positive label row is its df row's label; every label row is shaped; labels align with df or are empty |
| Continuous.SelectChroms | sequence.py:585-599 | a chromosome is kept iff it passes the filter; incl_chromosomes wins over excl_chromosomes; without either the file's list is kept as is |
| Continuous.Count | sequence.py:633-636 | a chromosome contributes (size - window + 1) // asteps indices |
| Continuous.Counts | sequence.py:631-636 | one contribution per chromosome, in order |
| Continuous.IndexRows | sequence.py:624-646 | one row per chromosome |
| Continuous.IndexRowsShape | sequence.py:624-646 | first_index starts at 0 and follows the previous last_index; each row has its chromosome, start hw, stop size - hw + 1 - window % 2, and its contribution |
| Continuous.IndexRowsTotal | sequence.py:638 | the last last_index is the sum of the contributions |
| Continuous.MatchesIff | sequence.py:649-651 | the sign test holds iff idx lies between first_index and last_index |
| Continuous.LastMatch | sequence.py:651 | the last matching row, or none when no row matches |
| Continuous.Interval | sequence.py:648-655 | IndexError iff no row matches; otherwise a window of length window on the row's chromosome, starting (idx - first) * asteps from start - hw |
| Continuous.Ascending | sequence.py:636-639 | with non-negative contributions the blocks move forward |
| Continuous.Bounded | sequence.py:636-639 | every block lies within [0, len) |
| Continuous.Blocks | sequence.py:624-646 | chromosomes no shorter than window - 1 give a chain of blocks |
| Continuous.CountNonNegative | sequence.py:636 | such a chromosome contributes a non-negative count |
| Continuous.Covered | sequence.py:636-639 | every index of [0, len) lies in some block |
| Continuous.ChosenBlock | sequence.py:649-651 | the chosen row of an index in [0, len) is the block that holds it |
| Continuous.IntervalInRange | sequence.py:648-659 | every index in [0, len) gives a window of length window that lies inside its chromosome |
| Continuous.FitsInChromosome | sequence.py:634-655 | the d-th window of a chromosome fits in it |
| Continuous.IntervalRecovers | sequence.py:648-655 | the window gives its index back: idx = first_index + start / asteps |
| Continuous.IntervalInjective | sequence.py:648-655 | two indices in [0, len) never share a window |
| Continuous.IntervalReaches | sequence.py:634-655 | conversely, the d-th window of chromosome r (d below its contribution) is reached from index first_index + d, which lies in [0, len) and is looked up on row r |
| Continuous.BlockWindow | sequence.py:648-655 | index first_index + d of a block is looked up on that block and gives its d-th window |
| Continuous.HolderChosen | sequence.py:649-651 | the lookup picks the one block that holds the index |
| Continuous.ShortChromosomeLosesWindows | sequence.py:634-646 | as written, a chromosome shorter than window - 1 (size 1, window 4) makes len 5 instead of 7 and loses the window [0, 4) of the next chromosome |
| Continuous.Usable | sequence.py:634-646 | the chromosomes kept by the intended table are exactly those that hold a window |
| Continuous.UsableReaches | sequence.py:634-655 | on the intended table every window of every chromosome is reached from some index of [0, len) |
| Continuous.UsableInRange | sequence.py:648-659 | on the intended table every index of [0, len) gives a window of length window inside one of the chromosomes |
| Continuous.UsableWhenLongEnough | sequence.py:634-646 | without short chromosomes the intended table is the table as written |
| Continuous.BoundaryGoesToNext | sequence.py:649-651 | an index equal to a non-final last_index goes to the next chromosome |
| Continuous.IntervalOutside | sequence.py:648-651 | when every chromosome is at least window - 1 long, an index below 0 or above len fails with IndexError |
| Continuous.ShortChromosomeAnswersNegativeIndex | sequence.py:634-655 | as written, with a chromosome shorter than window - 1 the index -1 is not rejected but returns a window of the next chromosome |
| Continuous.IntervalAtLen | sequence.py:648-655 | idx == len gives the window one stride past the last chromosome's last window |
| Continuous.StrideSpacing | sequence.py:601-608 | consecutive indices of a block are one stride apart; with downsampling and no overlap the windows tile |
| Continuous.Renamed | sequence.py:619-622 | IndexError iff the frame is empty; otherwise only chromosome names change |
| Continuous.RenamedNames | sequence.py:619-622 | decided by the first name: with num_chr a leading "chr" is removed from every name; without it, "chr" is put in front of every name (and can be stripped off again); or the frame is left alone |
| Continuous.RenamedIdempotent | sequence.py:621-622 | without num_chr the step is idempotent |
| Continuous.RenamedLookup | sequence.py:619-651 | renaming does not change which row a lookup picks |
| Continuous.IntervalRenamed | sequence.py:619-659 | after renaming the lookup gives the same window under the new name |
| Continuous.BuildIndexLookup | sequence.py:585-659 | after __init__, len is the sum of contributions and every index in [0, len) gives a window inside its chromosome |
| Continuous.BuildIndexReaches | sequence.py:585-659 | after __init__, when every chromosome is at least window - 1 long, the d-th window of every kept chromosome is reached from index first_index + d of its row |
| Continuous.RenamedBlockIndex | sequence.py:619-655 | renaming keeps every reached window reachable from the same index |
| Continuous.Created | sequence.py:656-658 | OverflowError iff pybedtools rejects the window; otherwise the window |
| Continuous.Intervals | sequence.py:666 | all windows in order, or the first index's error |
| Continuous.ContinuousDataset.constructor | sequence.py:566-578 | settings stored, asteps 1, frames empty |
| Continuous.ContinuousDataset.SelectChromosomes | sequence.py:585-599 | chrom_size becomes SelectChroms |
| Continuous.ContinuousDataset.GetDataframe | sequence.py:624-646 | the loop builds exactly IndexTable, or ZeroDivisionError |
| Continuous.ContinuousDataset.NormaliseChroms | sequence.py:619-622 | df becomes Renamed, or IndexError |
| Continuous.ContinuousDataset.Init | sequence.py:554-622 | fails iff BuildIndex fails; otherwise the object holds BuildIndex's state |
| Continuous.ContinuousDataset.Len | sequence.py:675-676 | the last last_index; IndexError on an empty frame |
| Continuous.ContinuousDataset.GetInterval | sequence.py:648-659 | exactly Created for the object's table |
| Continuous.ContinuousDataset.GetItem | sequence.py:661-673 | the windows of Intervals; labels are the extractor's values iff targets are kept |

## Findings

| source | as written | input that shows it | evidently intended | confidence | as-written member | corrected member |
|---|---|---|---|---|---|---|
| sequence.py:634-646 | a chromosome shorter than window - 1 contributes (size - window + 1) // asteps < 0 indices, and np.cumsum carries the negative count into every later block | chromosome sizes [("b", 1), ("a", 10)], window 4, asteps 1: len is 5, not 7, and the windows [0, 4) and [1, 5) of "a" are never returned for an index of [0, len) | a chromosome too short for a window contributes nothing, and every window of every chromosome is reached | high, not executed | Continuous.ShortChromosomeLosesWindows | Continuous.UsableReaches |

The class `ContinuousDataset` keeps the behaviour as written. The
intended table (`UsableIndexRows`) coincides with it when every kept
chromosome is at least window - 1 long (`UsableWhenLongEnough`).

## Left out

- Parsing of bed/gff files (`utils.bed_to_df`, `utils.gff_to_df`) is not modelled. Files arrive as parsed rows with 0 <= start < stop. Files with any other suffix, which the source skips, are not represented.
- pyBigWig is not modelled. ContinuousDataset takes the file's list of chromosome sizes as its input.
- The signal extractor (`bbi_extractor`, normalization, downsampling of the values) is an opaque `extract` parameter.
- pybedtools' interval construction is a `fits` predicate. The warning printed for a dropped row is not modelled.
- np.random is replaced by the supplied streams `pick` (randint draws) and `coin` (strand draws). Their distribution is not modelled.
- The loader classes after `ContinuousDataset` are out of scope.
- pandas mechanics are not modelled: index labels, dtypes (label zeros are floats in numpy), column order, and copy-versus-view warnings.
- `__getitem__` with a scalar index is modelled as the one-element list it becomes.
- Sparse.LengthOf: an integer seq_len is a `nat`, so a negative integer seq_len is not modelled.
- Continuous.IndexRows: its own contract gives only the number of rows. The block structure is stated by IndexRowsShape and IndexRowsTotal.
- Continuous.IntervalInRange: proved for chromosomes at least window - 1 long and asteps > 0, and likewise IntervalRecovers, IntervalInjective, IntervalReaches, IntervalOutside, BuildIndexLookup and BuildIndexReaches. A shorter chromosome contributes a negative count that shifts every later block, so windows are lost (see Findings). The table and the class keep that behaviour as written; the intended table is proved correct for all chromosome sizes.
- np.delete with positions past the end follows the numpy versions this code was written for, which ignore them.
