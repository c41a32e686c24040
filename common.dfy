/** Shared vocabulary of the model: optional values, results carrying the
    errors the datasets raise, and the chromosome-name prefix helpers. */
module Common {

  datatype Option<T> = None | Some(value: T)

  /** The failures the two datasets can raise while they are built or read.
      Each constructor names the Python exception it stands for. */
  datatype Error =
    | RealWithAugmentation   // AssertionError: seq_len='real' with data_augmentation
    | BadSeqLen              // NameError: seq_len neither 'MAXLEN', 'real' nor an int
    | NoLabelColumn          // AttributeError: .label of the column-less frame no file gives
    | EmptyMax               // ValueError: np.max of an empty array
    | EmptyTable             // IndexError: .iloc[0] or [-1] of an empty frame
    | NoChromColumn          // AttributeError: .chrom of the column-less frame _get_dataframe returns when no row is left
    | MissingStrand          // AssertionError: _restrict without a strand column
    | MissingColumn          // KeyError: column 0 of a frame whose columns are named
    | NoWindowFits           // AssertionError: no annotation fits in the window
    | NegativeRepeat         // ValueError: np.repeat with a negative count
    | NegativeSize           // ValueError: np.zeros or np.random.randint with a negative size
    | LabelIndexOutOfRange   // IndexError: type-1 or label-1 beyond the tensor's axis
    | UndefinedPositive      // UnboundLocalError: labels_ never assigned
    | BadNegativeRatio       // NameError / AssertionError on negative_ratio
    | EmptyNegativePool      // ValueError: np.random.randint(0, 0, n) with n > 0
    | IndexOutOfRange        // IndexError: .iloc with an index outside the frame
    | UnboundIndex           // UnboundLocalError: 'index' read when ignore_targets
    | NoChromosomeRow        // IndexError: np.where(...)[0][-1] on an empty match
    | ZeroStride             // ZeroDivisionError: integer division by asteps == 0
    | IntervalOverflow       // OverflowError: pybedtools cannot hold the interval

  datatype Result<T> = Ok(value: T) | Err(error: Error)

  /** Puts `prefix` in front of a successful result; keeps an error. */
  function Prepend<T>(prefix: seq<T>, r: Result<seq<T>>): (p: Result<seq<T>>)
    ensures r.Err? <==> p.Err?
    ensures r.Err? ==> p.error == r.error
    ensures r.Ok? ==> p.value == prefix + r.value
  {
    match r
    case Err(e) => Err(e)
    case Ok(v) => Ok(prefix + v)
  }

  lemma PrependNothing<T>(r: Result<seq<T>>)
    ensures Prepend([], r) == r
  {
    if r.Ok? {
      assert [] + r.value == r.value;
    }
  }

  /** Prepending twice is prepending the concatenation. */
  lemma PrependTwice<T>(a: seq<T>, b: seq<T>, r: Result<seq<T>>)
    ensures Prepend(a, Prepend(b, r)) == Prepend(a + b, r)
  {
    if r.Ok? {
      assert a + (b + r.value) == (a + b) + r.value;
    }
  }

  /** str.startswith("chr") */
  predicate HasChrPrefix(s: string)
  {
    |s| >= 3 && s[..3] == "chr"
  }

  /** str.replace("^chr", "") with the regular-expression reading pandas
      gives it: only a leading "chr" is removed. */
  function StripChr(s: string): (r: string)
    ensures HasChrPrefix(s) ==> "chr" + r == s
    ensures !HasChrPrefix(s) ==> r == s
  {
    if HasChrPrefix(s) then s[3..] else s
  }

  /** "chr" + name */
  function AddChr(s: string): (r: string)
    ensures HasChrPrefix(r) && |r| == |s| + 3
  {
    "chr" + s
  }

  /** Stripping undoes adding. */
  lemma StripAddChr(s: string)
    ensures StripChr(AddChr(s)) == s
  {
    assert AddChr(s)[3..] == s;
  }

  /** numpy.sign on integers. */
  function Sign(x: int): (r: int)
    ensures r == -1 || r == 0 || r == 1
    ensures (r < 0 <==> x < 0) && (r == 0 <==> x == 0)
  {
    if x < 0 then -1 else if x == 0 then 0 else 1
  }

  /** Generic order-preserving filter (a boolean-mask selection of rows). */
  function Filter<T(!new)>(s: seq<T>, keep: T -> bool): (r: seq<T>)
    ensures |r| <= |s|
    ensures forall x :: x in r <==> x in s && keep(x)
    decreases |s|
  {
    if s == [] then []
    else Filter(s[..|s| - 1], keep) + (if keep(s[|s| - 1]) then [s[|s| - 1]] else [])
  }

  /** A mask that keeps everything changes nothing. */
  lemma {:induction false} FilterKeepsAll<T(!new)>(s: seq<T>, keep: T -> bool)
    requires forall i :: 0 <= i < |s| ==> keep(s[i])
    ensures Filter(s, keep) == s
    decreases |s|
  {
    if s != [] {
      var init, last := s[..|s| - 1], s[|s| - 1];
      assert forall i :: 0 <= i < |init| ==> keep(init[i]) by {
        forall i | 0 <= i < |init| ensures keep(init[i]) {
          assert init[i] == s[i];
        }
      }
      FilterKeepsAll(init, keep);
      assert keep(last);
      assert init + [last] == s;
    }
  }

  /** A boolean mask keeps every kept element as often as it occurs, and
      drops every other one. */
  lemma {:induction false} FilterCounts<T(!new)>(s: seq<T>, keep: T -> bool)
    ensures forall x :: multiset(Filter(s, keep))[x] == if keep(x) then multiset(s)[x] else 0
    decreases |s|
  {
    if s != [] {
      var init, last := s[..|s| - 1], s[|s| - 1];
      assert s == init + [last];
      FilterCounts(init, keep);
    }
  }

  /** Python's integer floor division `a // b` (Dafny's `/` is Euclidean,
      which differs for a negative divisor). */
  function FloorDiv(a: int, b: int): (q: int)
    requires b != 0
    ensures b > 0 ==> b * q <= a < b * q + b
    ensures b < 0 ==> b * q >= a > b * q + b
  {
    if b > 0 then a / b else (-a) / (-b)
  }

  /** Sum of a sequence of integers. */
  function Sum(s: seq<int>): int
    decreases |s|
  {
    if s == [] then 0 else Sum(s[..|s| - 1]) + s[|s| - 1]
  }

  /** Two row-aligned pairs of sequences stay aligned when concatenated. */
  lemma AlignedConcat<A, B>(xs: seq<A>, ys: seq<A>, us: seq<B>, vs: seq<B>, f: A -> Result<B>)
    requires |us| == |xs| && |vs| == |ys|
    requires forall k :: 0 <= k < |xs| ==> Ok(us[k]) == f(xs[k])
    requires forall k :: 0 <= k < |ys| ==> Ok(vs[k]) == f(ys[k])
    ensures forall k :: 0 <= k < |xs + ys| ==> Ok((us + vs)[k]) == f((xs + ys)[k])
  {
    forall k | 0 <= k < |xs + ys| ensures Ok((us + vs)[k]) == f((xs + ys)[k]) {
      if k >= |xs| {
        assert (us + vs)[k] == vs[k - |xs|] && (xs + ys)[k] == ys[k - |xs|];
      }
    }
  }

  /** A property of every element survives concatenation. */
  lemma AllConcat<T>(xs: seq<T>, ys: seq<T>, p: T -> bool)
    requires forall k :: 0 <= k < |xs| ==> p(xs[k])
    requires forall k :: 0 <= k < |ys| ==> p(ys[k])
    ensures forall k :: 0 <= k < |xs + ys| ==> p((xs + ys)[k])
  {
    forall k | 0 <= k < |xs + ys| ensures p((xs + ys)[k]) {
      if k >= |xs| {
        assert (xs + ys)[k] == ys[k - |xs|];
      }
    }
  }
}
