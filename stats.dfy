/**
 * The argument-normalisation helpers of the sensitivity-analysis module
 * (qsdsan/stats.py): `_update_input`, `_update_nan`, `_update_df_names`,
 * the `kind` checks of `get_correlations` and `plot_sobol_results`, and the
 * sample-batch arithmetic and convergence test of `morris_till_convergence`.
 * Strings follow Python's semantics for ASCII text.
 */
module Stats {
  import opened Wrappers

  datatype Error =
    | InvalidNanPolicy(policy: string)
    | NanInInputs
    | InvalidCorrelationKind(kind: string)
    | InvalidPlotKind(kind: string)
    | InvalidDiagonal(diagonal: string)

  // ---------------------------------------------------------------------
  // Python string methods on ASCII text
  // ---------------------------------------------------------------------

  function UpperChar(c: char): char
  {
    if 'a' <= c <= 'z' then (c as int - 'a' as int + 'A' as int) as char else c
  }

  function LowerChar(c: char): char
  {
    if 'A' <= c <= 'Z' then (c as int - 'A' as int + 'a' as int) as char else c
  }

  /** `str.upper()` */
  function Upper(s: string): (r: string)
    ensures |r| == |s|
    ensures forall i :: 0 <= i < |s| ==> r[i] == UpperChar(s[i])
  {
    if s == [] then [] else [UpperChar(s[0])] + Upper(s[1..])
  }

  /** `str.lower()` */
  function Lower(s: string): (r: string)
    ensures |r| == |s|
    ensures forall i :: 0 <= i < |s| ==> r[i] == LowerChar(s[i])
  {
    if s == [] then [] else [LowerChar(s[0])] + Lower(s[1..])
  }

  /** `str.capitalize()`: the first character upper-cased, the rest lower-cased. */
  function Capitalize(s: string): string
  {
    if s == [] then [] else [UpperChar(s[0])] + Lower(s[1..])
  }

  /** `set(s)` */
  function CharSet(s: string): set<char>
  {
    set c | c in s
  }

  /** `s.replace(pat, '')`: occurrences are removed left to right without overlap; an empty pattern leaves `s` as it is. */
  function RemoveAll(s: string, pat: string): string
    decreases |s|
  {
    if pat == [] || |s| < |pat| then s
    else if s[..|pat|] == pat then RemoveAll(s[|pat|..], pat)
    else [s[0]] + RemoveAll(s[1..], pat)
  }

  /** `s.split(sep)` for a non-empty separator. */
  function Split(s: string, sep: string): (pieces: seq<string>)
    requires sep != []
    ensures |pieces| >= 1
    decreases |s|
  {
    if |s| < |sep| then [s]
    else if s[..|sep|] == sep then [[]] + Split(s[|sep|..], sep)
    else
      var rest := Split(s[1..], sep);
      [[s[0]] + rest[0]] + rest[1..]
  }

  /** `''.join(pieces)` */
  function Concat(pieces: seq<string>): string
  {
    if pieces == [] then [] else pieces[0] + Concat(pieces[1..])
  }

  /** `sep` starts at index `i` of `s`. */
  predicate OccursAt(s: string, sep: string, i: nat)
  {
    i + |sep| <= |s| && s[i..i + |sep|] == sep
  }

  /** `sep in s` */
  predicate Occurs(s: string, sep: string)
  {
    exists i: nat :: i <= |s| && OccursAt(s, sep, i)
  }

  lemma {:induction false} LowerOfUpper(s: string)
    ensures Lower(Upper(s)) == Lower(s)
  {
    if s != [] {
      LowerOfUpper(s[1..]);
    }
  }

  lemma {:induction false} LowerIdempotent(s: string)
    ensures Lower(Lower(s)) == Lower(s)
  {
    if s != [] {
      LowerIdempotent(s[1..]);
    }
  }

  lemma {:induction false} UpperOfLower(s: string)
    ensures Upper(Lower(s)) == Upper(s)
  {
    if s != [] {
      UpperOfLower(s[1..]);
    }
  }

  /** Upper-casing twice is upper-casing once. */
  lemma UpperIdempotent(s: string)
    ensures Upper(Upper(s)) == Upper(s)
  {
    assert forall i :: 0 <= i < |s| ==> UpperChar(UpperChar(s[i])) == UpperChar(s[i]);
  }

  /** Capitalising twice is capitalising once: `get_correlations` re-capitalises `kind` in every loop iteration harmlessly. */
  lemma CapitalizeIdempotent(s: string)
    ensures Capitalize(Capitalize(s)) == Capitalize(s)
  {
    if s != [] {
      LowerIdempotent(s[1..]);
    }
  }

  /** Capitalising only changes case. */
  lemma CapitalizeKeepsLetters(s: string)
    ensures Lower(Capitalize(s)) == Lower(s)
    ensures Capitalize(Lower(s)) == Capitalize(s)
    ensures Upper(Capitalize(s)) == Upper(s)
  {
    if s != [] {
      LowerIdempotent(s[1..]);
      UpperOfLower(s[1..]);
      assert Lower(s[1..]) == Lower(s)[1..];
    }
  }

  /** `str.upper()` changes nothing in a text without lower-case letters. */
  lemma {:induction false} UpperIdentity(s: string)
    requires forall c :: c in s ==> !('a' <= c <= 'z')
    ensures Upper(s) == s
  {
    if s != [] {
      assert forall c :: c in s[1..] ==> c in s;
      UpperIdentity(s[1..]);
      assert s[0] in s;
      assert s == [s[0]] + s[1..];
    }
  }

  lemma {:induction false} ConcatCons(head: string, rest: seq<string>)
    ensures Concat([head] + rest) == head + Concat(rest)
  {
    assert ([head] + rest)[0] == head;
    assert ([head] + rest)[1..] == rest;
  }

  /** `''.join(s.split(sep))` equals `s.replace(sep, '')`: the two ways the source strips `'S2'` agree. */
  lemma {:induction false} JoinOfSplitIsRemoveAll(s: string, sep: string)
    requires sep != []
    ensures Concat(Split(s, sep)) == RemoveAll(s, sep)
    decreases |s|
  {
    if |s| < |sep| {
      assert Concat([s]) == s + Concat([]);
    } else if s[..|sep|] == sep {
      JoinOfSplitIsRemoveAll(s[|sep|..], sep);
      ConcatCons([], Split(s[|sep|..], sep));
    } else {
      var rest := Split(s[1..], sep);
      JoinOfSplitIsRemoveAll(s[1..], sep);
      ConcatCons([s[0]] + rest[0], rest[1..]);
      ConcatCons(rest[0], rest[1..]);
      assert rest == [rest[0]] + rest[1..];
    }
  }

  /** Removing a pattern never introduces characters. */
  lemma {:induction false} RemoveAllChars(s: string, pat: string)
    ensures CharSet(RemoveAll(s, pat)) <= CharSet(s)
    ensures |RemoveAll(s, pat)| <= |s|
    decreases |s|
  {
    if pat == [] || |s| < |pat| {
    } else if s[..|pat|] == pat {
      RemoveAllChars(s[|pat|..], pat);
      assert forall c :: c in s[|pat|..] ==> c in s;
    } else {
      RemoveAllChars(s[1..], pat);
      var r := RemoveAll(s[1..], pat);
      forall c | c in CharSet([s[0]] + r)
        ensures c in CharSet(s)
      {
        assert c in [s[0]] + r;
        if c != s[0] {
          assert c in CharSet(r);
          assert c in s[1..];
        }
      }
    }
  }

  /** An occurrence in `s` is at its start or in its tail. */
  lemma OccursSplit(s: string, sep: string)
    requires s != []
    ensures Occurs(s, sep) <==> OccursAt(s, sep, 0) || Occurs(s[1..], sep)
  {
    if Occurs(s, sep) {
      var i: nat :| i <= |s| && OccursAt(s, sep, i);
      if i > 0 {
        assert s[1..][i - 1..i - 1 + |sep|] == s[i..i + |sep|];
        assert OccursAt(s[1..], sep, i - 1);
      }
    }
    if Occurs(s[1..], sep) {
      var i: nat :| i <= |s[1..]| && OccursAt(s[1..], sep, i);
      assert s[i + 1..i + 1 + |sep|] == s[1..][i..i + |sep|];
      assert OccursAt(s, sep, i + 1);
    }
  }

  /** The first piece of `s.split(sep)` is the prefix of `s` before the first `sep`. */
  lemma {:induction false} SplitHead(s: string, sep: string)
    requires sep != []
    ensures Split(s, sep)[0] <= s
    ensures !Occurs(Split(s, sep)[0], sep)
    ensures !Occurs(s, sep) ==> Split(s, sep) == [s]
    ensures Occurs(s, sep) ==> OccursAt(s, sep, |Split(s, sep)[0]|)
    ensures forall i: nat :: i < |Split(s, sep)[0]| ==> !OccursAt(s, sep, i)
    decreases |s|
  {
    if |s| < |sep| {
    } else if s[..|sep|] == sep {
      assert Occurs(s, sep) by { assert OccursAt(s, sep, 0); }
    } else {
      var rest := Split(s[1..], sep);
      SplitHead(s[1..], sep);
      var h := [s[0]] + rest[0];
      assert h <= s;
      assert h[1..] == rest[0];
      assert !OccursAt(h, sep, 0) by {
        if |sep| <= |h| {
          assert h[..|sep|] == s[..|sep|];
        }
      }
      OccursSplit(h, sep);
      OccursSplit(s, sep);
      if !Occurs(s, sep) {
        assert rest == [s[1..]];
        assert [s[0]] + s[1..] == s;
      } else {
        assert !OccursAt(s, sep, 0);
        OccursAtShift(s, sep, |h|);
      }
      forall i: nat | i < |h|
        ensures !OccursAt(s, sep, i)
      {
        if i > 0 {
          OccursAtShift(s, sep, i);
        }
      }
    }
  }

  /** An occurrence past the first character is an occurrence in the tail, one place earlier. */
  lemma OccursAtShift(s: string, sep: string, i: nat)
    requires s != [] && i >= 1
    ensures OccursAt(s, sep, i) <==> OccursAt(s[1..], sep, i - 1)
  {
    if i + |sep| <= |s| {
      var t := s[1..];
      assert t[i - 1..] == s[i..];
      assert t[i - 1..i - 1 + |sep|] == t[i - 1..][..|sep|];
      assert s[i..i + |sep|] == s[i..][..|sep|];
    }
  }

  // ---------------------------------------------------------------------
  // _update_input
  // ---------------------------------------------------------------------

  /** The kinds of argument `_update_input` tells apart. */
  datatype PyValue =
    | NoneValue
    | Str(s: string)
    | Sized(items: seq<PyValue>)   // a list, tuple, array or index: iterable, with a length
    | Unsized(id: nat)             // an iterable without `len()`, such as a generator
    | Scalar(x: real)              // a number or any other non-iterable object

  /**
   * `_update_input(input_val, default_val)`: `None` and empty inputs give the
   * default, a string or a non-iterable is wrapped in a 1-tuple, and so is an
   * iterable without a length (`len` raises and the bare `except` wraps it).
   */
  function UpdateInput(input: PyValue, default: PyValue): (r: PyValue)
    ensures r == default || r == input || r == Sized([input])
    ensures r == default <== input.NoneValue? || input == Str([]) || input == Sized([])
    ensures input.Sized? && input.items != [] ==> r == input
    ensures (input.Str? && input.s != []) || input.Unsized? || input.Scalar? ==> r == Sized([input])
  {
    match input
    case NoneValue => default
    case Str(s) => if s == [] then default else Sized([input])
    case Sized(items) => if items == [] then default else input
    case Unsized(_) => Sized([input])
    case Scalar(_) => Sized([input])
  }

  predicate NonEmptySized(v: PyValue)
  {
    v.Sized? && |v.items| > 0
  }

  /** Given a non-empty default, the normalised value is always a non-empty collection, so callers can index it. */
  lemma UpdateInputNonEmpty(input: PyValue, default: PyValue)
    requires NonEmptySized(default)
    ensures NonEmptySized(UpdateInput(input, default))
  {
  }

  /** Normalising twice is normalising once. */
  lemma UpdateInputIdempotent(input: PyValue, default: PyValue)
    requires NonEmptySized(default)
    ensures UpdateInput(UpdateInput(input, default), default) == UpdateInput(input, default)
  {
  }

  // ---------------------------------------------------------------------
  // _update_nan
  // ---------------------------------------------------------------------

  datatype Cell = Num(x: real) | NaN

  predicate HasNaN(row: seq<Cell>)
  {
    NaN in row
  }

  /** `DataFrame.dropna()`: the rows without a NaN, in order. */
  function DropNa(rows: seq<seq<Cell>>): (r: seq<seq<Cell>>)
    ensures |r| <= |rows|
    ensures forall i :: 0 <= i < |r| ==> !HasNaN(r[i])
    ensures forall row :: row in r ==> row in rows
    ensures forall row :: row in rows && !HasNaN(row) ==> row in r
  {
    if rows == [] then []
    else if HasNaN(rows[0]) then DropNa(rows[1..])
    else [rows[0]] + DropNa(rows[1..])
  }

  /** `dropna` keeps the row order: the rows kept from a + b are those kept from a, then those kept from b. */
  lemma {:induction false} DropNaAppend(a: seq<seq<Cell>>, b: seq<seq<Cell>>)
    ensures DropNa(a + b) == DropNa(a) + DropNa(b)
  {
    if a == [] {
      assert a + b == b;
    } else {
      assert (a + b)[0] == a[0];
      assert (a + b)[1..] == a[1..] + b;
      DropNaAppend(a[1..], b);
    }
  }

  /** `dropna` keeps every NaN-free row as often as it occurs, and no row with a NaN. */
  lemma {:induction false} DropNaMultiplicity(rows: seq<seq<Cell>>)
    ensures forall row :: !HasNaN(row) ==> multiset(DropNa(rows))[row] == multiset(rows)[row]
    ensures forall row :: HasNaN(row) ==> multiset(DropNa(rows))[row] == 0
  {
    if rows != [] {
      DropNaMultiplicity(rows[1..]);
      assert rows == [rows[0]] + rows[1..];
    }
  }

  /** A frame without NaN is left as it is, so dropping twice is dropping once. */
  lemma {:induction false} DropNaIdentity(rows: seq<seq<Cell>>)
    requires forall i :: 0 <= i < |rows| ==> !HasNaN(rows[i])
    ensures DropNa(rows) == rows
  {
    if rows != [] {
      DropNaIdentity(rows[1..]);
    }
  }

  /** The policies `_update_nan` accepts with its default `legit`, as `get_correlations` calls it. */
  const NanPolicies: seq<string> := ["propagate", "raise", "omit"]

  /** The `legit` that `morris_analysis` and `sobol_analysis` pass. */
  const AnalysisNanPolicies: seq<string> := ["propagate", "raise", "fill_mean"]

  /** The sum of a sequence of numbers. */
  function Sum(xs: seq<real>): real
  {
    if xs == [] then 0.0 else xs[0] + Sum(xs[1..])
  }

  /** The numbers in column `j` of the rows that reach that column, in row order. */
  function ColumnNumbers(rows: seq<seq<Cell>>, j: nat): (r: seq<real>)
    ensures |r| <= |rows|
  {
    if rows == [] then []
    else (if j < |rows[0]| && rows[0][j].Num? then [rows[0][j].x] else []) + ColumnNumbers(rows[1..], j)
  }

  /**
   * `df.dropna().mean()` for column `j`: the mean of that column over the
   * NaN-free rows, or NaN when no such row reaches the column.
   */
  function ColumnMean(df: seq<seq<Cell>>, j: nat): Cell
  {
    var xs := ColumnNumbers(DropNa(df), j);
    if xs == [] then NaN else Num(Sum(xs) / |xs| as real)
  }

  /** `df.fillna(df.dropna().mean())`: every NaN becomes the mean of its column; numbers stay. */
  function FillMean(df: seq<seq<Cell>>): (r: seq<seq<Cell>>)
    ensures |r| == |df|
    ensures forall i :: 0 <= i < |df| ==> |r[i]| == |df[i]|
  {
    seq(|df|, i requires 0 <= i < |df| =>
      seq(|df[i]|, j requires 0 <= j < |df[i]| => if df[i][j].NaN? then ColumnMean(df, j) else df[i][j]))
  }

  /** Filling keeps every number where it was and fills each NaN with its column's mean. */
  lemma FillMeanCells(df: seq<seq<Cell>>, i: nat, j: nat)
    requires i < |df| && j < |df[i]|
    ensures df[i][j].Num? ==> FillMean(df)[i][j] == df[i][j]
    ensures df[i][j].NaN? ==> FillMean(df)[i][j] == ColumnMean(df, j)
  {
  }

  /** A frame without NaN is left as it is. */
  lemma FillMeanIdentity(df: seq<seq<Cell>>)
    requires forall i :: 0 <= i < |df| ==> !HasNaN(df[i])
    ensures FillMean(df) == df
  {
    forall i | 0 <= i < |df|
      ensures FillMean(df)[i] == df[i]
    {
      assert forall j :: 0 <= j < |df[i]| ==> df[i][j].Num?;
    }
  }

  /** A NaN-free row that reaches column `j` gives that column a number. */
  lemma {:induction false} ColumnNumbersNonEmpty(rows: seq<seq<Cell>>, j: nat, k: nat)
    requires k < |rows| && j < |rows[k]| && rows[k][j].Num?
    ensures ColumnNumbers(rows, j) != []
  {
    if k > 0 && !(j < |rows[0]| && rows[0][j].Num?) {
      ColumnNumbersNonEmpty(rows[1..], j, k - 1);
    }
  }

  /** A column with a number in some NaN-free row has a numeric mean. */
  lemma ColumnMeanIsNumber(df: seq<seq<Cell>>, j: nat, row: seq<Cell>)
    requires row in df && !HasNaN(row) && j < |row|
    ensures ColumnMean(df, j).Num?
  {
    var clean := DropNa(df);
    var k :| 0 <= k < |clean| && clean[k] == row;
    assert row[j].Num?;
    ColumnNumbersNonEmpty(clean, j, k);
  }

  /** When some NaN-free row is at least as wide as every row, filling leaves no NaN. */
  lemma FillMeanNaNFree(df: seq<seq<Cell>>, row: seq<Cell>)
    requires row in df && !HasNaN(row)
    requires forall i :: 0 <= i < |df| ==> |df[i]| <= |row|
    ensures forall i :: 0 <= i < |df| ==> !HasNaN(FillMean(df)[i])
  {
    forall i, j | 0 <= i < |df| && 0 <= j < |df[i]| && df[i][j].NaN?
      ensures FillMean(df)[i][j].Num?
    {
      ColumnMeanIsNumber(df, j, row);
    }
  }

  lemma {:induction false} SumBounds(xs: seq<real>, lo: real, hi: real)
    requires forall k :: 0 <= k < |xs| ==> lo <= xs[k] <= hi
    ensures |xs| as real * lo <= Sum(xs) <= |xs| as real * hi
  {
    if xs != [] {
      SumBounds(xs[1..], lo, hi);
      assert |xs| as real * lo == lo + |xs[1..]| as real * lo;
      assert |xs| as real * hi == hi + |xs[1..]| as real * hi;
    }
  }

  /** A filled value is a mean: it lies within any bounds of the column's numbers it averages. */
  lemma ColumnMeanBetween(df: seq<seq<Cell>>, j: nat, lo: real, hi: real)
    requires forall k :: 0 <= k < |ColumnNumbers(DropNa(df), j)| ==> lo <= ColumnNumbers(DropNa(df), j)[k] <= hi
    requires ColumnMean(df, j).Num?
    ensures lo <= ColumnMean(df, j).x <= hi
  {
    var xs := ColumnNumbers(DropNa(df), j);
    var n := |xs| as real;
    SumBounds(xs, lo, hi);
    DivBetween(Sum(xs), n, lo, hi);
  }

  lemma DivBetween(s: real, n: real, lo: real, hi: real)
    requires n > 0.0 && n * lo <= s <= n * hi
    ensures lo <= s / n <= hi
  {
    var q := s / n;
    assert q * n == s;
    if q < lo {
      MulLess(q, lo, n);
    }
    if q > hi {
      MulLess(hi, q, n);
    }
  }

  lemma MulLess(a: real, b: real, n: real)
    requires a < b && n > 0.0
    ensures a * n < b * n
  {
  }

  datatype NanOutcome = PropagateNaN | Rows(rows: seq<seq<Cell>>)

  /**
   * `_update_nan(df, nan_policy, legit)`: a policy outside `legit` raises;
   * otherwise 'propagate' gives the string 'nan' (`PropagateNaN`), 'raise'
   * raises, 'omit' drops the rows with a NaN, 'fill_mean' fills each NaN with
   * its column's mean, and any other policy in `legit` returns the frame.
   */
  function UpdateNan(df: seq<seq<Cell>>, policy: string, legit: seq<string>): (r: Result<NanOutcome, Error>)
    ensures r == Err(InvalidNanPolicy(policy)) <==> policy !in legit
    ensures r == Err(NanInInputs) <==> policy in legit && policy == "raise"
    ensures r.Ok? <==> policy in legit && policy != "raise"
    ensures policy in legit && policy == "propagate" ==> r == Ok(PropagateNaN)
    ensures policy in legit && policy == "omit" ==> r == Ok(Rows(DropNa(df)))
    ensures policy in legit && policy == "fill_mean" ==> r == Ok(Rows(FillMean(df)))
    ensures policy in legit && policy !in ["propagate", "raise", "omit", "fill_mean"] ==> r == Ok(Rows(df))
  {
    if policy !in legit then Err(InvalidNanPolicy(policy))
    else if policy == "propagate" then Ok(PropagateNaN)
    else if policy == "raise" then Err(NanInInputs)
    else if policy == "omit" then Ok(Rows(DropNa(df)))
    else if policy == "fill_mean" then Ok(Rows(FillMean(df)))
    else Ok(Rows(df))
  }

  /** With the default `legit`, 'omit' drops the NaN rows and 'fill_mean' is refused. */
  lemma UpdateNanDefault(df: seq<seq<Cell>>, policy: string)
    ensures UpdateNan(df, policy, NanPolicies).Ok? <==> policy == "propagate" || policy == "omit"
    ensures policy == "omit" ==> UpdateNan(df, policy, NanPolicies) == Ok(Rows(DropNa(df)))
    ensures policy == "fill_mean" ==> UpdateNan(df, policy, NanPolicies) == Err(InvalidNanPolicy("fill_mean"))
    ensures UpdateNan(df, policy, NanPolicies).Ok? && UpdateNan(df, policy, NanPolicies).value.Rows? ==>
      forall i :: 0 <= i < |UpdateNan(df, policy, NanPolicies).value.rows| ==>
        !HasNaN(UpdateNan(df, policy, NanPolicies).value.rows[i])
  {
  }

  /** With the analyses' `legit`, 'omit' is refused and 'fill_mean' fills the NaN cells. */
  lemma UpdateNanAnalysis(df: seq<seq<Cell>>, policy: string)
    ensures UpdateNan(df, policy, AnalysisNanPolicies).Ok? <==> policy == "propagate" || policy == "fill_mean"
    ensures policy == "omit" ==> UpdateNan(df, policy, AnalysisNanPolicies) == Err(InvalidNanPolicy("omit"))
    ensures policy == "fill_mean" ==> UpdateNan(df, policy, AnalysisNanPolicies) == Ok(Rows(FillMean(df)))
  {
  }

  // ---------------------------------------------------------------------
  // get_correlations: the `kind` dispatch
  // ---------------------------------------------------------------------

  datatype CorrelationKind = Pearson | Spearman | Kendall | KS

  /** `kind.capitalize()` compared with the three named tests, then `kind.upper() == 'KS'`. */
  function ParseCorrelationKind(kind: string): Result<CorrelationKind, Error>
  {
    var k := Capitalize(kind);
    if k == "Pearson" then Ok(Pearson)
    else if k == "Spearman" then Ok(Spearman)
    else if k == "Kendall" then Ok(Kendall)
    else if Upper(k) == "KS" then Ok(KS)
    else Err(InvalidCorrelationKind(k))
  }

  /** The case tables of the four correlation kinds. */
  lemma PearsonSpelling()
    ensures Lower("Pearson") == "pearson"
    ensures Capitalize("pearson") == "Pearson"
  {
  }

  lemma PearsonName(kind: string)
    ensures Capitalize(kind) == "Pearson" <==> Lower(kind) == "pearson"
  {
    PearsonSpelling();
    CapitalizeMatches(kind, "Pearson");
  }

  lemma SpearmanSpelling()
    ensures Lower("Spearman") == "spearman"
    ensures Capitalize("spearman") == "Spearman"
  {
  }

  lemma SpearmanName(kind: string)
    ensures Capitalize(kind) == "Spearman" <==> Lower(kind) == "spearman"
  {
    SpearmanSpelling();
    CapitalizeMatches(kind, "Spearman");
  }

  lemma KendallSpelling()
    ensures Lower("Kendall") == "kendall"
    ensures Capitalize("kendall") == "Kendall"
  {
  }

  lemma KendallName(kind: string)
    ensures Capitalize(kind) == "Kendall" <==> Lower(kind) == "kendall"
  {
    KendallSpelling();
    CapitalizeMatches(kind, "Kendall");
  }

  lemma KsName(kind: string)
    ensures Upper(Capitalize(kind)) == "KS" <==> Lower(kind) == "ks"
  {
    assert Lower("KS") == "ks" && Upper("ks") == "KS";
    CapitalizeKeepsLetters(kind);
    UpperMatches(Capitalize(kind), "KS");
  }

  /** A capitalised name is matched by every spelling of it that differs only in case. */
  lemma CapitalizeMatches(kind: string, name: string)
    requires Capitalize(Lower(name)) == name
    ensures Capitalize(kind) == name <==> Lower(kind) == Lower(name)
  {
    CapitalizeKeepsLetters(kind);
    CapitalizeKeepsLetters(name);
  }

  /** An upper-case name is matched by every spelling of it that differs only in case. */
  lemma UpperMatches(kind: string, name: string)
    requires Upper(Lower(name)) == name
    ensures Upper(kind) == name <==> Lower(kind) == Lower(name)
  {
    LowerOfUpper(kind);
    UpperOfLower(kind);
    LowerOfUpper(name);
  }

  /** A correlation kind is accepted exactly when it spells one of the four tests in any letter case. */
  lemma CorrelationKindAccepted(kind: string)
    ensures ParseCorrelationKind(kind).Ok? <==> Lower(kind) in ["pearson", "spearman", "kendall", "ks"]
  {
    PearsonName(kind);
    SpearmanName(kind);
    KendallName(kind);
    KsName(kind);
  }

  /** Letter case does not matter to the correlation kind. */
  lemma CorrelationKindIgnoresCase(kind: string)
    ensures ParseCorrelationKind(kind) == ParseCorrelationKind(Lower(kind))
  {
    CapitalizeKeepsLetters(kind);
  }

  /** What one (x, y) cell of `get_correlations` hands to scipy. */
  datatype CellOutcome = NaNPair | Statistic(kind: CorrelationKind, data: seq<seq<Cell>>)

  /**
   * One (x, y) pair of the loop in `get_correlations`: the NaN policy applies
   * only when the pair holds a NaN, a propagated NaN gives (nan, nan) before
   * `kind` is looked at, and otherwise the test given by `kind` runs on the
   * remaining rows.
   */
  function CorrelationCell(kind: string, pair: seq<seq<Cell>>, policy: string): Result<CellOutcome, Error>
  {
    var hasNaN := exists i :: 0 <= i < |pair| && HasNaN(pair[i]);
    var df := if hasNaN then UpdateNan(pair, policy, NanPolicies) else Ok(Rows(pair));
    match df
    case Err(e) => Err(e)
    case Ok(PropagateNaN) => Ok(NaNPair)
    case Ok(Rows(rows)) =>
      match ParseCorrelationKind(kind)
      case Err(e) => Err(e)
      case Ok(k) => Ok(Statistic(k, rows))
  }

  /** scipy never receives a NaN, and an invalid kind is only reported for a pair that reaches a test. */
  lemma CorrelationInputsNaNFree(kind: string, pair: seq<seq<Cell>>, policy: string)
    ensures CorrelationCell(kind, pair, policy).Ok? && CorrelationCell(kind, pair, policy).value.Statistic? ==>
      forall i :: 0 <= i < |CorrelationCell(kind, pair, policy).value.data| ==> !HasNaN(CorrelationCell(kind, pair, policy).value.data[i])
    ensures policy == "propagate" && (exists i :: 0 <= i < |pair| && HasNaN(pair[i])) ==> CorrelationCell(kind, pair, policy) == Ok(NaNPair)
  {
  }

  // ---------------------------------------------------------------------
  // _update_df_names
  // ---------------------------------------------------------------------

  /** A row or column label: a plain string, a tuple of strings (a MultiIndex entry), or anything else. */
  datatype Label = Text(s: string) | Tuple(parts: seq<string>) | OtherLabel

  /** `label[-1]`, or None where it raises (empty string or tuple, or a label that cannot be indexed or split). */
  function LastElement(l: Label): Option<string>
  {
    match l
    case Text(s) => if s == [] then None else Some([s[|s| - 1]])
    case Tuple(parts) => if parts == [] then None else Some(parts[|parts| - 1])
    case OtherLabel => None
  }

  const UnitSeparator: string := " ["

  /** Every label renamed with `i[-1].split(' [')[0]`, or None when one of them raises. */
  function RenameLabels(labels: seq<Label>): (r: Option<seq<Label>>)
    ensures r.Some? ==> |r.value| == |labels|
    ensures r.Some? <==> forall i :: 0 <= i < |labels| ==> LastElement(labels[i]).Some?
    ensures r.Some? ==> forall i :: 0 <= i < |labels| ==>
      r.value[i] == Text(Split(LastElement(labels[i]).value, UnitSeparator)[0])
  {
    if labels == [] then Some([])
    else
      var head := LastElement(labels[0]);
      var rest := RenameLabels(labels[1..]);
      if head.None? || rest.None? then None
      else Some([Text(Split(head.value, UnitSeparator)[0])] + rest.value)
  }

  /** The labels of a data frame; its values are not touched by `_update_df_names`. */
  datatype LabelledFrame = LabelledFrame(columns: seq<Label>, index: seq<Label>)

  /** `_update_df_names(df, columns, index)`: a copy whose labels are renamed; a renaming that raises leaves those labels as they were. */
  function UpdateDfNames(df: LabelledFrame, columns: bool, index: bool): LabelledFrame
  {
    var cols := if columns && df.columns != [] && RenameLabels(df.columns).Some? then RenameLabels(df.columns).value else df.columns;
    var idx := if index && df.index != [] && RenameLabels(df.index).Some? then RenameLabels(df.index).value else df.index;
    LabelledFrame(cols, idx)
  }

  /**
   * A renamed tuple label is the part of its last element before the first
   * `' ['`: a prefix free of `' ['` that ends where the first `' ['` starts,
   * and the whole element when it has no unit.
   */
  lemma RenamedTupleLabel(df: LabelledFrame, i: nat)
    requires i < |df.columns| && df.columns[i].Tuple? && |df.columns[i].parts| > 0
    requires forall j :: 0 <= j < |df.columns| ==> LastElement(df.columns[j]).Some?
    ensures UpdateDfNames(df, true, false).index == df.index
    ensures UpdateDfNames(df, true, false).columns[i].Text?
    ensures var last := df.columns[i].parts[|df.columns[i].parts| - 1];
      var name := UpdateDfNames(df, true, false).columns[i].s;
      && name <= last && !Occurs(name, UnitSeparator)
      && (!Occurs(last, UnitSeparator) ==> name == last)
      && (Occurs(last, UnitSeparator) ==> OccursAt(last, UnitSeparator, |name|))
  {
    var last := df.columns[i].parts[|df.columns[i].parts| - 1];
    SplitHead(last, UnitSeparator);
  }

  /**
   * Renaming is not idempotent: renaming the renamed labels again keeps only the
   * last character of each name, since a name is a string and `name[-1]` is its
   * last character.
   */
  lemma RenameTwiceTakesLastChar(labels: seq<Label>)
    requires RenameLabels(labels).Some?
    requires forall i :: 0 <= i < |labels| ==> RenameLabels(labels).value[i].s != []
    ensures var once := RenameLabels(labels).value;
      && RenameLabels(once).Some?
      && forall i :: 0 <= i < |labels| ==> RenameLabels(once).value[i] == Text([once[i].s[|once[i].s| - 1]])
  {
    var once := RenameLabels(labels).value;
    forall i | 0 <= i < |once|
      ensures LastElement(once[i]) == Some([once[i].s[|once[i].s| - 1]])
      ensures Split(LastElement(once[i]).value, UnitSeparator) == [[once[i].s[|once[i].s| - 1]]]
    {
    }
  }

  // ---------------------------------------------------------------------
  // plot_sobol_results: `kind` and `plot_in_diagonal`
  // ---------------------------------------------------------------------

  /** `set('STS1S2')` */
  const SobolChars: set<char> := {'S', 'T', '1', '2'}

  /** `kind.upper()`; 'ALL' or every one of S, T, 1, 2 becomes 'STS1S2'; any other character raises. */
  function NormalizeSobolKind(kind: string): (r: Result<string, Error>)
    ensures r.Err? <==> Upper(kind) != "ALL" && !(CharSet(Upper(kind)) <= SobolChars)
    ensures r.Err? ==> r == Err(InvalidPlotKind(Upper(kind)))
    ensures r.Ok? ==> CharSet(r.value) <= SobolChars
    ensures Upper(kind) == "ALL" || CharSet(Upper(kind)) == SobolChars ==> r == Ok("STS1S2")
    ensures r.Ok? && Upper(kind) != "ALL" && CharSet(Upper(kind)) != SobolChars ==> r == Ok(Upper(kind))
  {
    var k := Upper(kind);
    if k == "ALL" || CharSet(k) == SobolChars then Ok("STS1S2")
    else if CharSet(k) + SobolChars != SobolChars then Err(InvalidPlotKind(k))
    else Ok(k)
  }

  /** A normalised kind normalises to itself. */
  lemma NormalizeSobolKindIdempotent(kind: string)
    requires NormalizeSobolKind(kind).Ok?
    ensures NormalizeSobolKind(NormalizeSobolKind(kind).value) == NormalizeSobolKind(kind)
  {
    var v := NormalizeSobolKind(kind).value;
    assert forall c :: c in v ==> c in CharSet(v);
    UpperIdentity(v);
  }

  /** Which figure `plot_sobol_results` draws. */
  datatype SobolFigure =
    | BarOnly(kind: string)
    | HeatmapOnly
    | HeatmapWithDiagonal(diagonal: string)
    | BarAndHeatmap(bar: string, diagonal: string, warned: bool)

  /**
   * The dispatch of `plot_sobol_results` on the normalised kind `k`: bar plots
   * for kinds without 'S2', a heat map for 'S2', and otherwise `not_s2`
   * (the kind with every 'S2' removed) decides between a heat map with
   * `plot_in_diagonal` on its diagonal and a bar plot of
   * `not_s2.replace(plot_in_diagonal, '')` beside a heat map.
   */
  function SobolDispatch(k: string, plotInDiagonal: string): Result<SobolFigure, Error>
  {
    if k in ["ST", "S1", "STS1", "S1ST"] then Ok(BarOnly(k))
    else if k == "S2" then Ok(HeatmapOnly)
    else
      var notS2 := RemoveAll(k, "S2");
      var diagonal := Upper(plotInDiagonal);
      if notS2 != [] && notS2 == diagonal then Ok(HeatmapWithDiagonal(diagonal))
      else
        var warned := notS2 != "STS1";
        var diagonal' := if warned then [] else diagonal;
        if diagonal' != [] && Upper(diagonal') !in ["ST", "S1"] then Err(InvalidDiagonal(diagonal'))
        else Ok(BarAndHeatmap(RemoveAll(notS2, diagonal'), diagonal', warned))
  }

  /** `plot_sobol_results`' choice of figure: the kind is normalised, then dispatched on. */
  function SobolPlot(kind: string, plotInDiagonal: string): Result<SobolFigure, Error>
  {
    match NormalizeSobolKind(kind)
    case Err(e) => Err(e)
    case Ok(k) => SobolDispatch(k, plotInDiagonal)
  }

  /** The bar plot beside a heat map only shows S, T, 1 and 2 effects, and a kept diagonal is 'ST' or 'S1'. */
  lemma SobolBarAndHeatmap(kind: string, plotInDiagonal: string)
    requires SobolPlot(kind, plotInDiagonal).Ok? && SobolPlot(kind, plotInDiagonal).value.BarAndHeatmap?
    ensures var f := SobolPlot(kind, plotInDiagonal).value;
      CharSet(f.bar) <= SobolChars && (f.diagonal == [] || f.diagonal in ["ST", "S1"]) && (f.warned ==> f.diagonal == [])
  {
    DispatchBarAndHeatmap(NormalizeSobolKind(kind).value, plotInDiagonal);
  }

  lemma DispatchBarAndHeatmap(k: string, plotInDiagonal: string)
    requires CharSet(k) <= SobolChars
    requires SobolDispatch(k, plotInDiagonal).Ok? && SobolDispatch(k, plotInDiagonal).value.BarAndHeatmap?
    ensures var f := SobolDispatch(k, plotInDiagonal).value;
      CharSet(f.bar) <= SobolChars && (f.diagonal == [] || f.diagonal in ["ST", "S1"]) && (f.warned ==> f.diagonal == [])
  {
    var notS2 := RemoveAll(k, "S2");
    RemoveAllChars(k, "S2");
    var f := SobolDispatch(k, plotInDiagonal).value;
    RemoveAllChars(notS2, f.diagonal);
    UpperIdempotent(plotInDiagonal);
  }

  lemma RemoveS2Examples()
    ensures RemoveAll("STS1S2", "S2") == "STS1"
    ensures RemoveAll("STS2", "S2") == "ST"
  {
    assert "S2"[..2] == "S2";
    assert RemoveAll("S2", "S2") == [];
    assert "1S2"[..2] != "S2" by { assert "1S2"[0] != 'S'; }
    assert "1S2"[1..] == "S2";
    assert RemoveAll("1S2", "S2") == "1";
    assert "S1S2"[..2] != "S2" by { assert "S1S2"[1] != '2'; }
    assert "S1S2"[1..] == "1S2";
    assert "TS1S2"[..2] != "S2" by { assert "TS1S2"[0] != 'S'; }
    assert "TS1S2"[1..] == "S1S2";
    assert "STS1S2"[..2] != "S2" by { assert "STS1S2"[1] != '2'; }
    assert "STS1S2"[1..] == "TS1S2";
    assert "TS2"[..2] != "S2" by { assert "TS2"[0] != 'S'; }
    assert "TS2"[1..] == "S2";
    assert "STS2"[..2] != "S2" by { assert "STS2"[1] != '2'; }
    assert "STS2"[1..] == "TS2";
  }

  lemma RemoveDiagonalExamples()
    ensures RemoveAll("STS1", "ST") == "S1"
    ensures RemoveAll("STS1", "S1") == "ST"
  {
    assert "STS1"[..2] == "ST";
    assert "STS1"[2..] == "S1";
    assert "S1"[..2] != "ST" by { assert "S1"[1] != 'T'; }
    assert RemoveAll("1", "ST") == "1";
    assert "S1"[1..] == "1";
    assert "S1"[..2] == "S1";
    assert "STS1"[..2] != "S1" by { assert "STS1"[1] != '1'; }
    assert "STS1"[1..] == "TS1";
    assert "TS1"[..2] != "S1" by { assert "TS1"[0] != 'S'; }
    assert "TS1"[1..] == "S1";
  }

  /** Every spelling of 'all' asks for every index, and the part without 'S2' is 'STS1'. */
  lemma SobolAllNormalizes(kind: string)
    requires Lower(kind) == "all"
    ensures NormalizeSobolKind(kind) == Ok("STS1S2")
    ensures RemoveAll("STS1S2", "S2") == "STS1"
  {
    UpperOfLower(kind);
    assert Upper("all") == "ALL";
    RemoveS2Examples();
  }

  /** Every index without a diagonal: total and first-order bars beside the second-order heat map, no warning. */
  lemma SobolFullWithoutDiagonal(kind: string)
    requires NormalizeSobolKind(kind) == Ok("STS1S2")
    ensures SobolPlot(kind, "") == Ok(BarAndHeatmap("STS1", "", false))
  {
    RemoveS2Examples();
  }

  /** Every index with 'ST' or 'S1' (in any case) on the diagonal: the other one is the bar, with no warning. */
  lemma SobolFullWithDiagonal(kind: string, plotInDiagonal: string)
    requires NormalizeSobolKind(kind) == Ok("STS1S2")
    requires Upper(plotInDiagonal) in ["ST", "S1"]
    ensures var d := Upper(plotInDiagonal);
      SobolPlot(kind, plotInDiagonal) == Ok(BarAndHeatmap(if d == "ST" then "S1" else "ST", d, false))
  {
    DispatchFullWithDiagonal(Upper(plotInDiagonal), plotInDiagonal);
  }

  lemma DispatchFullWithDiagonal(d: string, plotInDiagonal: string)
    requires d == Upper(plotInDiagonal) && d in ["ST", "S1"]
    ensures SobolDispatch("STS1S2", plotInDiagonal) == Ok(BarAndHeatmap(if d == "ST" then "S1" else "ST", d, false))
  {
    RemoveS2Examples();
    UpperIdempotent(plotInDiagonal);
    DispatchUnwarned("STS1S2", plotInDiagonal);
    RemoveDiagonalExamples();
  }

  /** A kind whose part without 'S2' is 'STS1' keeps an accepted diagonal and removes it from the bar, with no warning. */
  lemma DispatchUnwarned(k: string, plotInDiagonal: string)
    requires k !in ["ST", "S1", "STS1", "S1ST"] && k != "S2"
    requires RemoveAll(k, "S2") == "STS1" && Upper(plotInDiagonal) != "STS1"
    requires Upper(plotInDiagonal) == [] || Upper(Upper(plotInDiagonal)) in ["ST", "S1"]
    ensures SobolDispatch(k, plotInDiagonal) == Ok(BarAndHeatmap(RemoveAll("STS1", Upper(plotInDiagonal)), Upper(plotInDiagonal), false))
  {
  }

  /** Every index with any other non-empty diagonal except 'STS1' is refused. */
  lemma SobolFullRejectsDiagonal(kind: string, plotInDiagonal: string)
    requires NormalizeSobolKind(kind) == Ok("STS1S2")
    requires Upper(plotInDiagonal) != [] && Upper(plotInDiagonal) !in ["ST", "S1", "STS1"]
    ensures SobolPlot(kind, plotInDiagonal) == Err(InvalidDiagonal(Upper(plotInDiagonal)))
  {
    RemoveS2Examples();
    UpperIdempotent(plotInDiagonal);
  }

  /** A heat map with effects on its diagonal needs a kind with more than bars, whose part without 'S2' is the requested diagonal. */
  lemma SobolHeatmapDiagonal(kind: string, plotInDiagonal: string)
    requires SobolPlot(kind, plotInDiagonal).Ok? && SobolPlot(kind, plotInDiagonal).value.HeatmapWithDiagonal?
    ensures var k := NormalizeSobolKind(kind).value;
      && k !in ["ST", "S1", "STS1", "S1ST"] && k != "S2"
      && SobolPlot(kind, plotInDiagonal).value.diagonal == RemoveAll(k, "S2") == Upper(plotInDiagonal)
      && Upper(plotInDiagonal) != []
  {
  }

  /** Total and second-order indices with 'ST' on the diagonal: the heat map alone, with total effects on its diagonal. */
  lemma SobolTotalOnDiagonal(kind: string, plotInDiagonal: string)
    requires Upper(kind) == "STS2" && Upper(plotInDiagonal) == "ST"
    ensures SobolPlot(kind, plotInDiagonal) == Ok(HeatmapWithDiagonal("ST"))
  {
    assert '1' !in CharSet("STS2") && '1' in SobolChars;
    assert CharSet("STS2") <= SobolChars;
    assert NormalizeSobolKind(kind) == Ok("STS2");
    RemoveS2Examples();
    assert SobolDispatch("STS2", plotInDiagonal) == Ok(HeatmapWithDiagonal("ST"));
  }

  // ---------------------------------------------------------------------
  // morris_till_convergence
  // ---------------------------------------------------------------------

  /** `samples[0: 2*(param_num+1)]`: the first two trajectories. */
  function FirstBatch(paramNum: nat): (nat, nat)
  {
    (0, 2 * (paramNum + 1))
  }

  /** `samples[n*(param_num+1): (n+1)*(param_num+1)]`: trajectory n. */
  function Batch(n: nat, paramNum: nat): (nat, nat)
  {
    (n * (paramNum + 1), (n + 1) * (paramNum + 1))
  }

  /** `mu_star` and `mu_star_conf` of one metric, one entry per parameter (SALib's output). */
  datatype MorrisResult = MorrisResult(muStar: seq<real>, muStarConf: seq<real>)

  function MaxOf(s: seq<real>): (m: real)
    requires |s| > 0
    ensures forall i :: 0 <= i < |s| ==> s[i] <= m
    ensures exists i :: 0 <= i < |s| && s[i] == m
  {
    if |s| == 1 then s[0]
    else
      var rest := MaxOf(s[1..]);
      assert forall i :: 1 <= i < |s| ==> s[i] == s[1..][i - 1];
      if s[0] >= rest then s[0] else rest
  }

  /**
   * `mu_star_conf[i]/mu_star.max() > threshold` in floating point: the maximum
   * of no values is NaN and nothing exceeds it; dividing by a zero maximum
   * gives infinity for a positive confidence and NaN for a zero one.
   */
  predicate Exceeds(conf: real, muStar: seq<real>, threshold: real)
  {
    if muStar == [] then false
    else if MaxOf(muStar) == 0.0 then conf > 0.0
    else conf / MaxOf(muStar) > threshold
  }

  /** `converged = False if (mu_star_conf/mu_star.max()>threshold).any() else True` */
  predicate MetricConverged(r: MorrisResult, threshold: real)
  {
    forall i :: 0 <= i < |r.muStarConf| ==> !Exceeds(r.muStarConf[i], r.muStar, threshold)
  }

  predicate AllConverged(results: seq<MorrisResult>, threshold: real)
  {
    forall m :: 0 <= m < |results| ==> MetricConverged(results[m], threshold)
  }

  /** With a positive largest effect, a metric has converged exactly when every confidence is within `threshold` times that effect. */
  lemma ConvergedIffWithinThreshold(r: MorrisResult, threshold: real)
    requires |r.muStar| > 0 && MaxOf(r.muStar) > 0.0
    ensures MetricConverged(r, threshold) <==> forall i :: 0 <= i < |r.muStarConf| ==> r.muStarConf[i] <= threshold * MaxOf(r.muStar)
  {
    var m := MaxOf(r.muStar);
    forall i | 0 <= i < |r.muStarConf|
      ensures Exceeds(r.muStarConf[i], r.muStar, threshold) <==> r.muStarConf[i] > threshold * m
    {
      var c := r.muStarConf[i];
      assert c == (c / m) * m;
      if c / m > threshold {
        assert (c / m) * m > threshold * m;
      } else {
        assert (c / m) * m <= threshold * m;
      }
    }
  }

  /**
   * The batch loop of `morris_till_convergence`: after the first two
   * trajectories, trajectory n = 2, 3, ... is loaded and analysed with the
   * earlier ones until every metric has converged or N_max is reached.
   * `analysisAt(n)` stands for SALib's result for each metric once
   * trajectory n is in. Returns the sample slices loaded and the n the loop
   * stopped at, if any.
   */
  method MorrisTillConvergence(paramNum: nat, nMax: nat, threshold: real, analysisAt: nat -> seq<MorrisResult>)
    returns (slices: seq<(nat, nat)>, stop: Option<nat>)
    ensures |slices| >= 1 && slices[0] == FirstBatch(paramNum)
    ensures forall k :: 1 <= k < |slices| ==> slices[k] == Batch(k + 1, paramNum)
    ensures forall k :: 0 <= k < |slices| - 1 ==> slices[k].1 == slices[k + 1].0
    ensures stop.Some? ==> 2 <= stop.value < nMax && AllConverged(analysisAt(stop.value), threshold) && |slices| == stop.value
    ensures forall m :: 2 <= m < nMax && (stop.None? || m < stop.value) ==> !AllConverged(analysisAt(m), threshold)
    ensures stop.None? ==> |slices| == if nMax > 2 then nMax - 1 else 1
  {
    slices := [FirstBatch(paramNum)];
    stop := None;
    var n := 2;
    while n < nMax
      invariant 2 <= n && (n == 2 || n <= nMax)
      invariant |slices| == n - 1 && slices[0] == FirstBatch(paramNum)
      invariant forall k :: 1 <= k < |slices| ==> slices[k] == Batch(k + 1, paramNum)
      invariant forall m :: 2 <= m < n ==> !AllConverged(analysisAt(m), threshold)
      invariant stop.None?
    {
      slices := slices + [Batch(n, paramNum)];
      if AllConverged(analysisAt(n), threshold) {
        stop := Some(n);
        break;
      }
      n := n + 1;
    }
    forall k | 0 <= k < |slices| - 1 ensures slices[k].1 == slices[k + 1].0 {
      BatchesAdjacent(k, paramNum);
    }
  }

  lemma BatchesAdjacent(k: nat, paramNum: nat)
    ensures (if k == 0 then FirstBatch(paramNum) else Batch(k + 1, paramNum)).1 == Batch(k + 2, paramNum).0
  {
  }

  /** Every loaded slice lies within the N_max·(param_num+1) generated samples. */
  lemma BatchesWithinSamples(paramNum: nat, nMax: nat, n: nat)
    requires 2 <= n < nMax
    ensures FirstBatch(paramNum).1 <= nMax * (paramNum + 1)
    ensures Batch(n, paramNum).0 < Batch(n, paramNum).1 <= nMax * (paramNum + 1)
  {
    assert (n + 1) * (paramNum + 1) <= nMax * (paramNum + 1) by {
      assert n + 1 <= nMax;
    }
    assert 2 * (paramNum + 1) <= nMax * (paramNum + 1);
  }
}
