/**
 * The gap detector of `SequencyConsistency`: from a set of numeric tokens, the zero-padded
 * numbers between 1 and the largest token value that are not among the tokens.
 */
module Gaps {
  import opened Wrappers
  import opened StrOrder
  import opened Decimal

  /** Why `__missing_number_sequence` raises `ValueError`. */
  datatype Reason =
    | EmptySequence   // `max()` of an empty generator
    | NotAnInteger    // `int()` of a token that is not a numeral

  /** A `ValueError`, with what the handler printed to standard output before re-raising it. */
  datatype Failure = ValueError(reason: Reason, printed: string)

  /** The line the handler prints, followed by the `end='\n\n'` terminator. */
  const Diagnostic: string := "Regex must match a integer.\n\n"

  predicate AllIntegers(tokens: set<string>)
  {
    forall t :: t in tokens ==> IsNumeral(t)
  }

  /** `{int(t) for t in tokens}`: the value of every token, and only those. */
  function Values(tokens: set<string>): (r: set<nat>)
    requires AllIntegers(tokens)
    ensures forall t :: t in tokens ==> Value(t) in r
    ensures forall v :: v in r ==> exists t :: t in tokens && Value(t) == v
    ensures tokens != {} ==> r != {}
  {
    var r := set t | t in tokens :: Value(t);
    if tokens != {} then
      var t :| t in tokens;
      assert Value(t) in r;
      r
    else r
  }

  lemma {:induction false} MaxExists(xs: set<nat>)
    requires xs != {}
    ensures exists m :: m in xs && forall x :: x in xs ==> x <= m
    decreases xs
  {
    var y :| y in xs;
    var rest := xs - {y};
    if rest != {} {
      MaxExists(rest);
      var m :| m in rest && forall x :: x in rest ==> x <= m;
      var top := if y > m then y else m;
      assert top in xs;
      forall x | x in xs
        ensures x <= top
      {
        assert x == y || x in rest;
      }
    } else {
      assert forall x :: x in xs ==> x == y || x in rest;
    }
  }

  /** `max(xs)` of a non-empty set of numbers. */
  function MaxOf(xs: set<nat>): (m: nat)
    requires xs != {}
    ensures m in xs
    ensures forall x :: x in xs ==> x <= m
  {
    MaxExists(xs);
    var m :| m in xs && forall x :: x in xs ==> x <= m;
    m
  }

  /** The largest token value, for tokens the detector accepts. */
  function Top(tokens: set<string>): (m: nat)
    requires tokens != {} && AllIntegers(tokens)
    ensures exists t :: t in tokens && Value(t) == m
    ensures forall t :: t in tokens ==> Value(t) <= m
  {
    MaxOf(Values(tokens))
  }

  /**
   * `max(int(match) for match in tokens)` inside its `try`: `ValueError` with the printed
   * diagnostic when there is no token or a token is not an integer, else the largest value.
   */
  function MaxRange(tokens: set<string>): (r: Result<nat, Failure>)
    ensures r.Failure? <==> tokens == {} || !AllIntegers(tokens)
    ensures r.Failure? ==> r.error.printed == Diagnostic
    ensures r.Failure? ==> (r.error.reason == EmptySequence <==> tokens == {})
    ensures r.Success? ==> AllIntegers(tokens)
    ensures r.Success? ==> exists t :: t in tokens && Value(t) == r.value
    ensures r.Success? ==> forall t :: t in tokens ==> Value(t) <= r.value
  {
    if tokens == {} then Failure(ValueError(EmptySequence, Diagnostic))
    else if !AllIntegers(tokens) then Failure(ValueError(NotAnInteger, Diagnostic))
    else Success(Top(tokens))
  }

  /** `len(str(max_range))`: the number of decimal digits of m. */
  function Width(m: nat): (w: nat)
    ensures w >= 1
    ensures m < Pow10(w)
    ensures m >= 1 ==> Pow10(w - 1) <= m
  {
    ValueOfStr(m);
    if m >= 1 then
      ValueLowerBound(Str(m));
      |Str(m)|
    else |Str(m)|
  }

  /** `full_range`: `str(num).rjust(width, '0')` for num in 1..m, width that of `str(m)`. */
  function FullRange(m: nat): set<string>
  {
    set n: nat | 1 <= n <= m :: Padded(n, Width(m))
  }

  /** The padded range is exactly the digit strings of the width of `str(m)` whose value lies in 1..m. */
  lemma FullRangeMembers(m: nat, s: string)
    ensures s in FullRange(m) <==> IsNumeral(s) && |s| == Width(m) && 1 <= Value(s) <= m
  {
    var w := Width(m);
    if s in FullRange(m) {
      var n: nat :| 1 <= n <= m && s == Padded(n, w);
      PaddedValue(n, w);
      PaddedWidth(n, m);
    }
    if IsNumeral(s) && |s| == w && 1 <= Value(s) <= m {
      var n := Value(s);
      PaddedValue(n, w);
      PaddedWidth(n, m);
      EqualWidthInjective(s, Padded(n, w));
      assert Padded(n, w) in FullRange(m);
    }
  }

  /** `__missing_number_sequence`: `full_range.difference(tokens)`, compared as strings. */
  function MissingNumberSequence(tokens: set<string>): (r: Result<set<string>, Failure>)
    ensures r.Failure? <==> tokens == {} || !AllIntegers(tokens)
    ensures r.Failure? ==> r.error.printed == Diagnostic
    ensures r.Failure? ==> (r.error.reason == EmptySequence <==> tokens == {})
  {
    match MaxRange(tokens)
    case Failure(e) => Failure(e)
    case Success(m) => Success(FullRange(m) - tokens)
  }

  /** `sorted(self.__missing_number_sequence())`: the value cached as `missing`. */
  function Missing(tokens: set<string>): (r: Result<seq<string>, Failure>)
    ensures r.Failure? <==> MissingNumberSequence(tokens).Failure?
    ensures r.Failure? ==> r.error == MissingNumberSequence(tokens).error
    ensures r.Success? ==> Elements(r.value) == MissingNumberSequence(tokens).value
  {
    match MissingNumberSequence(tokens)
    case Failure(e) => Failure(e)
    case Success(s) => Success(Sorted(s))
  }

  /** On success `max_range` is the largest token value, and the result is the range minus the tokens. */
  lemma MaxRangeIsTop(tokens: set<string>)
    requires MissingNumberSequence(tokens).Success?
    ensures MaxRange(tokens) == Success(Top(tokens))
    ensures MissingNumberSequence(tokens).value == FullRange(Top(tokens)) - tokens
  {
  }

  /** Soundness of range and of absence: every reported string pads some 1 <= n <= M and is not a token. */
  lemma MissingSound(tokens: set<string>, s: string)
    requires MissingNumberSequence(tokens).Success?
    requires s in MissingNumberSequence(tokens).value
    ensures exists n: nat :: 1 <= n <= Top(tokens) && s == Padded(n, Width(Top(tokens)))
    ensures s !in tokens
  {
    MaxRangeIsTop(tokens);
  }

  /** Completeness: every padded 1 <= n <= M that is not a token is reported. */
  lemma MissingComplete(tokens: set<string>, n: nat)
    requires MissingNumberSequence(tokens).Success?
    requires 1 <= n <= Top(tokens)
    requires Padded(n, Width(Top(tokens))) !in tokens
    ensures Padded(n, Width(Top(tokens))) in MissingNumberSequence(tokens).value
  {
    MaxRangeIsTop(tokens);
  }

  /** The reported strings and the tokens together cover the whole padded range. */
  lemma MissingCoversRange(tokens: set<string>)
    requires MissingNumberSequence(tokens).Success?
    ensures FullRange(Top(tokens)) <= MissingNumberSequence(tokens).value + tokens
  {
    MaxRangeIsTop(tokens);
  }

  /**
   * An independent description of the result: the strings of exactly the width of `str(M)`,
   * made of digits, whose value lies in 1..M, and that are not tokens.
   */
  lemma MissingCharacterization(tokens: set<string>, s: string)
    requires MissingNumberSequence(tokens).Success?
    ensures s in MissingNumberSequence(tokens).value <==>
      IsNumeral(s) && |s| == Width(Top(tokens)) && 1 <= Value(s) <= Top(tokens) && s !in tokens
  {
    MaxRangeIsTop(tokens);
    FullRangeMembers(Top(tokens), s);
  }

  /** Every reported string has the width of `str(M)`. */
  lemma MissingWidth(tokens: set<string>)
    requires MissingNumberSequence(tokens).Success?
    ensures forall s :: s in MissingNumberSequence(tokens).value ==>
      IsNumeral(s) && |s| == Width(Top(tokens)) && 1 <= Value(s) <= Top(tokens)
  {
    forall s | s in MissingNumberSequence(tokens).value
      ensures IsNumeral(s) && |s| == Width(Top(tokens)) && 1 <= Value(s) <= Top(tokens)
    {
      MissingCharacterization(tokens, s);
    }
  }

  /** All entries are digit strings of width w. */
  predicate NumeralsOfWidth(xs: seq<string>, w: nat)
  {
    forall k :: 0 <= k < |xs| ==> IsNumeral(xs[k]) && |xs[k]| == w
  }

  /** Entries read as integers increase strictly from left to right. */
  predicate NumericallyAscending(xs: seq<string>)
  {
    forall i, j :: 0 <= i < j < |xs| ==> AllDigits(xs[i]) && AllDigits(xs[j]) && Value(xs[i]) < Value(xs[j])
  }

  /** Entries read as integers decrease strictly from left to right. */
  predicate NumericallyDescending(xs: seq<string>)
  {
    forall i, j :: 0 <= i < j < |xs| ==> AllDigits(xs[i]) && AllDigits(xs[j]) && Value(xs[j]) < Value(xs[i])
  }

  predicate Distinct(xs: seq<string>)
  {
    forall i, j :: 0 <= i < j < |xs| ==> xs[i] != xs[j]
  }

  /**
   * The cached `missing` list: all entries have the width of `str(M)`, so its ascending string
   * order is ascending numeric order, and no string occurs twice.
   */
  lemma MissingNumericOrder(tokens: set<string>)
    requires Missing(tokens).Success?
    ensures NumeralsOfWidth(Missing(tokens).value, Width(Top(tokens)))
    ensures NumericallyAscending(Missing(tokens).value)
    ensures Distinct(Missing(tokens).value)
  {
    var xs := Missing(tokens).value;
    WidthOfListed(tokens, xs);
    EqualWidthAscending(xs, Width(Top(tokens)));
  }

  /** The list `sorted(..., reverse=True)` gives: descending numeric order, no string twice. */
  lemma MissingReverseOrder(tokens: set<string>)
    requires MissingNumberSequence(tokens).Success?
    ensures NumeralsOfWidth(SortedBy(MissingNumberSequence(tokens).value, true), Width(Top(tokens)))
    ensures NumericallyDescending(SortedBy(MissingNumberSequence(tokens).value, true))
    ensures Distinct(SortedBy(MissingNumberSequence(tokens).value, true))
  {
    var xs := SortedBy(MissingNumberSequence(tokens).value, true);
    WidthOfListed(tokens, xs);
    EqualWidthDescending(xs, Width(Top(tokens)));
  }

  /** Any listing of the missing set holds numerals of the width of `str(M)`. */
  lemma WidthOfListed(tokens: set<string>, xs: seq<string>)
    requires MissingNumberSequence(tokens).Success?
    requires Elements(xs) == MissingNumberSequence(tokens).value
    ensures NumeralsOfWidth(xs, Width(Top(tokens)))
  {
    forall k | 0 <= k < |xs|
      ensures IsNumeral(xs[k]) && |xs[k]| == Width(Top(tokens))
    {
      assert xs[k] in Elements(xs);
      MissingCharacterization(tokens, xs[k]);
    }
  }

  lemma EqualWidthAscending(xs: seq<string>, w: nat)
    requires StrictlyAscending(xs) && NumeralsOfWidth(xs, w)
    ensures NumericallyAscending(xs) && Distinct(xs)
  {
    forall i, j | 0 <= i < j < |xs|
      ensures AllDigits(xs[i]) && AllDigits(xs[j]) && Value(xs[i]) < Value(xs[j]) && xs[i] != xs[j]
    {
      EqualWidthOrder(xs[i], xs[j]);
    }
  }

  lemma EqualWidthDescending(xs: seq<string>, w: nat)
    requires StrictlyDescending(xs) && NumeralsOfWidth(xs, w)
    ensures NumericallyDescending(xs) && Distinct(xs)
  {
    forall i, j | 0 <= i < j < |xs|
      ensures AllDigits(xs[i]) && AllDigits(xs[j]) && Value(xs[j]) < Value(xs[i]) && xs[i] != xs[j]
    {
      EqualWidthOrder(xs[j], xs[i]);
    }
  }

  /**
   * String comparison quirk: a token shorter than the width never cancels its own number, so
   * that number is reported missing although the token is present.
   */
  lemma ShortTokenDoesNotCancel(tokens: set<string>, t: string)
    requires MissingNumberSequence(tokens).Success?
    requires t in tokens && 1 <= Value(t)
    requires |t| < Width(Top(tokens))
    requires Padded(Value(t), Width(Top(tokens))) !in tokens
    ensures Padded(Value(t), Width(Top(tokens))) in MissingNumberSequence(tokens).value
    ensures Padded(Value(t), Width(Top(tokens))) != t
  {
    PaddedWidth(Value(t), Top(tokens));
  }

  /**
   * When every token already has the width of `str(M)`, comparing strings is comparing numbers:
   * the result is the padded form of exactly the numbers 1..M that no token stands for.
   */
  lemma UniformWidthMeansNumericGaps(tokens: set<string>, s: string)
    requires MissingNumberSequence(tokens).Success?
    requires forall t :: t in tokens ==> |t| == Width(Top(tokens))
    ensures s in MissingNumberSequence(tokens).value <==>
      exists n: nat :: 1 <= n <= Top(tokens) && n !in Values(tokens) && s == Padded(n, Width(Top(tokens)))
  {
    MaxRangeIsTop(tokens);
    var m := Top(tokens);
    var w := Width(m);
    if s in MissingNumberSequence(tokens).value {
      var n: nat :| 1 <= n <= m && s == Padded(n, w);
      UniformWidthReported(tokens, n);
    }
    if exists n: nat :: 1 <= n <= m && n !in Values(tokens) && s == Padded(n, w) {
      var n: nat :| 1 <= n <= m && n !in Values(tokens) && s == Padded(n, w);
      PaddedValue(n, w);
      assert Padded(n, w) in FullRange(m);
    }
  }

  /** With uniform token width, a reported padded number is the value of no token. */
  lemma UniformWidthReported(tokens: set<string>, n: nat)
    requires MissingNumberSequence(tokens).Success?
    requires forall t :: t in tokens ==> |t| == Width(Top(tokens))
    requires 1 <= n <= Top(tokens)
    requires Padded(n, Width(Top(tokens))) !in tokens
    ensures n !in Values(tokens)
  {
    var s := Padded(n, Width(Top(tokens)));
    PaddedValue(n, Width(Top(tokens)));
    PaddedWidth(n, Top(tokens));
    forall t | t in tokens
      ensures Value(t) != n
    {
      if Value(t) == n {
        EqualWidthInjective(t, s);
      }
    }
  }
}
