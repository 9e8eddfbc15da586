/**
 * The objects of the tool: `SequencyConsistency`, which computes and caches the missing numbers
 * of a token set, and the constructor of `SequencyConsistencyRegex`, which first turns raw
 * names into tokens.
 */
module Consistency {
  import opened Wrappers
  import opened StrOrder
  import opened Decimal
  import opened Gaps
  import opened Extraction

  /**
   * `regex_def_grp` when given, else the default `(\d+)` with group 1, which finds a token in
   * exactly the names holding a digit, and only digit strings.
   */
  function SearchOf(regexDefGrp: Option<Search>): (r: Search)
    ensures regexDefGrp.Some? ==> r == regexDefGrp.value
    ensures regexDefGrp.None? ==> forall s :: r(s).None? <==> forall k :: 0 <= k < |s| ==> !IsDigit(s[k])
    ensures regexDefGrp.None? ==> forall s :: r(s).Some? ==> IsNumeral(r(s).value)
  {
    if regexDefGrp.Some? then regexDefGrp.value else FirstDigitRun
  }

  /** With the default pattern, construction fails exactly when no name contains a digit, and then for want of a maximum. */
  lemma DefaultPipelineFails(names: seq<string>)
    ensures MissingNumberSequence(Tokens(names, FirstDigitRun)).Failure? <==>
      forall i, k :: 0 <= i < |names| && 0 <= k < |names[i]| ==> !IsDigit(names[i][k])
    ensures MissingNumberSequence(Tokens(names, FirstDigitRun)).Failure? ==>
      MissingNumberSequence(Tokens(names, FirstDigitRun)).error == ValueError(EmptySequence, Diagnostic)
  {
    DefaultTokensAreNumerals(names);
    DefaultTokensEmpty(names);
  }

  class SequencyConsistency {
    /** The token set the numbers are read from. */
    var sequence: set<string>
    /** The attribute `missing_sequencies`: None while it has not been set. */
    var missingSequencies: Option<set<string>>
    /** The attribute `missing`: the missing numbers in ascending order. */
    var missing: seq<string>

    /** A fresh instance before `__init__` has set any attribute. */
    constructor Blank()
      ensures sequence == {} && missingSequencies == None && missing == []
    {
      sequence := {};
      missingSequencies := None;
      missing := [];
    }

    /**
     * The state `__init__` leaves behind when it returns normally: both attributes hold the
     * missing numbers of `sequence`, and `missing` lists them in increasing numeric order.
     */
    ghost predicate Valid()
      reads this
      ensures Valid() ==> missingSequencies.Some? && missingSequencies.value == Elements(missing)
      ensures Valid() ==> NumericallyAscending(missing) && Distinct(missing)
    {
      if MissingNumberSequence(sequence).Success? then
        MissingNumericOrder(sequence);
        missingSequencies == Some(MissingNumberSequence(sequence).value) &&
        missing == Missing(sequence).value
      else false
    }

    /** `SequencyConsistency(sequence)`: either the constructed object or the `ValueError` it raises. */
    static method New(sequence: set<string>) returns (r: Result<SequencyConsistency, Failure>)
      ensures r.Failure? <==> MissingNumberSequence(sequence).Failure?
      ensures r.Failure? ==> r.error == MissingNumberSequence(sequence).error
      ensures r.Success? ==> fresh(r.value) && r.value.sequence == sequence && r.value.Valid()
      ensures r.Success? ==> r.value.missingSequencies == Some(Elements(r.value.missing))
    {
      var c := new SequencyConsistency.Blank();
      c.sequence := sequence;
      if c.sequence != {} {
        var first := MissingNumberSequence(c.sequence);
        if first.Failure? {
          return Failure(first.error);
        }
        c.missingSequencies := Some(first.value);
      }
      var second := MissingNumberSequence(c.sequence);
      if second.Failure? {
        return Failure(second.error);
      }
      c.missing := Sorted(second.value);
      return Success(c);
    }

    /**
     * `SequencyConsistencyRegex(names, regex_def_grp)`: the tokens the search finds in the
     * names, then `SequencyConsistency` on them.
     */
    static method NewRegex(names: seq<string>, regexDefGrp: Option<Search>)
      returns (r: Result<SequencyConsistency, Failure>)
      ensures r.Failure? <==> MissingNumberSequence(Tokens(names, SearchOf(regexDefGrp))).Failure?
      ensures r.Failure? ==> r.error == MissingNumberSequence(Tokens(names, SearchOf(regexDefGrp))).error
      ensures r.Success? ==> fresh(r.value) && r.value.sequence == Tokens(names, SearchOf(regexDefGrp))
      ensures r.Success? ==> r.value.Valid()
      ensures regexDefGrp.None? ==>
        (r.Failure? <==> forall i, k :: 0 <= i < |names| && 0 <= k < |names[i]| ==> !IsDigit(names[i][k]))
    {
      var search := SearchOf(regexDefGrp);
      var tokens := Tokens(names, search);
      DefaultPipelineFails(names);
      r := New(tokens);
    }

    /**
     * `print_missing_sequencies(reverse)`: None unless `missing_sequencies` is set and non-empty,
     * else the missing numbers recomputed and ordered, descending when `reverse` holds.
     */
    method PrintMissingSequencies(reverse: bool) returns (r: Option<seq<string>>)
      requires Valid() || missingSequencies.None?
      ensures r.None? <==> missingSequencies.None? || missingSequencies.value == {}
      ensures Valid() ==> (r.None? <==> missing == [])
      ensures r.Some? ==> Valid() && r.value == SortedBy(MissingNumberSequence(sequence).value, reverse)
      ensures r.Some? && !reverse ==> r.value == missing
      ensures r.Some? && reverse ==> r.value == Reversed(missing)
    {
      if missingSequencies.Some? && missingSequencies.value != {} {
        var again := MissingNumberSequence(sequence);
        r := Some(SortedBy(again.value, reverse));
      } else {
        r := None;
      }
    }
  }
}
