/** Worked inputs: what the detector reports for concrete directory listings. */
module Scenarios {
  import opened Wrappers
  import opened StrOrder
  import opened Decimal
  import opened Gaps
  import opened Extraction

  lemma TokensOfThree(a: string, b: string, c: string, search: Search)
    ensures Tokens([a, b, c], search) ==
      (if search(a).Some? then {search(a).value} else {}) +
      (if search(b).Some? then {search(b).value} else {}) +
      (if search(c).Some? then {search(c).value} else {})
  {
    assert Tokens([], search) == {};
    TokensAppend([], a, search);
    assert [] + [a] == [a];
    TokensAppend([a], b, search);
    assert [a] + [b] == [a, b];
    TokensAppend([a, b], c, search);
    assert [a, b] + [c] == [a, b, c];
  }

  /** names with no digit: the token set is empty, so `max()` raises and the diagnostic is printed. */
  lemma NoDigitsRaises()
    ensures Missing(Tokens(["a", "b", "c"], FirstDigitRun)) == Failure(ValueError(EmptySequence, Diagnostic))
  {
    TokensOfThree("a", "b", "c", FirstDigitRun);
    assert FirstDigitRun("a") == None;
    assert FirstDigitRun("b") == None;
    assert FirstDigitRun("c") == None;
  }

  lemma MissingListIs(tokens: set<string>, want: set<string>, list: seq<string>)
    requires MissingNumberSequence(tokens) == Success(want)
    requires StrictlyAscending(list) && Elements(list) == want
    ensures Missing(tokens) == Success(list)
  {
    SortedUnique(Sorted(want), list);
  }

  lemma ValuesOfPaddedTokens()
    ensures AllIntegers({"001", "002", "004"})
    ensures Value("001") == 1 && Value("002") == 2 && Value("004") == 4
  {
    assert "001"[..2] == "00" && "002"[..2] == "00" && "004"[..2] == "00";
    assert "00"[..1] == "0" && "0"[..0] == [];
  }

  lemma TopOfPaddedTokens(tokens: set<string>)
    requires tokens == {"001", "002", "004"}
    ensures AllIntegers(tokens) && Top(tokens) == 4
  {
    ValuesOfPaddedTokens();
    var m := Top(tokens);
  }

  lemma PaddedToOne(n: nat)
    requires n < 10
    ensures Padded(n, 1) == [DigitChar(n)]
  {
  }

  lemma PaddedUpToFour(n: nat)
    requires 1 <= n <= 4
    ensures Padded(n, 1) in {"1", "2", "3", "4"}
  {
    PaddedToOne(n);
    if n == 1 { assert [DigitChar(n)] == "1"; }
    else if n == 2 { assert [DigitChar(n)] == "2"; }
    else if n == 3 { assert [DigitChar(n)] == "3"; }
    else { assert [DigitChar(n)] == "4"; }
  }

  lemma FullRangeWithinFour(m: nat)
    requires m == 4
    ensures FullRange(m) <= {"1", "2", "3", "4"}
  {
    assert Width(m) == 1;
    forall s | s in FullRange(m)
      ensures s in {"1", "2", "3", "4"}
    {
      var n: nat :| 1 <= n <= 4 && s == Padded(n, 1);
      PaddedUpToFour(n);
    }
  }

  lemma FourWithinFullRange(m: nat, s: string)
    requires m == 4
    requires s in {"1", "2", "3", "4"}
    ensures s in FullRange(m)
  {
    assert Width(m) == 1;
    FullRangeMembers(m, s);
  }

  lemma FullRangeUpToFour(m: nat)
    requires m == 4
    ensures FullRange(m) == {"1", "2", "3", "4"}
  {
    FullRangeWithinFour(m);
    forall s | s in {"1", "2", "3", "4"}
      ensures s in FullRange(m)
    {
      FourWithinFullRange(m, s);
    }
  }

  lemma TokensOfRuns(names: seq<string>, ta: string, tb: string, tc: string)
    requires |names| == 3
    requires FirstDigitRun(names[0]) == Some(ta)
    requires FirstDigitRun(names[1]) == Some(tb)
    requires FirstDigitRun(names[2]) == Some(tc)
    ensures Tokens(names, FirstDigitRun) == {ta, tb, tc}
  {
    forall t
      ensures t in Tokens(names, FirstDigitRun) <==> t in {ta, tb, tc}
    {
      if t in Tokens(names, FirstDigitRun) {
        var i :| 0 <= i < |names| && FirstDigitRun(names[i]) == Some(t);
        assert i == 0 || i == 1 || i == 2;
      }
      if t == ta { assert FirstDigitRun(names[0]) == Some(t); }
      if t == tb { assert FirstDigitRun(names[1]) == Some(t); }
      if t == tc { assert FirstDigitRun(names[2]) == Some(t); }
    }
  }

  lemma PaddedNamesTokens(names: seq<string>)
    requires names == ["img001.png", "img002.png", "img004.png"]
    ensures Tokens(names, FirstDigitRun) == {"001", "002", "004"}
  {
    PaddedNameRun(names, 0, "001");
    PaddedNameRun(names, 1, "002");
    PaddedNameRun(names, 2, "004");
    TokensOfRuns(names, "001", "002", "004");
  }

  lemma PaddedNameRun(names: seq<string>, k: nat, t: string)
    requires names == ["img001.png", "img002.png", "img004.png"]
    requires k < 3 && t == ["001", "002", "004"][k]
    ensures FirstDigitRun(names[k]) == Some(t)
  {
    ImageRun(names[k], t);
  }

  lemma ImageRun(name: string, t: string)
    requires IsNumeral(t)
    requires name == "img" + t + ".png"
    ensures FirstDigitRun(name) == Some(t)
  {
    FirstDigitRunOf("img", t, ".png");
  }

  lemma PaddedTokensMissingSet(tokens: set<string>)
    requires tokens == {"001", "002", "004"}
    ensures MissingNumberSequence(tokens) == Success({"1", "2", "3", "4"})
  {
    TopOfPaddedTokens(tokens);
    MaxRangeIsTop(tokens);
    FullRangeUpToFour(Top(tokens));
    SetMinusDisjoint(tokens, FullRange(Top(tokens)));
  }

  lemma SetMinusDisjoint(tokens: set<string>, full: set<string>)
    requires tokens == {"001", "002", "004"}
    requires full == {"1", "2", "3", "4"}
    ensures full - tokens == full
  {
  }

  lemma PaddedTokensMissing(tokens: set<string>)
    requires tokens == {"001", "002", "004"}
    ensures Missing(tokens) == Success(["1", "2", "3", "4"])
  {
    PaddedTokensMissingSet(tokens);
    AscendingOneToFour(["1", "2", "3", "4"]);
    MissingListIs(tokens, {"1", "2", "3", "4"}, ["1", "2", "3", "4"]);
  }

  lemma AscendingOneToFour(list: seq<string>)
    requires list == ["1", "2", "3", "4"]
    ensures StrictlyAscending(list) && Elements(list) == {"1", "2", "3", "4"}
  {
    ConsAscending("4", []);
    ConsAscending("3", ["4"]);
    ConsAscending("2", ["3", "4"]);
    ConsAscending("1", ["2", "3", "4"]);
  }

  /**
   * Names padded to three digits up to 004: the width comes from `str(4)`, one digit, so no token
   * cancels anything and all of 1..4 are reported.
   */
  lemma PaddedNamesScenario(names: seq<string>)
    requires names == ["img001.png", "img002.png", "img004.png"]
    ensures Missing(Tokens(names, FirstDigitRun)) == Success(["1", "2", "3", "4"])
  {
    PaddedNamesTokens(names);
    PaddedTokensMissing(Tokens(names, FirstDigitRun));
  }

  lemma ValuesOfUnpaddedTokens()
    ensures AllIntegers({"1", "2", "10"})
    ensures Value("1") == 1 && Value("2") == 2 && Value("10") == 10
  {
    assert "1"[..0] == [] && "2"[..0] == [] && "10"[..1] == "1";
  }

  lemma TopOfUnpaddedTokens(tokens: set<string>)
    requires tokens == {"1", "2", "10"}
    ensures AllIntegers(tokens) && Top(tokens) == 10
  {
    ValuesOfUnpaddedTokens();
    var m := Top(tokens);
  }

  lemma PaddedToTwo(n: nat)
    requires 1 <= n <= 9
    ensures Padded(n, 2) == ['0', DigitChar(n)]
  {
  }

  lemma PaddedTen(n: nat)
    requires n == 10
    ensures Padded(n, 2) == "10"
  {
    assert Str(10) == Str(1) + [DigitChar(0)];
  }

  lemma PaddedUpToNine(n: nat)
    requires 1 <= n <= 9
    ensures Padded(n, 2) in {"01", "02", "03", "04", "05", "06", "07", "08", "09"}
  {
    PaddedToTwo(n);
    var d := DigitChar(n);
    if n == 1 { assert d == '1'; }
    else if n == 2 { assert d == '2'; }
    else if n == 3 { assert d == '3'; }
    else if n == 4 { assert d == '4'; }
    else if n == 5 { assert d == '5'; }
    else if n == 6 { assert d == '6'; }
    else if n == 7 { assert d == '7'; }
    else if n == 8 { assert d == '8'; }
    else { assert d == '9'; }
  }

  lemma PaddedUpToTen(n: nat)
    requires 1 <= n <= 10
    ensures Padded(n, 2) in {"01", "02", "03", "04", "05", "06", "07", "08", "09", "10"}
  {
    if n < 10 {
      PaddedUpToNine(n);
    } else {
      PaddedTen(n);
    }
  }

  lemma WidthOfTen(m: nat)
    requires m == 10
    ensures Width(m) == 2
  {
    assert Str(10) == Str(1) + [DigitChar(0)];
  }

  lemma FullRangeWithinTen(m: nat)
    requires m == 10
    ensures FullRange(m) <= {"01", "02", "03", "04", "05", "06", "07", "08", "09", "10"}
  {
    WidthOfTen(m);
    forall s | s in FullRange(m)
      ensures s in {"01", "02", "03", "04", "05", "06", "07", "08", "09", "10"}
    {
      var n: nat :| 1 <= n <= 10 && s == Padded(n, 2);
      PaddedUpToTen(n);
    }
  }

  lemma TenWithinFullRange(m: nat, s: string)
    requires m == 10
    requires s in {"01", "02", "03", "04", "05", "06", "07", "08", "09", "10"}
    ensures s in FullRange(m)
  {
    WidthOfTen(m);
    assert Value(s) == Value(s[..1]) * 10 + DigitValue(s[1]);
    FullRangeMembers(m, s);
  }

  lemma FullRangeUpToTen(m: nat)
    requires m == 10
    ensures FullRange(m) == {"01", "02", "03", "04", "05", "06", "07", "08", "09", "10"}
  {
    FullRangeWithinTen(m);
    forall s | s in {"01", "02", "03", "04", "05", "06", "07", "08", "09", "10"}
      ensures s in FullRange(m)
    {
      TenWithinFullRange(m, s);
    }
  }

  lemma UnpaddedNameRun(names: seq<string>, k: nat, t: string)
    requires names == ["f-1", "f-2", "f-10"]
    requires k < 3 && t == ["1", "2", "10"][k]
    ensures FirstDigitRun(names[k]) == Some(t)
  {
    assert names[k] == "f-" + t + "";
    FirstDigitRunOf("f-", t, "");
  }

  lemma UnpaddedNamesTokens(names: seq<string>)
    requires names == ["f-1", "f-2", "f-10"]
    ensures Tokens(names, FirstDigitRun) == {"1", "2", "10"}
  {
    UnpaddedNameRun(names, 0, "1");
    UnpaddedNameRun(names, 1, "2");
    UnpaddedNameRun(names, 2, "10");
    TokensOfRuns(names, "1", "2", "10");
  }

  lemma SetMinusUnpadded(tokens: set<string>, full: set<string>)
    requires tokens == {"1", "2", "10"}
    requires full == {"01", "02", "03", "04", "05", "06", "07", "08", "09", "10"}
    ensures full - tokens == {"01", "02", "03", "04", "05", "06", "07", "08", "09"}
  {
  }

  lemma UnpaddedTokensMissingSet(tokens: set<string>)
    requires tokens == {"1", "2", "10"}
    ensures MissingNumberSequence(tokens) == Success({"01", "02", "03", "04", "05", "06", "07", "08", "09"})
  {
    TopOfUnpaddedTokens(tokens);
    MaxRangeIsTop(tokens);
    FullRangeUpToTen(Top(tokens));
    SetMinusUnpadded(tokens, FullRange(Top(tokens)));
  }

  lemma AscendingSixToNine(list: seq<string>)
    requires list == ["06", "07", "08", "09"]
    ensures StrictlyAscending(list)
  {
    ConsAscending("09", []);
    ConsAscending("08", ["09"]);
    ConsAscending("07", ["08", "09"]);
    ConsAscending("06", ["07", "08", "09"]);
  }

  lemma AscendingTwoToNine(list: seq<string>)
    requires list == ["02", "03", "04", "05", "06", "07", "08", "09"]
    ensures StrictlyAscending(list)
  {
    AscendingSixToNine(list[4..]);
    ConsAscending("05", list[4..]);
    assert list[3..] == ["05"] + list[4..];
    ConsAscending("04", list[3..]);
    assert list[2..] == ["04"] + list[3..];
    ConsAscending("03", list[2..]);
    assert list[1..] == ["03"] + list[2..];
    ConsAscending("02", list[1..]);
    assert list == ["02"] + list[1..];
  }

  lemma AscendingOneToNine(list: seq<string>)
    requires list == ["01", "02", "03", "04", "05", "06", "07", "08", "09"]
    ensures StrictlyAscending(list)
  {
    AscendingTwoToNine(list[1..]);
    ConsAscending("01", list[1..]);
    assert list == ["01"] + list[1..];
  }

  lemma ElementsOneToNine(list: seq<string>)
    requires list == ["01", "02", "03", "04", "05", "06", "07", "08", "09"]
    ensures Elements(list) == {"01", "02", "03", "04", "05", "06", "07", "08", "09"}
  {
  }

  lemma UnpaddedTokensMissing(tokens: set<string>)
    requires tokens == {"1", "2", "10"}
    ensures Missing(tokens) == Success(["01", "02", "03", "04", "05", "06", "07", "08", "09"])
  {
    UnpaddedTokensMissingSet(tokens);
    var list := ["01", "02", "03", "04", "05", "06", "07", "08", "09"];
    AscendingOneToNine(list);
    ElementsOneToNine(list);
    MissingListIs(tokens, {"01", "02", "03", "04", "05", "06", "07", "08", "09"}, list);
  }

  /**
   * Names numbered 1, 2 and 10 without padding: the width is that of `str(10)`, two digits, so the
   * tokens "1" and "2" do not cancel "01" and "02", and 01..09 are all reported.
   */
  lemma UnpaddedNamesScenario(names: seq<string>)
    requires names == ["f-1", "f-2", "f-10"]
    ensures Missing(Tokens(names, FirstDigitRun)) ==
      Success(["01", "02", "03", "04", "05", "06", "07", "08", "09"])
  {
    UnpaddedNamesTokens(names);
    UnpaddedTokensMissing(Tokens(names, FirstDigitRun));
  }

  /** The same names in reverse mode: the same strings, from 09 down to 01. */
  lemma UnpaddedNamesReverse(names: seq<string>)
    requires names == ["f-1", "f-2", "f-10"]
    ensures MissingNumberSequence(Tokens(names, FirstDigitRun)).Success?
    ensures SortedBy(MissingNumberSequence(Tokens(names, FirstDigitRun)).value, true) ==
      ["09", "08", "07", "06", "05", "04", "03", "02", "01"]
  {
    UnpaddedNamesTokens(names);
    var tokens := Tokens(names, FirstDigitRun);
    UnpaddedTokensMissing(tokens);
    var up := ["01", "02", "03", "04", "05", "06", "07", "08", "09"];
    assert Sorted(MissingNumberSequence(tokens).value) == up;
    ReversedNine(up);
  }

  lemma ReversedNine(up: seq<string>)
    requires up == ["01", "02", "03", "04", "05", "06", "07", "08", "09"]
    ensures Reversed(up) == ["09", "08", "07", "06", "05", "04", "03", "02", "01"]
  {
    var down := ["09", "08", "07", "06", "05", "04", "03", "02", "01"];
    forall k | 0 <= k < 9
      ensures Reversed(up)[k] == down[k]
    {
    }
  }
}
