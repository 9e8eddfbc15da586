/**
 * The extractor of `SequencyConsistencyRegex`: each raw name is searched with a compiled pattern
 * and the requested group of its first match becomes a token; names without a match are dropped.
 */
module Extraction {
  import opened Wrappers
  import opened Decimal

  /** `pattern.search(name)` followed by `.group(g)`: None when there is no match. */
  type Search = string -> Option<string>

  /** Index of the first digit of s, or |s| when s has none. */
  function FirstDigit(s: string): (i: nat)
    ensures i <= |s|
    ensures forall k :: 0 <= k < i ==> !IsDigit(s[k])
    ensures i < |s| ==> IsDigit(s[i])
    decreases |s|
  {
    if |s| == 0 || IsDigit(s[0]) then 0 else 1 + FirstDigit(s[1..])
  }

  /** Length of the run of digits at the start of s. */
  function DigitRunLength(s: string): (n: nat)
    ensures n <= |s|
    ensures forall k :: 0 <= k < n ==> IsDigit(s[k])
    ensures n < |s| ==> !IsDigit(s[n])
    decreases |s|
  {
    if |s| == 0 || !IsDigit(s[0]) then 0 else 1 + DigitRunLength(s[1..])
  }

  /**
   * The default extractor: group 1 of `re.compile('(\d+)').search(s)`, leftmost and greedy.
   * It finds nothing exactly when s has no digit, and what it finds is a digit string.
   */
  function FirstDigitRun(s: string): (r: Option<string>)
    ensures r.None? <==> forall k :: 0 <= k < |s| ==> !IsDigit(s[k])
    ensures r.Some? ==> IsNumeral(r.value)
  {
    var i := FirstDigit(s);
    if i == |s| then None
    else
      var n := DigitRunLength(s[i..]);
      assert s[i..][0] == s[i];
      assert forall k :: 0 <= k < n ==> s[i..i + n][k] == s[i..][k];
      Some(s[i..i + n])
  }

  /**
   * t is the leftmost maximal run of digits of s and starts at index i: no digit comes before i,
   * and the character after the run, if any, is not a digit.
   */
  ghost predicate RunAt(s: string, i: nat, t: string)
  {
    i + |t| <= |s| && s[i..i + |t|] == t && IsNumeral(t) &&
    (forall k :: 0 <= k < i ==> !IsDigit(s[k])) &&
    (i + |t| < |s| ==> !IsDigit(s[i + |t|]))
  }

  /** What the default search returns is the leftmost maximal digit run. */
  lemma FirstDigitRunFound(s: string)
    requires FirstDigitRun(s).Some?
    ensures RunAt(s, FirstDigit(s), FirstDigitRun(s).value)
  {
    var i := FirstDigit(s);
    var n := DigitRunLength(s[i..]);
    var t := s[i..i + n];
    assert s[i..][0] == s[i];
    assert |t| == n;
    forall k | 0 <= k < |t| ensures IsDigit(t[k]) {
      assert t[k] == s[i..][k];
    }
    if i + n < |s| {
      assert s[i + n] == s[i..][n];
    }
  }

  /** The leftmost maximal digit run of a name is unique. */
  lemma RunAtUnique(s: string, i: nat, t: string, j: nat, u: string)
    requires RunAt(s, i, t) && RunAt(s, j, u)
    ensures i == j && t == u
  {
    assert s[i] == t[0] && s[j] == u[0];
    assert IsDigit(s[i]) && IsDigit(s[j]);
    assert i == j;
    assert forall k :: i <= k < i + |t| ==> s[k] == t[k - i] && IsDigit(s[k]);
    assert forall k :: i <= k < i + |u| ==> s[k] == u[k - i] && IsDigit(s[k]);
    assert |t| == |u|;
  }

  /** The default search returns u exactly when u is the leftmost maximal digit run of the name. */
  lemma FirstDigitRunSpec(s: string, u: string)
    ensures FirstDigitRun(s) == Some(u) <==> exists j: nat :: RunAt(s, j, u)
  {
    if FirstDigitRun(s) == Some(u) {
      FirstDigitRunFound(s);
    }
    if exists j: nat :: RunAt(s, j, u) {
      var j: nat :| RunAt(s, j, u);
      assert s[j] == u[0];
      FirstDigitRunFound(s);
      RunAtUnique(s, FirstDigit(s), FirstDigitRun(s).value, j, u);
    }
  }

  /** A name made of a digit-free prefix, a digit run and a rest not starting with a digit yields that run. */
  lemma FirstDigitRunOf(p: string, t: string, q: string)
    requires forall k :: 0 <= k < |p| ==> !IsDigit(p[k])
    requires IsNumeral(t)
    requires q == [] || !IsDigit(q[0])
    ensures FirstDigitRun(p + t + q) == Some(t)
  {
    var s := p + t + q;
    assert s[|p|..|p| + |t|] == t;
    assert forall k :: 0 <= k < |p| ==> s[k] == p[k];
    if |p| + |t| < |s| {
      assert s[|p| + |t|] == q[0];
    }
    assert RunAt(s, |p|, t);
    FirstDigitRunSpec(s, t);
  }

  /** The token set: the found group of every name that matches; other names are dropped. */
  function Tokens(names: seq<string>, search: Search): (r: set<string>)
    ensures forall t :: t in r <==> exists i :: 0 <= i < |names| && search(names[i]) == Some(t)
  {
    var r := set i | 0 <= i < |names| && search(names[i]).Some? :: search(names[i]).value;
    assert forall t :: t in r <==> exists i :: 0 <= i < |names| && search(names[i]) == Some(t) by {
      forall t
        ensures t in r <==> exists i :: 0 <= i < |names| && search(names[i]) == Some(t)
      {
        if exists i :: 0 <= i < |names| && search(names[i]) == Some(t) {
          var i :| 0 <= i < |names| && search(names[i]) == Some(t);
          assert search(names[i]).value == t;
        }
      }
    }
    r
  }

  /** Adding one more name adds its token, if it has one, and nothing else. */
  lemma TokensAppend(names: seq<string>, name: string, search: Search)
    ensures Tokens(names + [name], search) ==
      Tokens(names, search) + (if search(name).Some? then {search(name).value} else {})
  {
    var ns := names + [name];
    assert ns[|names|] == name;
    forall t | t in Tokens(names, search)
      ensures t in Tokens(ns, search)
    {
      var i :| 0 <= i < |names| && search(names[i]) == Some(t);
      assert ns[i] == names[i];
    }
    forall t | t in Tokens(ns, search)
      ensures t in Tokens(names, search) || search(name) == Some(t)
    {
      var i :| 0 <= i < |ns| && search(ns[i]) == Some(t);
      if i < |names| {
        assert ns[i] == names[i];
      }
    }
  }

  /** With the default pattern every token is the leftmost maximal digit run of some name. */
  lemma DefaultTokens(names: seq<string>, t: string)
    ensures t in Tokens(names, FirstDigitRun) <==>
      exists i, j: nat :: 0 <= i < |names| && RunAt(names[i], j, t)
  {
    if t in Tokens(names, FirstDigitRun) {
      var i :| 0 <= i < |names| && FirstDigitRun(names[i]) == Some(t);
      FirstDigitRunSpec(names[i], t);
      var j: nat :| RunAt(names[i], j, t);
    }
    if exists i, j: nat :: 0 <= i < |names| && RunAt(names[i], j, t) {
      var i, j: nat :| 0 <= i < |names| && RunAt(names[i], j, t);
      FirstDigitRunSpec(names[i], t);
    }
  }

  /** With the default pattern every token is a non-empty ASCII digit string. */
  lemma DefaultTokensAreNumerals(names: seq<string>)
    ensures forall t :: t in Tokens(names, FirstDigitRun) ==> IsNumeral(t)
  {
    forall t | t in Tokens(names, FirstDigitRun)
      ensures IsNumeral(t)
    {
      DefaultTokens(names, t);
    }
  }

  /** With the default pattern the token set is empty exactly when no name contains a digit. */
  lemma DefaultTokensEmpty(names: seq<string>)
    ensures Tokens(names, FirstDigitRun) == {} <==>
      forall i, k :: 0 <= i < |names| && 0 <= k < |names[i]| ==> !IsDigit(names[i][k])
  {
    forall i | 0 <= i < |names|
      ensures FirstDigitRun(names[i]).Some? ==> FirstDigitRun(names[i]).value in Tokens(names, FirstDigitRun)
    {
    }
  }
}
