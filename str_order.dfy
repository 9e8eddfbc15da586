/** Python's ordering of `str` values and what `sorted` returns for a set of strings. */
module StrOrder {

  /** `a < b` on Python strings: lexicographic on code points, a proper prefix is smaller. */
  predicate Less(a: string, b: string)
    decreases |a|
  {
    if |a| == 0 then |b| > 0
    else if |b| == 0 then false
    else if a[0] != b[0] then a[0] < b[0]
    else Less(a[1..], b[1..])
  }

  lemma {:induction false} LessIrreflexive(a: string)
    ensures !Less(a, a)
    decreases |a|
  {
    if |a| > 0 {
      LessIrreflexive(a[1..]);
    }
  }

  lemma {:induction false} LessTransitive(a: string, b: string, c: string)
    requires Less(a, b) && Less(b, c)
    ensures Less(a, c)
    decreases |a|
  {
    if |a| > 0 && a[0] == b[0] && b[0] == c[0] {
      LessTransitive(a[1..], b[1..], c[1..]);
    }
  }

  lemma {:induction false} LessTotal(a: string, b: string)
    requires a != b
    ensures Less(a, b) || Less(b, a)
    decreases |a|
  {
    if |a| > 0 && |b| > 0 && a[0] == b[0] {
      assert a == [a[0]] + a[1..] && b == [b[0]] + b[1..];
      LessTotal(a[1..], b[1..]);
    }
  }

  /** a and b agree on their first k characters, and a ends there while b goes on, or a's next character is smaller. */
  predicate SmallerAt(a: string, b: string, k: nat)
  {
    k <= |a| && k <= |b| && a[..k] == b[..k] &&
    ((k == |a| && k < |b|) || (k < |a| && k < |b| && a[k] < b[k]))
  }

  /**
   * The usual reading of string `<`: either a is a proper prefix of b, or at the first position
   * where they differ a has the smaller code point.
   */
  lemma {:induction false} LessFirstDifference(a: string, b: string)
    ensures Less(a, b) <==> exists k: nat :: SmallerAt(a, b, k)
    decreases |a|
  {
    if |a| == 0 {
      if Less(a, b) {
        assert SmallerAt(a, b, 0);
      }
    } else if |b| == 0 {
    } else if a[0] != b[0] {
      if Less(a, b) {
        assert SmallerAt(a, b, 0);
      }
      assert forall k: nat :: 0 < k <= |a| && k <= |b| && a[..k] == b[..k] ==> a[..k][0] == a[0] && b[..k][0] == b[0];
    } else {
      var a', b' := a[1..], b[1..];
      LessFirstDifference(a', b');
      if Less(a, b) {
        var k: nat :| SmallerAt(a', b', k);
        assert a[..k + 1] == [a[0]] + a'[..k];
        assert b[..k + 1] == [b[0]] + b'[..k];
        assert SmallerAt(a, b, k + 1);
      }
      if exists k: nat :: SmallerAt(a, b, k) {
        var k: nat :| SmallerAt(a, b, k);
        assert k >= 1;
        assert a'[..k - 1] == a[..k][1..];
        assert b'[..k - 1] == b[..k][1..];
        assert SmallerAt(a', b', k - 1);
      }
    }
  }

  lemma LessAsymmetric(a: string, b: string)
    requires Less(a, b)
    ensures !Less(b, a)
  {
    if Less(b, a) {
      LessTransitive(a, b, a);
      LessIrreflexive(a);
    }
  }

  /** The set of strings a list holds. */
  function Elements(xs: seq<string>): set<string>
  {
    set x | x in xs
  }

  predicate StrictlyAscending(xs: seq<string>)
  {
    forall i, j :: 0 <= i < j < |xs| ==> Less(xs[i], xs[j])
  }

  predicate StrictlyDescending(xs: seq<string>)
  {
    forall i, j :: 0 <= i < j < |xs| ==> Less(xs[j], xs[i])
  }

  /** Putting a string in front of an ascending list keeps it ascending when it is below the head. */
  lemma ConsAscending(a: string, xs: seq<string>)
    requires StrictlyAscending(xs)
    requires xs != [] ==> Less(a, xs[0])
    ensures StrictlyAscending([a] + xs)
  {
    var ys := [a] + xs;
    forall i, j | 0 <= i < j < |ys|
      ensures Less(ys[i], ys[j])
    {
      if i == 0 && j > 1 {
        LessTransitive(a, xs[0], xs[j - 1]);
      }
    }
  }

  /** m is the smallest member of S. */
  predicate IsLeast(m: string, S: set<string>)
  {
    m in S && forall y :: y in S && y != m ==> Less(m, y)
  }

  lemma {:induction false} LeastExists(S: set<string>)
    requires S != {}
    ensures exists m :: IsLeast(m, S)
    decreases S
  {
    var x :| x in S;
    if S == {x} {
      assert IsLeast(x, S);
    } else {
      LeastExists(S - {x});
      var m :| IsLeast(m, S - {x});
      if Less(x, m) {
        forall y | y in S && y != x
          ensures Less(x, y)
        {
          if y != m {
            LessTransitive(x, m, y);
          }
        }
        assert IsLeast(x, S);
      } else {
        LessTotal(x, m);
        assert IsLeast(m, S);
      }
    }
  }

  lemma LeastUnique()
    ensures forall m, n, S :: IsLeast(m, S) && IsLeast(n, S) ==> m == n
  {
    forall m, n, S | IsLeast(m, S) && IsLeast(n, S)
      ensures m == n
    {
      if m != n {
        LessAsymmetric(m, n);
      }
    }
  }

  lemma ElementsCons(x: string, xs: seq<string>)
    ensures Elements([x] + xs) == {x} + Elements(xs)
  {
    assert forall y :: y in [x] + xs <==> y == x || y in xs;
  }

  /** The least member of S in front of an ascending listing of the others lists S in ascending order. */
  lemma SortedStep(S: set<string>, m: string, rest: seq<string>)
    requires IsLeast(m, S)
    requires StrictlyAscending(rest) && Elements(rest) == S - {m} && |rest| == |S - {m}|
    ensures StrictlyAscending([m] + rest) && Elements([m] + rest) == S && |[m] + rest| == |S|
  {
    ElementsCons(m, rest);
    assert rest != [] ==> rest[0] in Elements(rest);
    ConsAscending(m, rest);
  }

  /** `sorted(S)` for a set of strings: the members of S in ascending order. */
  function Sorted(S: set<string>): (r: seq<string>)
    ensures StrictlyAscending(r)
    ensures Elements(r) == S
    ensures |r| == |S|
    decreases S
  {
    if S == {} then []
    else
      LeastExists(S);
      LeastUnique();
      var m :| IsLeast(m, S);
      var rest := Sorted(S - {m});
      SortedStep(S, m, rest);
      [m] + rest
  }

  /** The list read back to front. */
  function Reversed(xs: seq<string>): (r: seq<string>)
    ensures |r| == |xs|
    ensures forall k :: 0 <= k < |xs| ==> r[k] == xs[|xs| - 1 - k]
  {
    if xs == [] then [] else Reversed(xs[1..]) + [xs[0]]
  }

  /** Read back to front, a strictly ascending list is strictly descending and holds the same strings. */
  lemma ReversedAscending(xs: seq<string>)
    requires StrictlyAscending(xs)
    ensures StrictlyDescending(Reversed(xs))
    ensures Elements(Reversed(xs)) == Elements(xs)
  {
    var r := Reversed(xs);
    forall i, j | 0 <= i < j < |r|
      ensures Less(r[j], r[i])
    {
      assert r[i] == xs[|xs| - 1 - i] && r[j] == xs[|xs| - 1 - j];
    }
    forall x
      ensures x in r <==> x in xs
    {
      if x in xs {
        var k :| 0 <= k < |xs| && xs[k] == x;
        assert r[|xs| - 1 - k] == x;
      }
    }
  }

  /** `sorted(S, reverse=reverse)` for a set of strings. */
  function SortedBy(S: set<string>, reverse: bool): (r: seq<string>)
    ensures Elements(r) == S && |r| == |S|
    ensures !reverse ==> StrictlyAscending(r)
    ensures reverse ==> StrictlyDescending(r)
  {
    var up := Sorted(S);
    if reverse then
      ReversedAscending(up);
      Reversed(up)
    else up
  }

  /** Any two strictly ascending lists of the same strings are equal: `sorted` is determined by its set. */
  lemma {:induction false} SortedUnique(xs: seq<string>, ys: seq<string>)
    requires StrictlyAscending(xs) && StrictlyAscending(ys)
    requires Elements(xs) == Elements(ys)
    ensures xs == ys
    decreases |xs|
  {
    if xs == [] {
      assert forall k :: 0 <= k < |ys| ==> ys[k] in Elements(ys);
    } else {
      assert xs[0] in Elements(ys);
      assert ys != [];
      assert ys[0] in Elements(xs);
      var k :| 0 <= k < |ys| && ys[k] == xs[0];
      var j :| 0 <= j < |xs| && xs[j] == ys[0];
      if k > 0 {
        assert Less(ys[0], xs[0]);
        if j == 0 {
          LessIrreflexive(xs[0]);
        } else {
          LessAsymmetric(xs[0], xs[j]);
        }
      }
      assert xs[0] == ys[0];
      forall x
        ensures x in xs[1..] <==> x in ys[1..]
      {
        if x in xs[1..] {
          var i :| 1 <= i < |xs| && xs[i] == x;
          LessIrreflexive(xs[0]);
          assert x != xs[0];
          assert x in Elements(ys);
          var i' :| 0 <= i' < |ys| && ys[i'] == x;
          assert ys[1..][i' - 1] == x;
        }
        if x in ys[1..] {
          var i :| 1 <= i < |ys| && ys[i] == x;
          LessIrreflexive(ys[0]);
          assert x != ys[0];
          assert x in Elements(xs);
          var i' :| 0 <= i' < |xs| && xs[i'] == x;
          assert xs[1..][i' - 1] == x;
        }
      }
      assert Elements(xs[1..]) == Elements(ys[1..]);
      SortedUnique(xs[1..], ys[1..]);
      assert xs == [xs[0]] + xs[1..] && ys == [ys[0]] + ys[1..];
    }
  }

  /** Read back to front, a strictly descending list is strictly ascending and holds the same strings. */
  lemma ReversedDescending(xs: seq<string>)
    requires StrictlyDescending(xs)
    ensures StrictlyAscending(Reversed(xs))
    ensures Elements(Reversed(xs)) == Elements(xs)
  {
    var r := Reversed(xs);
    forall i, j | 0 <= i < j < |r|
      ensures Less(r[i], r[j])
    {
      assert r[i] == xs[|xs| - 1 - i] && r[j] == xs[|xs| - 1 - j];
    }
    forall x
      ensures x in r <==> x in xs
    {
      if x in xs {
        var k :| 0 <= k < |xs| && xs[k] == x;
        assert r[|xs| - 1 - k] == x;
      }
    }
  }

  /** Any two strictly descending lists of the same strings are equal: `sorted(..., reverse=True)` is determined by its set. */
  lemma SortedDescendingUnique(xs: seq<string>, ys: seq<string>)
    requires StrictlyDescending(xs) && StrictlyDescending(ys)
    requires Elements(xs) == Elements(ys)
    ensures xs == ys
  {
    ReversedDescending(xs);
    ReversedDescending(ys);
    SortedUnique(Reversed(xs), Reversed(ys));
    forall k | 0 <= k < |xs|
      ensures xs[k] == ys[k]
    {
      assert Reversed(xs)[|xs| - 1 - k] == xs[k];
    }
  }
}
