/**
 Python's ordering of `str` values (code point by code point, a proper prefix
 first) and the builtin `sorted` applied to the keys of a dictionary.
 */
module StringOrder {

  /** `a < b` on Python strings. */
  predicate Less(a: string, b: string)
  {
    if |a| == 0 then |b| > 0
    else if |b| == 0 then false
    else a[0] < b[0] || (a[0] == b[0] && Less(a[1..], b[1..]))
  }

  lemma {:induction false} LessIrreflexive(a: string)
    ensures !Less(a, a)
  {
    if |a| > 0 {
      LessIrreflexive(a[1..]);
    }
  }

  lemma {:induction false} LessAsymmetric(a: string, b: string)
    ensures !(Less(a, b) && Less(b, a))
  {
    if |a| > 0 && |b| > 0 && a[0] == b[0] {
      LessAsymmetric(a[1..], b[1..]);
    }
  }

  lemma {:induction false} LessTransitive(a: string, b: string, c: string)
    requires Less(a, b) && Less(b, c)
    ensures Less(a, c)
  {
    if |a| > 0 && a[0] == b[0] && b[0] == c[0] {
      LessTransitive(a[1..], b[1..], c[1..]);
    }
  }

  lemma {:induction false} LessTotal(a: string, b: string)
    ensures a == b || Less(a, b) || Less(b, a)
  {
    if |a| > 0 && |b| > 0 && a[0] == b[0] {
      LessTotal(a[1..], b[1..]);
      if a[1..] == b[1..] {
        assert a == [a[0]] + a[1..] && b == [b[0]] + b[1..];
      }
    }
  }

  /**
   Comparing two concatenations whose first parts have the same length:
   the first parts decide, and the second parts break a tie.
   */
  lemma {:induction false} LessConcat(a: string, x: string, b: string, y: string)
    requires |a| == |b|
    ensures Less(a + x, b + y) <==> Less(a, b) || (a == b && Less(x, y))
  {
    if |a| == 0 {
      assert a + x == x && b + y == y;
    } else {
      assert (a + x)[0] == a[0] && (b + y)[0] == b[0];
      assert (a + x)[1..] == a[1..] + x && (b + y)[1..] == b[1..] + y;
      LessConcat(a[1..], x, b[1..], y);
      if a[0] == b[0] && a[1..] == b[1..] {
        assert a == [a[0]] + a[1..] && b == [b[0]] + b[1..];
      }
      if a == b {
        assert a[1..] == b[1..];
      }
    }
  }

  predicate StrictlyIncreasing(s: seq<string>)
  {
    forall i, j :: 0 <= i < j < |s| ==> Less(s[i], s[j])
  }

  /** `m` is the smallest element of `ks`. */
  predicate IsLeast(m: string, ks: set<string>)
  {
    m in ks && forall y :: y in ks && y != m ==> Less(m, y)
  }

  lemma {:induction false} LeastExists(ks: set<string>)
    requires ks != {}
    ensures exists m :: IsLeast(m, ks)
    decreases ks
  {
    var x :| x in ks;
    if ks != {x} {
      var rest := ks - {x};
      LeastExists(rest);
      var m :| IsLeast(m, rest);
      LessTotal(m, x);
      if Less(m, x) {
        assert IsLeast(m, ks);
      } else {
        forall y | y in ks && y != x
          ensures Less(x, y)
        {
          if y != m {
            LessTransitive(x, m, y);
          }
        }
        assert IsLeast(x, ks);
      }
    } else {
      assert IsLeast(x, ks);
    }
  }

  lemma LeastUnique(ks: set<string>)
    ensures forall m, n :: IsLeast(m, ks) && IsLeast(n, ks) ==> m == n
  {
    forall m, n | IsLeast(m, ks) && IsLeast(n, ks)
      ensures m == n
    {
      if m != n {
        LessAsymmetric(m, n);
      }
    }
  }

  /** The smallest key of a non-empty set of keys. */
  function Least(ks: set<string>): (m: string)
    requires ks != {}
    ensures IsLeast(m, ks)
  {
    LeastExists(ks);
    LeastUnique(ks);
    var m :| IsLeast(m, ks); m
  }

  /**
   `sorted(d.keys())`: every key exactly once, in strictly increasing order.
   */
  function SortedKeys(ks: set<string>): (r: seq<string>)
    ensures |r| == |ks|
    ensures forall k :: k in r <==> k in ks
    ensures StrictlyIncreasing(r)
    decreases ks
  {
    if ks == {} then []
    else
      var m := Least(ks);
      [m] + SortedKeys(ks - {m})
  }

  /**
   The sorted key list is the only strictly increasing list holding exactly
   the keys, so any correct sort (Python's Timsort included) gives it.
   */
  lemma {:induction false} SortedKeysUnique(s: seq<string>, ks: set<string>)
    requires StrictlyIncreasing(s)
    requires forall k :: k in s <==> k in ks
    ensures s == SortedKeys(ks)
    decreases ks
  {
    if |s| == 0 {
      assert ks == {};
    } else {
      HeadIsLeast(s, ks);
      TailMembers(s, ks);
      SortedKeysUnique(s[1..], ks - {s[0]});
      SortedKeysCons(ks, s[0]);
      calc {
        s;
        [s[0]] + s[1..];
        [s[0]] + SortedKeys(ks - {s[0]});
      }
    }
  }

  /** A sorted listing starts with the least key. */
  lemma SortedKeysCons(ks: set<string>, m: string)
    requires IsLeast(m, ks)
    ensures SortedKeys(ks) == [m] + SortedKeys(ks - {m})
  {
    LeastUnique(ks);
  }

  /** The first element of a strictly increasing listing of `ks` is its least key. */
  lemma HeadIsLeast(s: seq<string>, ks: set<string>)
    requires StrictlyIncreasing(s) && |s| > 0
    requires forall k :: k in s <==> k in ks
    ensures IsLeast(s[0], ks)
  {
    assert s[0] in ks;
    forall y | y in ks && y != s[0]
      ensures Less(s[0], y)
    {
      var j :| 0 <= j < |s| && s[j] == y;
    }
  }

  /** The rest of a strictly increasing listing of `ks` lists `ks` without its head. */
  lemma TailMembers(s: seq<string>, ks: set<string>)
    requires StrictlyIncreasing(s) && |s| > 0
    requires forall k :: k in s <==> k in ks
    ensures StrictlyIncreasing(s[1..])
    ensures forall k :: k in s[1..] <==> k in ks - {s[0]}
  {
    var tail := s[1..];
    forall k
      ensures k in tail <==> k in ks - {s[0]}
    {
      if k in tail {
        var j :| 0 <= j < |tail| && tail[j] == k;
        assert s[j + 1] == k;
        assert Less(s[0], s[j + 1]);
        LessIrreflexive(k);
      }
      if k in ks - {s[0]} {
        assert k in s;
        var j :| 0 <= j < |s| && s[j] == k;
        assert j != 0;
        assert tail[j - 1] == k;
      }
    }
  }
}
