/** The two sorts the reports call: Python's `sorted(..., key=k, reverse=True)` on a natural-number
    key, which is stable (equal keys keep their input order), and `sorted` on distinct strings,
    which compares code point by code point. */
module Sorting {
  import opened Text

  // ----- stable sort by a descending key -----

  predicate SortedDesc<T>(xs: seq<T>, key: T -> nat)
  {
    forall i, j :: 0 <= i < j < |xs| ==> key(xs[i]) >= key(xs[j])
  }

  /** `x` placed after every element whose key is at least its own. */
  function InsertDesc<T>(s: seq<T>, x: T, key: T -> nat): seq<T>
  {
    if s == [] then [x]
    else if key(s[0]) >= key(x) then [s[0]] + InsertDesc(s[1..], x, key)
    else [x] + s
  }

  /** `sorted(xs, key=key, reverse=True)`. */
  function SortDesc<T>(xs: seq<T>, key: T -> nat): seq<T>
  {
    if xs == [] then [] else InsertDesc(SortDesc(xs[..|xs| - 1], key), xs[|xs| - 1], key)
  }

  /** The elements with key `k`, in order. */
  function WithKey<T>(xs: seq<T>, key: T -> nat, k: nat): seq<T>
  {
    if xs == [] then [] else (if key(xs[0]) == k then [xs[0]] else []) + WithKey(xs[1..], key, k)
  }

  lemma {:induction false} WithKeyAppend<T>(a: seq<T>, b: seq<T>, key: T -> nat, k: nat)
    ensures WithKey(a + b, key, k) == WithKey(a, key, k) + WithKey(b, key, k)
  {
    if a != [] {
      assert (a + b)[1..] == a[1..] + b;
      WithKeyAppend(a[1..], b, key, k);
    } else {
      assert a + b == b;
    }
  }

  lemma {:induction false} WithKeyNone<T>(xs: seq<T>, key: T -> nat, k: nat)
    requires forall i :: 0 <= i < |xs| ==> key(xs[i]) < k
    ensures WithKey(xs, key, k) == []
  {
    if xs != [] {
      WithKeyNone(xs[1..], key, k);
    }
  }

  lemma {:induction false} InsertDescPermutes<T>(s: seq<T>, x: T, key: T -> nat)
    ensures multiset(InsertDesc(s, x, key)) == multiset(s) + multiset{x}
  {
    if s != [] && key(s[0]) >= key(x) {
      InsertDescPermutes(s[1..], x, key);
      assert s == [s[0]] + s[1..];
    }
  }

  /** Inserting an element keeps every key within a bound that all the keys respect. */
  lemma {:induction false} InsertDescBelow<T>(s: seq<T>, x: T, key: T -> nat, b: nat)
    requires forall i :: 0 <= i < |s| ==> key(s[i]) <= b
    requires key(x) <= b
    ensures forall i :: 0 <= i < |InsertDesc(s, x, key)| ==> key(InsertDesc(s, x, key)[i]) <= b
  {
    if s != [] && key(s[0]) >= key(x) {
      InsertDescBelow(s[1..], x, key, b);
      assert InsertDesc(s, x, key) == [s[0]] + InsertDesc(s[1..], x, key);
    }
  }

  lemma {:induction false} InsertDescSorted<T>(s: seq<T>, x: T, key: T -> nat)
    requires SortedDesc(s, key)
    ensures SortedDesc(InsertDesc(s, x, key), key)
  {
    if s != [] && key(s[0]) >= key(x) {
      var t := InsertDesc(s[1..], x, key);
      assert SortedDesc(s[1..], key);
      InsertDescSorted(s[1..], x, key);
      assert forall i :: 0 <= i < |s[1..]| ==> key(s[1..][i]) <= key(s[0]) by {
        forall i | 0 <= i < |s[1..]|
          ensures key(s[1..][i]) <= key(s[0])
        {
          assert s[1..][i] == s[i + 1];
        }
      }
      InsertDescBelow(s[1..], x, key, key(s[0]));
      var r := InsertDesc(s, x, key);
      assert r == [s[0]] + t;
      forall i, j | 0 <= i < j < |r|
        ensures key(r[i]) >= key(r[j])
      {
        assert r[j] == t[j - 1];
        if i > 0 {
          assert r[i] == t[i - 1];
          assert key(t[i - 1]) >= key(t[j - 1]);
        } else {
          assert r[i] == s[0];
        }
      }
    } else if s != [] {
      assert InsertDesc(s, x, key) == [x] + s;
    }
  }

  lemma {:induction false} InsertDescWithKey<T>(s: seq<T>, x: T, key: T -> nat, k: nat)
    requires SortedDesc(s, key)
    ensures WithKey(InsertDesc(s, x, key), key, k) == WithKey(s, key, k) + (if key(x) == k then [x] else [])
  {
    var r := InsertDesc(s, x, key);
    if s == [] {
      assert r == [x];
      assert [x][1..] == [];
    } else if key(s[0]) >= key(x) {
      InsertDescWithKey(s[1..], x, key, k);
      assert r[1..] == InsertDesc(s[1..], x, key);
    } else {
      assert r[1..] == s;
      if key(x) == k {
        WithKeyNone(s, key, k);
      }
    }
  }

  /** The sort's result is ordered by descending key. */
  lemma {:induction false} SortDescSorted<T>(xs: seq<T>, key: T -> nat)
    ensures SortedDesc(SortDesc(xs, key), key)
    ensures multiset(SortDesc(xs, key)) == multiset(xs)
  {
    if xs != [] {
      var init := xs[..|xs| - 1];
      SortDescSorted(init, key);
      InsertDescSorted(SortDesc(init, key), xs[|xs| - 1], key);
      InsertDescPermutes(SortDesc(init, key), xs[|xs| - 1], key);
      assert xs == init + [xs[|xs| - 1]];
    }
  }

  /** Stability: the elements of each key come out in their input order. */
  lemma {:induction false} SortDescStable<T>(xs: seq<T>, key: T -> nat, k: nat)
    ensures WithKey(SortDesc(xs, key), key, k) == WithKey(xs, key, k)
  {
    if xs != [] {
      var init := xs[..|xs| - 1];
      var x := xs[|xs| - 1];
      var single := if key(x) == k then [x] else [];
      SortDescSorted(init, key);
      calc {
        WithKey(SortDesc(xs, key), key, k);
        WithKey(InsertDesc(SortDesc(init, key), x, key), key, k);
        { InsertDescWithKey(SortDesc(init, key), x, key, k); }
        WithKey(SortDesc(init, key), key, k) + single;
        { SortDescStable(init, key, k); }
        WithKey(init, key, k) + single;
        { WithKeyAppend(init, [x], key, k); WithKeySingle(x, key, k); }
        WithKey(init + [x], key, k);
        { assert xs == init + [x]; }
        WithKey(xs, key, k);
      }
    }
  }

  lemma WithKeySingle<T>(x: T, key: T -> nat, k: nat)
    ensures WithKey([x], key, k) == if key(x) == k then [x] else []
  {
    assert [x][1..] == [];
  }

  /** The first `cap` elements of a descending sort carry keys no smaller than any element after
      them: the shown items are the top ones. */
  lemma SortDescPrefixIsTop<T>(xs: seq<T>, key: T -> nat, cap: nat)
    ensures var r := SortDesc(xs, key);
            forall i, j :: 0 <= i < cap && cap <= j < |r| ==> key(r[i]) >= key(r[j])
  {
    SortDescSorted(xs, key);
  }

  // ----- ascending sort of strings -----

  predicate StrictlyAscending(xs: seq<string>)
  {
    forall i, j :: 0 <= i < j < |xs| ==> StrLess(xs[i], xs[j])
  }

  /** `x` placed before the first element above it. */
  function InsertStr(s: seq<string>, x: string): seq<string>
  {
    if s == [] then [x]
    else if StrLess(s[0], x) then [s[0]] + InsertStr(s[1..], x)
    else [x] + s
  }

  /** `sorted(keys)` on strings. */
  function SortStrings(keys: seq<string>): seq<string>
  {
    if keys == [] then [] else InsertStr(SortStrings(keys[..|keys| - 1]), keys[|keys| - 1])
  }

  lemma {:induction false} InsertStrPermutes(s: seq<string>, x: string)
    ensures multiset(InsertStr(s, x)) == multiset(s) + multiset{x}
  {
    if s != [] && StrLess(s[0], x) {
      InsertStrPermutes(s[1..], x);
      assert s == [s[0]] + s[1..];
    }
  }

  lemma {:induction false} InsertStrSorted(s: seq<string>, x: string)
    requires StrictlyAscending(s) && x !in s
    ensures StrictlyAscending(InsertStr(s, x))
  {
    var r := InsertStr(s, x);
    if s == [] {
      assert r == [x];
    } else if StrLess(s[0], x) {
      var t := InsertStr(s[1..], x);
      assert s == [s[0]] + s[1..];
      InsertStrSorted(s[1..], x);
      InsertStrPermutes(s[1..], x);
      assert r == [s[0]] + t;
      forall i | 0 <= i < |t|
        ensures StrLess(s[0], t[i])
      {
        assert t[i] in multiset(s[1..]) + multiset{x};
        if t[i] in multiset(s[1..]) {
          var j :| 0 <= j < |s[1..]| && s[1..][j] == t[i];
          assert s[1..][j] == s[j + 1];
        }
      }
    } else {
      assert r == [x] + s;
      StrLessTotal(s[0], x);
      forall j | 0 <= j < |s|
        ensures StrLess(x, s[j])
      {
        if j > 0 {
          StrLessTransitive(x, s[0], s[j]);
        }
      }
    }
  }

  /** Sorting keeps exactly the keys it was given. */
  lemma {:induction false} SortStringsPermutes(keys: seq<string>)
    ensures multiset(SortStrings(keys)) == multiset(keys)
  {
    if keys != [] {
      var init := keys[..|keys| - 1];
      SortStringsPermutes(init);
      assert keys == init + [keys[|keys| - 1]];
      InsertStrPermutes(SortStrings(init), keys[|keys| - 1]);
    }
  }

  /** Distinct keys come out in strictly ascending order. */
  lemma {:induction false} SortStringsSorted(keys: seq<string>)
    requires forall i, j :: 0 <= i < j < |keys| ==> keys[i] != keys[j]
    ensures StrictlyAscending(SortStrings(keys))
  {
    if keys != [] {
      var init := keys[..|keys| - 1];
      var x := keys[|keys| - 1];
      SortStringsSorted(init);
      SortStringsPermutes(init);
      assert keys == init + [x];
      assert x !in multiset(init);
      InsertStrSorted(SortStrings(init), x);
    }
  }
}
