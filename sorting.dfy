/** `Array.prototype.sort` with a comparator on a string key, as the
    listings use it: `(a, b) => key(a).localeCompare(key(b))`. The sort is
    stable, as JavaScript's is; the key order is `Text.StrLe`. */
module Sorting {
  import opened Text

  /** Ascending by key: every earlier element's key is at most every later one's. */
  ghost predicate SortedBy<T>(s: seq<T>, key: T -> string)
  {
    forall i, j :: 0 <= i < j < |s| ==> StrLe(key(s[i]), key(s[j]))
  }

  /** Every key in `s` is at least `b`. */
  ghost predicate AllAtLeast<T>(b: string, s: seq<T>, key: T -> string)
  {
    forall i :: 0 <= i < |s| ==> StrLe(b, key(s[i]))
  }

  /** Places `x` before the first element whose key is not smaller than its own. */
  function Insert<T>(x: T, s: seq<T>, key: T -> string): (r: seq<T>)
    ensures multiset(r) == multiset(s) + multiset{x}
  {
    if s == [] then [x]
    else if StrLe(key(x), key(s[0])) then [x] + s
    else assert s == [s[0]] + s[1..]; [s[0]] + Insert(x, s[1..], key)
  }

  /** Insertion sort by key. */
  function SortBy<T>(s: seq<T>, key: T -> string): (r: seq<T>)
    ensures multiset(r) == multiset(s)
  {
    if s == [] then []
    else assert s == [s[0]] + s[1..]; Insert(s[0], SortBy(s[1..], key), key)
  }

  lemma {:induction false} InsertAtLeast<T>(b: string, x: T, s: seq<T>, key: T -> string)
    requires AllAtLeast(b, s, key) && StrLe(b, key(x))
    ensures AllAtLeast(b, Insert(x, s, key), key)
  {
    if s != [] && !StrLe(key(x), key(s[0])) {
      InsertAtLeast(b, x, s[1..], key);
    }
  }

  lemma {:induction false} InsertSorted<T>(x: T, s: seq<T>, key: T -> string)
    requires SortedBy(s, key)
    ensures SortedBy(Insert(x, s, key), key)
  {
    if s == [] {
    } else if StrLe(key(x), key(s[0])) {
      forall j | 0 <= j < |s| ensures StrLe(key(x), key(s[j])) {
        if j > 0 { StrLeTransitive(key(x), key(s[0]), key(s[j])); }
      }
    } else {
      StrLeTotal(key(x), key(s[0]));
      InsertSorted(x, s[1..], key);
      InsertAtLeast(key(s[0]), x, s[1..], key);
      var r := Insert(x, s[1..], key);
      assert Insert(x, s, key) == [s[0]] + r;
    }
  }

  /** The result of `SortBy` is in ascending key order. */
  lemma {:induction false} SortBySorted<T>(s: seq<T>, key: T -> string)
    ensures SortedBy(SortBy(s, key), key)
  {
    if s != [] {
      SortBySorted(s[1..], key);
      InsertSorted(s[0], SortBy(s[1..], key), key);
    }
  }

  /** Sorting keeps exactly the elements it was given. */
  lemma SortByMembership<T>(s: seq<T>, key: T -> string)
    ensures |SortBy(s, key)| == |s|
    ensures forall x :: x in SortBy(s, key) <==> x in s
  {
    var r := SortBy(s, key);
    assert |multiset(r)| == |multiset(s)|;
    forall x ensures x in r <==> x in s {
      assert x in r <==> x in multiset(r);
      assert x in s <==> x in multiset(s);
    }
  }
}
