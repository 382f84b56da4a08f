/** The stable sort that `Array.prototype.sort`, `toSorted` and `_.sortBy` perform, on a numeric key. */
module Sorting {

  function Insert<T>(x: T, s: seq<T>, key: T -> real): seq<T> {
    if s == [] || key(x) <= key(s[0]) then [x] + s
    else [s[0]] + Insert(x, s[1..], key)
  }

  function SortBy<T>(s: seq<T>, key: T -> real): seq<T> {
    if s == [] then [] else Insert(s[0], SortBy(s[1..], key), key)
  }

  ghost predicate Sorted<T>(s: seq<T>, key: T -> real) {
    forall i, j :: 0 <= i < j < |s| ==> key(s[i]) <= key(s[j])
  }

  function Identity(x: real): real {
    x
  }

  lemma {:induction false} InsertPermutes<T>(x: T, s: seq<T>, key: T -> real)
    ensures multiset(Insert(x, s, key)) == multiset(s) + multiset{x}
  {
    if s == [] || key(x) <= key(s[0]) {
    } else {
      InsertPermutes(x, s[1..], key);
      assert s == [s[0]] + s[1..];
    }
  }

  /** No element has a smaller key than x. */
  ghost predicate Leads<T>(x: T, s: seq<T>, other: T -> real) {
    forall y :: y in s ==> other(x) <= other(y)
  }

  lemma ConsSorted<T>(x: T, s: seq<T>, other: T -> real)
    ensures Sorted([x] + s, other) <==> Sorted(s, other) && Leads(x, s, other)
  {
    var all := [x] + s;
    assert forall i :: 0 <= i < |s| ==> all[i + 1] == s[i];
    if Sorted(all, other) {
      forall i, j | 0 <= i < j < |s| ensures other(s[i]) <= other(s[j]) {
        assert other(all[i + 1]) <= other(all[j + 1]);
      }
      forall y | y in s ensures other(x) <= other(y) {
        var i :| 0 <= i < |s| && s[i] == y;
        assert other(all[0]) <= other(all[i + 1]);
      }
    }
  }

  lemma LeadsInserted<T>(h: T, x: T, s: seq<T>, key: T -> real, other: T -> real)
    ensures Leads(h, Insert(x, s, key), other) <==> other(h) <= other(x) && Leads(h, s, other)
  {
    InsertPermutes(x, s, key);
    var all := Insert(x, s, key);
    hide Insert;
    assert x in multiset(all) && forall y :: y in s ==> y in multiset(s) && y in multiset(all);
    assert forall y :: y in all ==> y in multiset(all) && (y == x || y in multiset(s));
  }

  lemma {:induction false} InsertSorts<T>(x: T, s: seq<T>, key: T -> real)
    requires Sorted(s, key)
    ensures Sorted(Insert(x, s, key), key)
  {
    if s == [] || key(x) <= key(s[0]) {
      ConsSorted(x, s, key);
      FirstLeads(x, s, key);
    } else {
      var h, rest := s[0], s[1..];
      assert s == [h] + rest && Insert(x, s, key) == [h] + Insert(x, rest, key);
      hide Insert, Sorted, Leads;
      ConsSorted(h, rest, key);
      InsertSorts(x, rest, key);
      LeadsInserted(h, x, rest, key, key);
      ConsSorted(h, Insert(x, rest, key), key);
    }
  }

  lemma FirstLeads<T>(x: T, s: seq<T>, key: T -> real)
    requires Sorted(s, key) && (s != [] ==> key(x) <= key(s[0]))
    ensures Leads(x, s, key)
  {
    forall y | y in s ensures key(x) <= key(y) {
      var i :| 0 <= i < |s| && s[i] == y;
      assert i > 0 ==> key(s[0]) <= key(s[i]);
    }
  }

  lemma {:induction false} SortBySorts<T>(s: seq<T>, key: T -> real)
    ensures Sorted(SortBy(s, key), key)
    ensures multiset(SortBy(s, key)) == multiset(s)
    ensures |SortBy(s, key)| == |s|
  {
    if s == [] {
    } else {
      SortBySorts(s[1..], key);
      InsertSorts(s[0], SortBy(s[1..], key), key);
      InsertPermutes(s[0], SortBy(s[1..], key), key);
      assert s == [s[0]] + s[1..];
    }
    assert |multiset(SortBy(s, key))| == |multiset(s)|;
  }

  lemma {:induction false} SortSorted<T>(s: seq<T>, key: T -> real)
    requires Sorted(s, key)
    ensures SortBy(s, key) == s
  {
    if s == [] {
    } else {
      SortSorted(s[1..], key);
      assert s == [s[0]] + s[1..];
    }
  }

  /** Elements with equal keys are equal. */
  ghost predicate KeyIdentifies<T>(s: seq<T>, key: T -> real) {
    forall i, j :: 0 <= i < |s| && 0 <= j < |s| && key(s[i]) == key(s[j]) ==> s[i] == s[j]
  }

  /** When the key identifies elements, a multiset has only one sorted arrangement. */
  lemma {:induction false} SortedUnique<T>(a: seq<T>, b: seq<T>, key: T -> real)
    requires multiset(a) == multiset(b)
    requires Sorted(a, key) && Sorted(b, key)
    requires KeyIdentifies(a, key)
    ensures a == b
  {
    SameLength(a, b);
    if a != [] {
      SameHead(a, b, key);
      TailSorted(a, key);
      TailSorted(b, key);
      assert multiset(a[1..]) == multiset(b[1..]);
      SortedUnique(a[1..], b[1..], key);
      SameParts(a, b);
    }
  }

  lemma SameParts<T>(a: seq<T>, b: seq<T>)
    requires a != [] && b != [] && a[0] == b[0] && a[1..] == b[1..]
    ensures a == b
  {
    assert a == [a[0]] + a[1..] && b == [b[0]] + b[1..];
  }

  lemma SameLength<T>(a: seq<T>, b: seq<T>)
    requires multiset(a) == multiset(b)
    ensures |a| == |b|
  {
    assert |multiset(a)| == |a| && |multiset(b)| == |b|;
  }

  lemma TailSorted<T>(a: seq<T>, key: T -> real)
    requires a != [] && Sorted(a, key)
    ensures Sorted(a[1..], key)
    ensures multiset(a[1..]) == multiset(a) - multiset{a[0]}
    ensures KeyIdentifies(a, key) ==> KeyIdentifies(a[1..], key)
  {
    assert a == [a[0]] + a[1..];
  }

  lemma SameHead<T>(a: seq<T>, b: seq<T>, key: T -> real)
    requires a != [] && b != [] && multiset(a) == multiset(b)
    requires Sorted(a, key) && Sorted(b, key)
    requires KeyIdentifies(a, key)
    ensures a[0] == b[0]
  {
    assert a[0] in multiset(b) && b[0] in multiset(a);
    var i :| 0 <= i < |b| && b[i] == a[0];
    var j :| 0 <= j < |a| && a[j] == b[0];
    assert key(b[0]) <= key(b[i]) && key(a[0]) <= key(a[j]);
  }

  lemma SameElements<T>(a: seq<T>, b: seq<T>, key: T -> real)
    requires multiset(a) == multiset(b)
    requires KeyIdentifies(a, key)
    ensures KeyIdentifies(b, key)
  {
    forall i, j | 0 <= i < |b| && 0 <= j < |b| && key(b[i]) == key(b[j]) ensures b[i] == b[j] {
      assert b[i] in multiset(a) && b[j] in multiset(a);
    }
  }

  lemma SortPermutation<T>(a: seq<T>, b: seq<T>, key: T -> real)
    requires multiset(a) == multiset(b)
    requires KeyIdentifies(a, key)
    ensures SortBy(a, key) == SortBy(b, key)
  {
    SortBySorts(a, key);
    SortBySorts(b, key);
    SameElements(a, SortBy(a, key), key);
    SortedUnique(SortBy(a, key), SortBy(b, key), key);
  }

  // ----- Stability

  /** Some occurrence of x comes before one of y. */
  ghost predicate Before<T(!new)>(s: seq<T>, x: T, y: T) {
    exists i, j :: 0 <= i < j < |s| && s[i] == x && s[j] == y
  }

  lemma BeforeCons<T(!new)>(h: T, s: seq<T>, x: T, y: T)
    ensures Before([h] + s, x, y) <==> (x == h && y in s) || Before(s, x, y)
  {
    var all := [h] + s;
    assert forall i :: 0 <= i < |s| ==> all[i + 1] == s[i];
    if Before(all, x, y) {
      var i, j :| 0 <= i < j < |all| && all[i] == x && all[j] == y;
      assert y == s[j - 1];
      if i > 0 {
        assert s[i - 1] == x && s[j - 1] == y;
      }
    }
    if x == h && y in s {
      var j :| 0 <= j < |s| && s[j] == y;
      assert all[0] == x && all[j + 1] == y;
    }
    if Before(s, x, y) {
      var i, j :| 0 <= i < j < |s| && s[i] == x && s[j] == y;
      assert all[i + 1] == x && all[j + 1] == y;
    }
  }

  lemma {:induction false} InsertKeepsOrder<T(!new)>(h: T, s: seq<T>, key: T -> real, x: T, y: T)
    requires Before(Insert(h, s, key), x, y) && key(x) >= key(y)
    ensures Before([h] + s, x, y)
  {
    if s != [] && key(h) > key(s[0]) {
      var rest := s[1..];
      assert s == [s[0]] + rest;
      BeforeCons(s[0], Insert(h, rest, key), x, y);
      BeforeCons(h, s, x, y);
      BeforeCons(s[0], rest, x, y);
      BeforeCons(h, rest, x, y);
      InsertPermutes(h, rest, key);
      assert y in Insert(h, rest, key) ==> y in multiset(Insert(h, rest, key));
      hide Before, Insert;
      if Before(Insert(h, rest, key), x, y) {
        InsertKeepsOrder(h, rest, key, x, y);
      }
    }
  }

  /** Sorting never moves an element before one of the same key that preceded it. */
  lemma {:induction false} SortKeepsOrder<T(!new)>(s: seq<T>, key: T -> real, x: T, y: T)
    requires Before(SortBy(s, key), x, y) && key(x) >= key(y)
    ensures Before(s, x, y)
  {
    if s != [] {
      var rest := s[1..];
      InsertKeepsOrder(s[0], SortBy(rest, key), key, x, y);
      BeforeCons(s[0], SortBy(rest, key), x, y);
      assert s == [s[0]] + rest;
      BeforeCons(s[0], rest, x, y);
      SortBySorts(rest, key);
      assert y in SortBy(rest, key) ==> y in multiset(SortBy(rest, key));
      hide Before, SortBy;
      if Before(SortBy(rest, key), x, y) {
        SortKeepsOrder(rest, key, x, y);
      }
    }
  }

  // ----- Counting

  function CountIf<T>(s: seq<T>, p: T -> bool): (n: nat)
    ensures n <= |s|
  {
    if s == [] then 0 else (if p(s[0]) then 1 else 0) + CountIf(s[1..], p)
  }

  function AtMost(m: real): real -> bool {
    (x: real) => x <= m
  }

  function AtLeast(m: real): real -> bool {
    (x: real) => x >= m
  }

  lemma {:induction false} CountInsert<T>(x: T, s: seq<T>, key: T -> real, p: T -> bool)
    ensures CountIf(Insert(x, s, key), p) == (if p(x) then 1 else 0) + CountIf(s, p)
  {
    if s == [] || key(x) <= key(s[0]) {
      assert ([x] + s)[1..] == s;
    } else {
      CountInsert(x, s[1..], key, p);
      assert Insert(x, s, key)[1..] == Insert(x, s[1..], key);
    }
  }

  lemma {:induction false} CountSorted<T>(s: seq<T>, key: T -> real, p: T -> bool)
    ensures CountIf(SortBy(s, key), p) == CountIf(s, p)
  {
    if s != [] {
      CountSorted(s[1..], key, p);
      CountInsert(s[0], SortBy(s[1..], key), key, p);
    }
  }

  /** If `p` holds everywhere in a slice, it is counted at least as often as the slice is long. */
  lemma {:induction false} CountSlice<T>(s: seq<T>, p: T -> bool, from: nat, to: nat)
    requires from <= to <= |s| && forall i :: from <= i < to ==> p(s[i])
    ensures CountIf(s, p) >= to - from
  {
    if from < to {
      CountSlice(s[1..], p, if from == 0 then 0 else from - 1, to - 1);
    }
  }

  /** If `p` holds only in a prefix, it is counted at most as often as the prefix is long. */
  lemma {:induction false} CountPrefixOnly<T>(s: seq<T>, p: T -> bool, k: nat)
    requires k <= |s| && forall i :: k <= i < |s| ==> !p(s[i])
    ensures CountIf(s, p) <= k
  {
    if s != [] {
      CountPrefixOnly(s[1..], p, if k == 0 then 0 else k - 1);
    }
  }
}
