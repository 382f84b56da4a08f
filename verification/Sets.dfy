/** Sets of the elements of sequences, and sizes of sets. */
module Sets {

  function ToSet<T(==)>(s: seq<T>): set<T> {
    set x | x in s
  }

  lemma SubsetSize<T>(a: set<T>, b: set<T>)
    requires a <= b
    ensures |a| <= |b|
  {
    assert b == a + (b - a);
    assert |b| == |a| + |b - a|;
  }

  lemma DisjointSizes<T(!new)>(a: set<T>, b: set<T>)
    requires a * b == {}
    ensures a !! b && |a + b| == |a| + |b|
  {
    forall x ensures !(x in a && x in b) {
      assert x in a * b <==> x in a && x in b;
    }
  }

  function Union<T(==)>(parts: seq<set<T>>): set<T> {
    if parts == [] then {} else Union(parts[..|parts| - 1]) + parts[|parts| - 1]
  }

  function TotalSize<T>(parts: seq<set<T>>): nat {
    if parts == [] then 0 else TotalSize(parts[..|parts| - 1]) + |parts[|parts| - 1]|
  }

  /** The parts have no element in common with the base or with each other. */
  ghost predicate Separate<T>(base: set<T>, parts: seq<set<T>>) {
    && (forall i :: 0 <= i < |parts| ==> base * parts[i] == {})
    && (forall i, j :: 0 <= i < j < |parts| ==> parts[i] * parts[j] == {})
  }

  lemma TwoSizes<T>(a: set<T>, b: set<T>)
    ensures |a + b| <= |a| + |b|
    ensures |a + b| == |a| + |b| <==> a * b == {}
  {
    assert |a + b| + |a * b| == |a| + |b|;
  }

  lemma {:induction false} UnionMembers<T(!new)>(parts: seq<set<T>>, x: T)
    ensures x in Union(parts) <==> exists i :: 0 <= i < |parts| && x in parts[i]
  {
    if parts != [] {
      UnionMembers(parts[..|parts| - 1], x);
    }
  }

  lemma UnionNext<T>(parts: seq<set<T>>, part: set<T>)
    ensures Union(parts + [part]) == Union(parts) + part
  {
    assert (parts + [part])[..|parts|] == parts;
  }

  lemma SeparateLast<T(!new)>(base: set<T>, parts: seq<set<T>>)
    requires parts != []
    ensures var n := |parts| - 1;
            Separate(base, parts) <==> Separate(base, parts[..n]) && (base + Union(parts[..n])) * parts[n] == {}
  {
    var n := |parts| - 1;
    var init, last := parts[..n], parts[n];
    if Separate(base, parts) {
      assert base * last == {};
      forall x ensures x !in (base + Union(init)) * last {
        UnionMembers(init, x);
        assert x in base * last <==> x in base && x in last;
        assert forall i :: 0 <= i < n && x in init[i] && x in last ==> x in parts[i] * parts[n];
      }
      assert (base + Union(init)) * last == {};
    }
    if Separate(base, init) && (base + Union(init)) * last == {} {
      forall i | 0 <= i < n ensures parts[i] * last == {} {
        forall x ensures x !in parts[i] * last {
          UnionMembers(init, x);
          assert x in init[i] && x in last ==> x in (base + Union(init)) * last;
        }
      }
      forall x ensures x !in base * last {
        assert x in base && x in last ==> x in (base + Union(init)) * last;
      }
      assert base * last == {};
      forall i, j | 0 <= i < j < |parts| ensures parts[i] * parts[j] == {} {
        assert j < n ==> init[i] * init[j] == {};
      }
      forall i | 0 <= i < |parts| ensures base * parts[i] == {} {
        assert i < n ==> base * init[i] == {};
      }
    }
  }

  /** All together are as large as the sum of the sizes exactly when they are separate. */
  lemma {:induction false} UnionSizeExactly<T(!new)>(base: set<T>, parts: seq<set<T>>)
    ensures |base + Union(parts)| <= |base| + TotalSize(parts)
    ensures |base + Union(parts)| == |base| + TotalSize(parts) <==> Separate(base, parts)
  {
    if parts == [] {
      assert base + Union(parts) == base;
    } else {
      var n := |parts| - 1;
      UnionSizeExactly(base, parts[..n]);
      SeparateLast(base, parts);
      TwoSizes(base + Union(parts[..n]), parts[n]);
      assert base + Union(parts) == base + Union(parts[..n]) + parts[n];
      hide Separate;
    }
  }
}
