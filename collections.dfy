/** Small value types shared by the other modules: an optional value and the
    insertion-ordered sets that JavaScript's `Set` provides, kept as sequences
    without duplicates. */
module Collections {

  datatype Option<+T> = None | Some(value: T)

  /** No element occurs twice. */
  predicate Distinct<T(==)>(s: seq<T>) {
    forall i, j :: 0 <= i < j < |s| ==> s[i] != s[j]
  }

  /** `Set.prototype.add` on an insertion-ordered set: a new element goes to the
      end, an element already present keeps its place. */
  function Added<T(==)>(s: seq<T>, x: T): (r: seq<T>)
    ensures x in r && forall y :: y in s ==> y in r
    ensures forall y :: y in r ==> y in s || y == x
    ensures Distinct(s) ==> Distinct(r)
    ensures x in s ==> r == s
    ensures x !in s ==> r == s + [x]
  {
    if x in s then s else s + [x]
  }

  /** `Set.prototype.delete` on an insertion-ordered set: `x` is dropped and the
      order of the other elements is kept; deleting an absent element is a no-op. */
  function Without<T(==)>(s: seq<T>, x: T): (r: seq<T>)
    ensures forall y :: y in r ==> y in s && y != x
    ensures forall y :: y in s && y != x ==> y in r
    ensures x !in s ==> r == s
    ensures Distinct(s) ==> Distinct(r)
    ensures Distinct(s) && x in s ==> |r| == |s| - 1
  {
    if s == [] then []
    else if s[0] == x then Without(s[1..], x)
    else
      var rest := Without(s[1..], x);
      assert Distinct(s) ==> Distinct(s[1..]) && s[0] !in s[1..] && s[0] !in rest;
      assert s[0] in s;
      [s[0]] + rest
  }

  /** Deleting the only element a sequence holds leaves it empty. */
  lemma WithoutOnly<T>(s: seq<T>, x: T)
    requires forall y :: y in s ==> y == x
    ensures Without(s, x) == []
  {
    if Without(s, x) != [] {
      assert Without(s, x)[0] in Without(s, x);
    }
  }

  /** Deleting the element at position `k` of a sequence without duplicates
      cuts it out there: the other elements keep their order. */
  lemma {:induction false} WithoutKeepsOrder<T>(s: seq<T>, x: T, k: nat)
    requires Distinct(s) && k < |s| && s[k] == x
    ensures Without(s, x) == s[..k] + s[k + 1..]
  {
    var t := s[1..];
    DistinctTail(s);
    if k == 0 {
      WithoutFirst(s, x);
    } else {
      assert s[0] != s[k];
      WithoutKeepsOrder(t, x, k - 1);
      WithoutOther(s, x);
      assert s[..k] == [s[0]] + t[..k - 1];
      assert s[k + 1..] == t[k..];
    }
  }

  /** The tail of a sequence without duplicates has none either, and does not
      hold the head. */
  lemma DistinctTail<T>(s: seq<T>)
    requires Distinct(s) && s != []
    ensures Distinct(s[1..]) && s[0] !in s[1..]
  {
  }

  lemma WithoutFirst<T>(s: seq<T>, x: T)
    requires s != [] && s[0] == x && x !in s[1..]
    ensures Without(s, x) == s[..0] + s[0 + 1..]
  {
    assert s[..0] + s[1..] == s[1..];
  }

  lemma WithoutOther<T>(s: seq<T>, x: T)
    requires s != [] && s[0] != x
    ensures Without(s, x) == [s[0]] + Without(s[1..], x)
  {
  }

  /** A sequence without duplicates has exactly as many elements as the set of
      its elements. */
  lemma {:induction false} DistinctCardinality<T>(s: seq<T>)
    requires Distinct(s)
    ensures |set x | x in s| == |s|
  {
    if s != [] {
      DistinctCardinality(s[1..]);
      assert (set x | x in s) == (set x | x in s[1..]) + {s[0]};
      assert s[0] !in (set x | x in s[1..]);
    }
  }
}
