/** Ruby's `Array#uniq` and a filter (`Without`), the array operations shared by the allow-list and the route helper. */
module Arrays {

  /** No element occurs twice. */
  predicate NoDups<T(==, !new)>(s: seq<T>) {
    forall i, j :: 0 <= i < j < |s| ==> s[i] != s[j]
  }

  /**
   * `Array#uniq`: the elements of `s` with every repetition after the first
   * occurrence removed, in the order of first occurrence.
   */
  function Uniq<T(==, !new)>(s: seq<T>): (r: seq<T>)
    ensures forall x :: x in r <==> x in s
    ensures |r| <= |s|
    decreases |s|
  {
    if s == [] then []
    else
      var u := Uniq(s[..|s| - 1]);
      var x := s[|s| - 1];
      assert forall y :: y in s <==> y in s[..|s| - 1] || y == x by {
        assert s == s[..|s| - 1] + [x];
      }
      if x in u then u else u + [x]
  }

  /** `uniq` leaves no element twice. */
  lemma {:induction false} UniqNoDups<T(!new)>(s: seq<T>)
    ensures NoDups(Uniq(s))
    decreases |s|
  {
    if s != [] {
      UniqNoDups(s[..|s| - 1]);
    }
  }

  /** The elements of `s` that do not occur in `excluded`, in their order in `s`. */
  function Without<T(==, !new)>(s: seq<T>, excluded: seq<T>): (r: seq<T>)
    ensures forall x :: x in r <==> x in s && x !in excluded
    ensures |r| <= |s|
    decreases |s|
  {
    if s == [] then []
    else
      var rest := Without(s[..|s| - 1], excluded);
      var x := s[|s| - 1];
      assert forall y :: y in s <==> y in s[..|s| - 1] || y == x by {
        assert s == s[..|s| - 1] + [x];
      }
      if x in excluded then rest else rest + [x]
  }

  lemma {:induction false} WithoutAppend<T(!new)>(a: seq<T>, b: seq<T>, excluded: seq<T>)
    ensures Without(a + b, excluded) == Without(a, excluded) + Without(b, excluded)
    decreases |b|
  {
    if b == [] {
      assert a + b == a;
    } else {
      var b' := b[..|b| - 1];
      assert (a + b)[..|a + b| - 1] == a + b';
      WithoutAppend(a, b', excluded);
    }
  }

  /** Filtering out values that do not occur leaves the sequence as it was. */
  lemma {:induction false} WithoutNothingToRemove<T(!new)>(s: seq<T>, excluded: seq<T>)
    requires forall x :: x in s ==> x !in excluded
    ensures Without(s, excluded) == s
    decreases |s|
  {
    if s != [] {
      var s' := s[..|s| - 1];
      assert forall x :: x in s' ==> x in s;
      WithoutNothingToRemove(s', excluded);
      assert s == s' + [s[|s| - 1]];
    }
  }

  /** `uniq` leaves an array that already has no duplicates unchanged. */
  lemma {:induction false} UniqOfNoDups<T(!new)>(s: seq<T>)
    requires NoDups(s)
    ensures Uniq(s) == s
    decreases |s|
  {
    if s != [] {
      var s' := s[..|s| - 1];
      assert NoDups(s');
      UniqOfNoDups(s');
      assert s[|s| - 1] !in s';
    }
  }

  /**
   * `(a + b).uniq` keeps the de-duplicated `a` first and then appends, in
   * first-occurrence order, only the elements of `b` that are not in `a`.
   */
  lemma {:induction false} UniqAppend<T(!new)>(a: seq<T>, b: seq<T>)
    ensures Uniq(a + b) == Uniq(a) + Without(Uniq(b), a)
    decreases |b|
  {
    if b == [] {
      assert a + b == a;
    } else {
      var b' := b[..|b| - 1];
      var x := b[|b| - 1];
      assert (a + b)[..|a + b| - 1] == a + b';
      assert (a + b)[|a + b| - 1] == x;
      assert b[..|b| - 1] == b';
      UniqAppend(a, b');
      if x in a {
      } else if x in b' {
      } else {
        WithoutAppend(Uniq(b'), [x], a);
        assert Without([x], a) == [x] by {
          assert [x][..0] == [];
        }
      }
    }
  }

  /** Applying `uniq` twice is the same as applying it once. */
  lemma UniqIdempotent<T(!new)>(s: seq<T>)
    ensures Uniq(Uniq(s)) == Uniq(s)
  {
    UniqNoDups(s);
    UniqOfNoDups(Uniq(s));
  }
}
