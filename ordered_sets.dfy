/**
 * The insertion-ordered set of the platform library (OrderedSet, used as
 * OS_string and OS_AssetFiles), represented by a duplicate-free sequence.
 * `Remove` drops an element wherever it is, `Append` and `Prepend` add an
 * element at one end unless it is already present.
 */
module OrderedSets {

  ghost predicate NoDuplicates<T>(s: seq<T>)
  {
    forall i, j :: 0 <= i < j < |s| ==> s[i] != s[j]
  }

  /** The sequence with every occurrence of `x` removed (OrderedSet::Remove). */
  function Without<T(==,!new)>(s: seq<T>, x: T): (r: seq<T>)
    ensures |r| <= |s|
    ensures forall y :: y in r <==> y in s && y != x
    ensures x !in s ==> r == s
  {
    if s == [] then []
    else if s[0] == x then Without(s[1..], x)
    else [s[0]] + Without(s[1..], x)
  }

  /** OrderedSet::Append: add at the back unless present. */
  function Appended<T(==,!new)>(s: seq<T>, x: T): (r: seq<T>)
    ensures x in r
    ensures forall y :: y in r <==> y in s || y == x
    ensures |s| <= |r| <= |s| + 1 && r[..|s|] == s
    ensures x in s <==> |r| == |s|
  {
    if x in s then s else s + [x]
  }

  /** Appending each element of `xs` in turn. */
  function AppendedAll<T(==,!new)>(s: seq<T>, xs: seq<T>): seq<T>
    decreases |xs|
  {
    if xs == [] then s else AppendedAll(Appended(s, xs[0]), xs[1..])
  }

  lemma {:induction false} WithoutConcat<T(!new)>(a: seq<T>, b: seq<T>, x: T)
    ensures Without(a + b, x) == Without(a, x) + Without(b, x)
  {
    if a != [] {
      assert (a + b)[0] == a[0];
      assert (a + b)[1..] == a[1..] + b;
      WithoutConcat(a[1..], b, x);
    } else {
      assert a + b == b;
    }
  }

  lemma {:induction false} WithoutKeepsNoDuplicates<T(!new)>(s: seq<T>, x: T)
    requires NoDuplicates(s)
    ensures NoDuplicates(Without(s, x))
  {
    if s != [] {
      WithoutKeepsNoDuplicates(s[1..], x);
      var r := Without(s[1..], x);
      assert s[0] !in s[1..] by {
        forall k | 0 <= k < |s[1..]| ensures s[1..][k] != s[0] { assert s[1..][k] == s[k + 1]; }
      }
      assert s[0] !in r;
    }
  }

  /** Removing a present element of a duplicate-free sequence shortens it by one. */
  lemma {:induction false} WithoutLength<T(!new)>(s: seq<T>, x: T)
    requires NoDuplicates(s)
    ensures |Without(s, x)| == if x in s then |s| - 1 else |s|
  {
    if s != [] {
      assert NoDuplicates(s[1..]) by {
        forall i, j | 0 <= i < j < |s[1..]| ensures s[1..][i] != s[1..][j] {
          assert s[1..][i] == s[i + 1] && s[1..][j] == s[j + 1];
        }
      }
      WithoutLength(s[1..], x);
      if s[0] == x {
        assert x !in s[1..] by {
          forall k | 0 <= k < |s[1..]| ensures s[1..][k] != x { assert s[1..][k] == s[k + 1]; }
        }
      } else {
        assert x in s <==> x in s[1..] by { assert s == [s[0]] + s[1..]; }
      }
    }
  }

  /** Removing the front element of a duplicate-free sequence leaves its tail. */
  lemma WithoutFront<T(!new)>(s: seq<T>)
    requires NoDuplicates(s) && s != []
    ensures Without(s, s[0]) == s[1..]
  {
    assert s[0] !in s[1..] by {
      forall k | 0 <= k < |s[1..]| ensures s[1..][k] != s[0] { assert s[1..][k] == s[k + 1]; }
    }
  }

  lemma {:induction false} AppendedAllKeepsNoDuplicates<T(!new)>(s: seq<T>, xs: seq<T>)
    requires NoDuplicates(s)
    ensures NoDuplicates(AppendedAll(s, xs))
    ensures forall y :: y in AppendedAll(s, xs) <==> y in s || y in xs
    ensures |s| <= |AppendedAll(s, xs)| && AppendedAll(s, xs)[..|s|] == s
    decreases |xs|
  {
    if xs != [] {
      var x, rest := xs[0], xs[1..];
      var s' := Appended(s, x);
      AppendedKeepsNoDuplicates(s, x);
      AppendedAllKeepsNoDuplicates(s', rest);
      var r := AppendedAll(s, xs);
      assert r == AppendedAll(s', rest);
      assert forall y :: y in xs <==> y == x || y in rest by { assert xs == [x] + rest; }
      assert |s| <= |s'| && s'[..|s|] == s;
      assert r[..|s|] == r[..|s'|][..|s|];
    }
  }

  lemma {:induction false} AppendedAllSnoc<T(!new)>(s: seq<T>, xs: seq<T>, x: T)
    ensures AppendedAll(s, xs + [x]) == Appended(AppendedAll(s, xs), x)
    decreases |xs|
  {
    if xs == [] {
      assert [x][1..] == [];
    } else {
      assert (xs + [x])[0] == xs[0];
      assert (xs + [x])[1..] == xs[1..] + [x];
      AppendedAllSnoc(Appended(s, xs[0]), xs[1..], x);
    }
  }

  lemma AppendedKeepsNoDuplicates<T(!new)>(s: seq<T>, x: T)
    requires NoDuplicates(s)
    ensures NoDuplicates(Appended(s, x))
  {
  }
}
