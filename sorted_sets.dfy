/**
 * std::set<std::string> (S_string): a set of strings kept in ascending
 * lexicographic order, represented by a strictly ascending sequence, its
 * in-order traversal.
 */
module SortedSets {

  /** std::string's operator<: lexicographic on characters, a proper prefix first. */
  predicate Less(a: string, b: string)
  {
    if a == [] then b != []
    else b != [] && (a[0] < b[0] || (a[0] == b[0] && Less(a[1..], b[1..])))
  }

  lemma {:induction false} LessIrreflexive(a: string)
    ensures !Less(a, a)
  {
    if a != [] { LessIrreflexive(a[1..]); }
  }

  lemma {:induction false} LessTransitive(a: string, b: string, c: string)
    requires Less(a, b) && Less(b, c)
    ensures Less(a, c)
  {
    if a != [] && a[0] == b[0] && b[0] == c[0] {
      LessTransitive(a[1..], b[1..], c[1..]);
    }
  }

  lemma {:induction false} LessTotal(a: string, b: string)
    ensures a == b || Less(a, b) || Less(b, a)
  {
    if a != [] && b != [] && a[0] == b[0] {
      LessTotal(a[1..], b[1..]);
      if a[1..] == b[1..] {
        assert a == [a[0]] + a[1..] && b == [b[0]] + b[1..];
      }
    }
  }

  ghost predicate StrictlySorted(s: seq<string>)
  {
    forall i, j :: 0 <= i < j < |s| ==> Less(s[i], s[j])
  }

  /** std::set::insert: the element at its ordered place, unless already present. */
  function Insert(s: seq<string>, x: string): (r: seq<string>)
    ensures forall y :: y in r <==> y in s || y == x
    ensures |r| <= |s| + 1
  {
    if s == [] then [x]
    else if x == s[0] then s
    else if Less(x, s[0]) then [x] + s
    else [s[0]] + Insert(s[1..], x)
  }

  /** Inserting each element of `xs` in turn. */
  function InsertAll(s: seq<string>, xs: seq<string>): seq<string>
    decreases |xs|
  {
    if xs == [] then s else InsertAll(Insert(s, xs[0]), xs[1..])
  }

  /** Members of a strictly sorted sequence all follow its first element. */
  lemma HeadIsLeast(s: seq<string>, y: string)
    requires StrictlySorted(s) && s != [] && y in s
    ensures y == s[0] || Less(s[0], y)
  {
  }

  /** Insertion keeps the sequence strictly sorted and adds exactly `x`. */
  lemma {:induction false} InsertSorted(s: seq<string>, x: string)
    requires StrictlySorted(s)
    ensures StrictlySorted(Insert(s, x))
  {
    if s != [] {
      if x != s[0] && !Less(x, s[0]) {
        LessTotal(x, s[0]);
        InsertSorted(s[1..], x);
        var t := Insert(s[1..], x);
        forall j | 0 <= j < |t| ensures Less(s[0], t[j]) {
          assert t[j] in s[1..] || t[j] == x;
          if t[j] in s[1..] {
            var k :| 0 <= k < |s[1..]| && s[1..][k] == t[j];
            assert s[1..][k] == s[k + 1];
          }
        }
      } else if Less(x, s[0]) {
        forall j | 0 < j < |s| ensures Less(x, s[j]) { LessTransitive(x, s[0], s[j]); }
      }
    }
  }

  lemma {:induction false} InsertAllSorted(s: seq<string>, xs: seq<string>)
    requires StrictlySorted(s)
    ensures StrictlySorted(InsertAll(s, xs))
    ensures forall y :: y in InsertAll(s, xs) <==> y in s || y in xs
    decreases |xs|
  {
    if xs != [] {
      InsertSorted(s, xs[0]);
      InsertAllSorted(Insert(s, xs[0]), xs[1..]);
      assert forall y :: y in xs <==> y == xs[0] || y in xs[1..] by { assert xs == [xs[0]] + xs[1..]; }
    }
  }

  /** A set has a single ascending enumeration: two strictly sorted sequences with the same members are equal. */
  lemma {:induction false} SortedUnique(s: seq<string>, t: seq<string>)
    requires StrictlySorted(s) && StrictlySorted(t)
    requires forall y :: y in s <==> y in t
    ensures s == t
  {
    assert s != [] ==> s[0] in t;
    assert t != [] ==> t[0] in s;
    if s != [] && t != [] {
      HeadIsLeast(s, t[0]);
      HeadIsLeast(t, s[0]);
      if s[0] != t[0] {
        LessTransitive(s[0], t[0], s[0]);
        LessIrreflexive(s[0]);
      }
      forall y ensures y in s[1..] <==> y in t[1..] {
        if y in s[1..] {
          var k :| 0 <= k < |s[1..]| && s[1..][k] == y;
          assert s[k + 1] == y;
          assert y != s[0] by { LessIrreflexive(y); }
          assert y in t;
          assert t == [t[0]] + t[1..];
        }
        if y in t[1..] {
          var k :| 0 <= k < |t[1..]| && t[1..][k] == y;
          assert t[k + 1] == y;
          assert y != t[0] by { LessIrreflexive(y); }
          assert y in s;
          assert s == [s[0]] + s[1..];
        }
      }
      SortedUnique(s[1..], t[1..]);
      assert s == [s[0]] + s[1..] && t == [t[0]] + t[1..];
    }
  }

  /** Inserting an element that is already present leaves the sequence as it was. */
  lemma {:induction false} InsertPresent(s: seq<string>, x: string)
    requires StrictlySorted(s) && x in s
    ensures Insert(s, x) == s
  {
    if x != s[0] {
      HeadIsLeast(s, x);
      if Less(x, s[0]) {
        LessTransitive(x, s[0], x);
        LessIrreflexive(x);
      }
      assert x in s[1..] by { assert s == [s[0]] + s[1..]; }
      InsertPresent(s[1..], x);
      assert [s[0]] + s[1..] == s;
    }
  }
}
