/**
 * Splitting a string at a one-character delimiter and joining fields with it.
 *
 * `Tokenize` stands for the regular-expression tokenizer of Common/String/Tokenize.h,
 * which is not part of this model. It is assumed to work as a token iterator
 * over the parts between matches, with the part after the last match as a
 * final token: the parts between two delimiters are kept even when empty, an
 * empty remainder after a delimiter is not produced, and the empty string,
 * which has no match, yields a single empty token.
 */
module Tokenizer {

  /** Number of occurrences of `d` in `s`. */
  function Count(s: string, d: char): nat
  {
    if s == [] then 0 else (if s[0] == d then 1 else 0) + Count(s[1..], d)
  }

  /** The fields of `s` between occurrences of `d`, empty ones included. */
  function Fields(s: string, d: char): (fs: seq<string>)
    ensures |fs| == Count(s, d) + 1
    ensures forall k :: 0 <= k < |fs| ==> d !in fs[k]
  {
    if s == [] then [[]]
    else if s[0] == d then [[]] + Fields(s[1..], d)
    else
      var rest := Fields(s[1..], d);
      [[s[0]] + rest[0]] + rest[1..]
  }

  /** The fields joined with `d` between each consecutive pair. */
  function Join(xs: seq<string>, d: char): string
  {
    if |xs| == 0 then []
    else if |xs| == 1 then xs[0]
    else xs[0] + [d] + Join(xs[1..], d)
  }

  /**
   * The tokens a regular-expression split of `s` at `d` produces: the fields,
   * except that a string ending in the delimiter has no token after it. The
   * empty string gives one empty token.
   */
  function Tokenize(s: string, d: char): (ts: seq<string>)
    ensures s == [] ==> ts == [[]]
    ensures s != [] && s[|s| - 1] == d ==> ts + [[]] == Fields(s, d)
    ensures s != [] && s[|s| - 1] != d ==> ts == Fields(s, d)
    ensures forall k :: 0 <= k < |ts| ==> d !in ts[k]
  {
    var fs := Fields(s, d);
    if s != [] && s[|s| - 1] == d then
      FieldsLast(s, d);
      fs[..|fs| - 1]
    else
      fs
  }

  /** The last field is empty exactly when the string ends in the delimiter. */
  lemma {:induction false} FieldsLast(s: string, d: char)
    requires s != []
    ensures var fs := Fields(s, d); fs[|fs| - 1] == [] <==> s[|s| - 1] == d
  {
    if |s| > 1 {
      FieldsLast(s[1..], d);
      assert s[1..][|s| - 2] == s[|s| - 1];
      if s[0] != d && s[|s| - 1] == d {
        CountLast(s[1..], d);
      }
    }
  }

  /** A string ending in the delimiter contains it at least once. */
  lemma {:induction false} CountLast(s: string, d: char)
    requires s != [] && s[|s| - 1] == d
    ensures Count(s, d) >= 1
  {
    if |s| > 1 && s[0] != d {
      assert s[1..][|s| - 2] == s[|s| - 1];
      CountLast(s[1..], d);
    }
  }

  lemma {:induction false} FieldsOfUndelimited(s: string, d: char)
    requires d !in s
    ensures Fields(s, d) == [s]
  {
    if s != [] {
      FieldsOfUndelimited(s[1..], d);
      assert [s[0]] + s[1..] == s;
    }
  }

  /** A delimiter splits the fields of what precedes it from the fields of what follows. */
  lemma {:induction false} FieldsOfConcat(a: string, b: string, d: char)
    ensures Fields(a + [d] + b, d) == Fields(a, d) + Fields(b, d)
  {
    if a == [] {
      assert a + [d] + b == [d] + b;
      assert ([d] + b)[1..] == b;
    } else {
      var s := a + [d] + b;
      assert s[0] == a[0];
      assert s[1..] == a[1..] + [d] + b;
      FieldsOfConcat(a[1..], b, d);
    }
  }

  lemma {:induction false} JoinSnoc(xs: seq<string>, x: string, d: char)
    requires |xs| >= 1
    ensures Join(xs + [x], d) == Join(xs, d) + [d] + x
  {
    if |xs| == 1 {
      assert (xs + [x])[1..] == [x];
    } else {
      assert (xs + [x])[1..] == xs[1..] + [x];
      JoinSnoc(xs[1..], x, d);
    }
  }

  /** One more field of a join, as the loops that build a joined string add it. */
  lemma JoinPrefix(xs: seq<string>, k: nat, d: char)
    requires k < |xs|
    ensures Join(xs[..k + 1], d) == if k == 0 then xs[0] else Join(xs[..k], d) + [d] + xs[k]
  {
    assert xs[..k + 1] == xs[..k] + [xs[k]];
    if k > 0 {
      JoinSnoc(xs[..k], xs[k], d);
    }
  }

  /** Joining fields free of the delimiter and splitting again gives the fields back. */
  lemma {:induction false} FieldsOfJoin(xs: seq<string>, d: char)
    requires |xs| >= 1
    requires forall k :: 0 <= k < |xs| ==> d !in xs[k]
    ensures Fields(Join(xs, d), d) == xs
  {
    if |xs| == 1 {
      FieldsOfUndelimited(xs[0], d);
    } else {
      FieldsOfJoin(xs[1..], d);
      FieldsOfUndelimited(xs[0], d);
      FieldsOfConcat(xs[0], Join(xs[1..], d), d);
      assert [xs[0]] + xs[1..] == xs;
    }
  }

  /** There is one delimiter between each consecutive pair of delimiter-free fields. */
  lemma DelimitersOfJoin(xs: seq<string>, d: char)
    requires |xs| >= 1
    requires forall k :: 0 <= k < |xs| ==> d !in xs[k]
    ensures Count(Join(xs, d), d) == |xs| - 1
  {
    FieldsOfJoin(xs, d);
  }

  /**
   * Tokenizing joined delimiter-free fields gives the fields back, except that
   * an empty last field is dropped.
   */
  lemma TokenizeJoin(xs: seq<string>, d: char)
    requires |xs| >= 2
    requires forall k :: 0 <= k < |xs| ==> d !in xs[k]
    ensures Tokenize(Join(xs, d), d) == if xs[|xs| - 1] == [] then xs[..|xs| - 1] else xs
  {
    FieldsOfJoin(xs, d);
    assert d in Join(xs, d) by {
      assert Join(xs, d) == xs[0] + [d] + Join(xs[1..], d);
      assert Join(xs, d)[|xs[0]|] == d;
    }
    FieldsLast(Join(xs, d), d);
  }

  /** Token k of a join of delimiter-free fields is field k; only an empty last field has no token. */
  lemma TokenizeJoinAligned(xs: seq<string>, d: char)
    requires |xs| >= 2
    requires forall k :: 0 <= k < |xs| ==> d !in xs[k]
    ensures var ts := Tokenize(Join(xs, d), d);
      && |ts| <= |xs|
      && (forall k :: 0 <= k < |ts| ==> ts[k] == xs[k])
      && (forall k :: 0 <= k < |xs| && xs[k] != [] ==> k < |ts|)
  {
    TokenizeJoin(xs, d);
  }

  /** A join of non-empty fields is empty exactly when there are no fields. */
  lemma {:induction false} JoinEmpty(xs: seq<string>, d: char)
    requires forall k :: 0 <= k < |xs| ==> xs[k] != []
    ensures Join(xs, d) == [] <==> xs == []
  {
    if |xs| >= 2 {
      assert |Join(xs, d)| >= |xs[0]| + 1;
    }
  }

  /** A join starts with the first field and ends with the last one: no leading or trailing delimiter of its own. */
  lemma {:induction false} JoinEnds(xs: seq<string>, d: char)
    requires |xs| >= 1
    ensures var j := Join(xs, d);
      && |j| >= |xs[0]| && j[..|xs[0]|] == xs[0]
      && |j| >= |xs[|xs| - 1]| && j[|j| - |xs[|xs| - 1]|..] == xs[|xs| - 1]
  {
    if |xs| >= 2 {
      JoinEnds(xs[1..], d);
      var j := Join(xs, d);
      assert j == xs[0] + [d] + Join(xs[1..], d);
      assert xs[1..][|xs[1..]| - 1] == xs[|xs| - 1];
    }
  }
}
