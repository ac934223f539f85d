/** `Array.from(new Set(xs)).sort()` on strings: the distinct values of a
    list, in ascending order of JavaScript's default comparison, which
    compares strings character code by character code. */
module Sorting {

  /** Lexicographic order on character codes; a proper prefix comes first. */
  predicate Less(a: string, b: string) {
    if a == [] then b != []
    else if b == [] then false
    else if a[0] != b[0] then a[0] < b[0]
    else Less(a[1..], b[1..])
  }

  lemma {:induction false} LessIrreflexive(a: string)
    ensures !Less(a, a)
  {
    if a != [] {
      LessIrreflexive(a[1..]);
    }
  }

  lemma {:induction false} LessTransitive(a: string, b: string, c: string)
    requires Less(a, b) && Less(b, c)
    ensures Less(a, c)
  {
    if a != [] && b != [] && c != [] && a[0] == b[0] && b[0] == c[0] {
      LessTransitive(a[1..], b[1..], c[1..]);
    }
  }

  lemma {:induction false} LessTotal(a: string, b: string)
    ensures a == b || Less(a, b) || Less(b, a)
  {
    if a != [] && b != [] && a[0] == b[0] {
      LessTotal(a[1..], b[1..]);
      if a[1..] == b[1..] {
        assert a == [a[0]] + a[1..] && b == [b[0]] + b[1..];
      }
    }
  }

  lemma LessAsymmetric(a: string, b: string)
    requires Less(a, b)
    ensures !Less(b, a)
  {
    if Less(b, a) {
      LessTransitive(a, b, a);
      LessIrreflexive(a);
    }
  }

  /** The values a list holds. */
  function Values(xs: seq<string>): set<string> {
    set y | y in xs
  }

  lemma ValuesEmpty(xs: seq<string>)
    ensures Values(xs) == {} <==> xs == []
  {
    if xs != [] {
      assert xs[0] in Values(xs);
    }
  }

  /** Strictly ascending: sorted with no value repeated. */
  ghost predicate StrictlySorted(xs: seq<string>) {
    forall i, j :: 0 <= i < j < |xs| ==> Less(xs[i], xs[j])
  }

  /** A strictly sorted list repeats no value. */
  lemma StrictlySortedDistinct(xs: seq<string>)
    requires StrictlySorted(xs)
    ensures forall i, j :: 0 <= i < j < |xs| ==> xs[i] != xs[j]
  {
    forall i, j | 0 <= i < j < |xs| ensures xs[i] != xs[j] {
      LessIrreflexive(xs[i]);
    }
  }

  /** Inserts `x` into its place in a sorted list, unless it is already there. */
  function Insert(x: string, xs: seq<string>): seq<string> {
    if xs == [] then [x]
    else if x == xs[0] then xs
    else if Less(x, xs[0]) then [x] + xs
    else [xs[0]] + Insert(x, xs[1..])
  }

  lemma {:induction false} InsertSpec(x: string, xs: seq<string>)
    requires StrictlySorted(xs)
    ensures StrictlySorted(Insert(x, xs))
    ensures Values(Insert(x, xs)) == Values(xs) + {x}
  {
    if xs == [] || x == xs[0] {
    } else if Less(x, xs[0]) {
      InsertFront(x, xs);
    } else {
      var tail := xs[1..];
      assert StrictlySorted(tail);
      InsertSpec(x, tail);
      LessTotal(x, xs[0]);
      InsertBehind(x, xs, Insert(x, tail));
    }
  }

  /** A value below the head goes in front. */
  lemma InsertFront(x: string, xs: seq<string>)
    requires StrictlySorted(xs) && xs != [] && Less(x, xs[0])
    ensures StrictlySorted([x] + xs)
    ensures Values([x] + xs) == Values(xs) + {x}
  {
    var r := [x] + xs;
    forall i, j | 0 <= i < j < |r| ensures Less(r[i], r[j]) {
      if i == 0 && j > 1 {
        LessTransitive(x, xs[0], xs[j - 1]);
      }
    }
  }

  /** A value above the head goes behind it, into the sorted tail `rt`. */
  lemma InsertBehind(x: string, xs: seq<string>, rt: seq<string>)
    requires StrictlySorted(xs) && xs != [] && Less(xs[0], x)
    requires StrictlySorted(rt) && Values(rt) == Values(xs[1..]) + {x}
    ensures StrictlySorted([xs[0]] + rt)
    ensures Values([xs[0]] + rt) == Values(xs) + {x}
  {
    var tail := xs[1..];
    forall j | 0 <= j < |rt| ensures Less(xs[0], rt[j]) {
      assert rt[j] in Values(rt);
      if rt[j] != x {
        assert rt[j] in Values(tail);
        var k :| 0 <= k < |tail| && tail[k] == rt[j];
        assert xs[k + 1] == rt[j];
      }
    }
    ConsSorted(xs[0], rt);
    assert xs == [xs[0]] + tail;
    assert Values([xs[0]] + rt) == {xs[0]} + Values(rt);
    assert Values(xs) == {xs[0]} + Values(tail);
  }

  /** A value below every element of a strictly sorted list extends it. */
  lemma ConsSorted(h: string, rt: seq<string>)
    requires StrictlySorted(rt)
    requires forall j :: 0 <= j < |rt| ==> Less(h, rt[j])
    ensures StrictlySorted([h] + rt)
  {
    var r := [h] + rt;
    forall i, j | 0 <= i < j < |r| ensures Less(r[i], r[j]) {
      assert r[j] == rt[j - 1];
      if i > 0 {
        assert r[i] == rt[i - 1];
      }
    }
  }

  /** The distinct values of `xs`, sorted. */
  function SortedDistinct(xs: seq<string>): (r: seq<string>)
    ensures StrictlySorted(r)
    ensures Values(r) == Values(xs)
  {
    if xs == [] then []
    else
      var last := xs[|xs| - 1];
      var init := xs[..|xs| - 1];
      var rest := SortedDistinct(init);
      InsertSpec(last, rest);
      assert xs == init + [last];
      Insert(last, rest)
  }

  /** A strictly sorted list is determined by its set of values: any list
      that is sorted, repeats nothing and holds the same values is equal to
      it. */
  lemma {:induction false} StrictlySortedUnique(a: seq<string>, b: seq<string>)
    requires StrictlySorted(a) && StrictlySorted(b)
    requires Values(a) == Values(b)
    ensures a == b
  {
    ValuesEmpty(a);
    ValuesEmpty(b);
    if a != [] && b != [] {
      assert a[0] in Values(a) && b[0] in Values(b);
      var i :| 0 <= i < |a| && a[i] == b[0];
      var j :| 0 <= j < |b| && b[j] == a[0];
      if i > 0 {
        assert Less(a[0], b[0]);
        if j > 0 {
          assert Less(b[0], a[0]);
          LessAsymmetric(a[0], b[0]);
        }
        LessIrreflexive(a[0]);
      }
      assert a[0] == b[0];
      StrictlySortedDistinct(a);
      StrictlySortedDistinct(b);
      assert Values(a[1..]) == Values(a) - {a[0]} by {
        assert a == [a[0]] + a[1..];
      }
      assert Values(b[1..]) == Values(b) - {b[0]} by {
        assert b == [b[0]] + b[1..];
      }
      StrictlySortedUnique(a[1..], b[1..]);
      assert a == [a[0]] + a[1..] && b == [b[0]] + b[1..];
    }
  }
}
