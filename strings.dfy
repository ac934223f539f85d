/** The string operations the page components use: `split(c)` and `pop()`,
    `startsWith`, `endsWith`, `includes`, and ASCII `toLowerCase` /
    `toUpperCase`. Strings are sequences of characters. */
module Strings {

  /** `s.startsWith(p)` */
  predicate StartsWith(s: string, p: string) {
    |p| <= |s| && s[..|p|] == p
  }

  /** `s.endsWith(p)`; also "p is a suffix of s". */
  predicate EndsWith(s: string, p: string) {
    |p| <= |s| && s[|s| - |p|..] == p
  }

  /** `t` occurs in `s` starting at index `i`. */
  ghost predicate OccursAt(s: string, t: string, i: int) {
    0 <= i && i + |t| <= |s| && s[i..i + |t|] == t
  }

  /** `s.includes(t)` */
  function Contains(s: string, t: string): bool
    decreases |s|
  {
    StartsWith(s, t) || (s != [] && Contains(s[1..], t))
  }

  /** `includes` holds exactly when `t` occurs at some index of `s`. */
  lemma {:induction false} ContainsIff(s: string, t: string)
    ensures Contains(s, t) <==> exists i :: OccursAt(s, t, i)
    decreases |s|
  {
    if StartsWith(s, t) {
      assert OccursAt(s, t, 0);
    } else if s != [] {
      ContainsIff(s[1..], t);
      if Contains(s[1..], t) {
        var i :| OccursAt(s[1..], t, i);
        assert s[1..][i..i + |t|] == s[i + 1..i + 1 + |t|];
        assert OccursAt(s, t, i + 1);
      }
      if exists i :: OccursAt(s, t, i) {
        var i :| OccursAt(s, t, i);
        if i > 0 {
          assert s[1..][i - 1..i - 1 + |t|] == s[i..i + |t|];
          assert OccursAt(s[1..], t, i - 1);
        }
      }
    }
  }

  // ---------------------------------------------------------------------
  // split and pop
  // ---------------------------------------------------------------------

  /** `s.split(sep)` for a one-character separator: the maximal runs of
      non-separator characters, always at least one (possibly empty). */
  function Split(s: string, sep: char): (parts: seq<string>)
    ensures |parts| >= 1
  {
    if s == [] then [[]]
    else
      var rest := Split(s[1..], sep);
      if s[0] == sep then [[]] + rest
      else [[s[0]] + rest[0]] + rest[1..]
  }

  /** `parts.join(sep)` */
  function Join(parts: seq<string>, sep: char): string
    requires |parts| >= 1
  {
    if |parts| == 1 then parts[0] else parts[0] + [sep] + Join(parts[1..], sep)
  }

  /** Joining the pieces of a split gives back the original string. */
  lemma {:induction false} JoinSplit(s: string, sep: char)
    ensures Join(Split(s, sep), sep) == s
  {
    if s != [] {
      var rest := Split(s[1..], sep);
      JoinSplit(s[1..], sep);
      if s[0] == sep {
        assert Split(s, sep)[1..] == rest;
      } else {
        var parts := Split(s, sep);
        if |rest| == 1 {
          assert parts == [[s[0]] + rest[0]];
        } else {
          assert parts[1..] == rest[1..];
          assert Join(rest, sep) == rest[0] + [sep] + Join(rest[1..], sep);
        }
      }
    }
  }

  /** No piece of a split contains the separator. */
  lemma {:induction false} SplitPiecesFree(s: string, sep: char)
    ensures forall k :: 0 <= k < |Split(s, sep)| ==> sep !in Split(s, sep)[k]
  {
    if s != [] {
      SplitPiecesFree(s[1..], sep);
    }
  }

  /** `s.split(sep).pop()`: the text after the last separator, or all of `s`. */
  function LastSegment(s: string, sep: char): string {
    var parts := Split(s, sep);
    parts[|parts| - 1]
  }

  /** `split(sep).pop()` is empty exactly when the string is empty or ends
      in `sep`. */
  lemma LastSegmentEmpty(s: string, sep: char)
    ensures LastSegment(s, sep) == [] <==> s == [] || s[|s| - 1] == sep
  {
    LastSegmentSpec(s, sep);
  }

  /** How the last segment of `s` relates to that of `s[1..]`. */
  lemma LastSegmentStep(s: string, sep: char)
    requires s != []
    ensures s[0] != sep && sep !in s[1..] ==> LastSegment(s, sep) == [s[0]] + LastSegment(s[1..], sep)
    ensures s[0] == sep || sep in s[1..] ==> LastSegment(s, sep) == LastSegment(s[1..], sep)
  {
    SplitOneIffFree(s[1..], sep);
  }

  /** The last segment is the longest separator-free suffix: it is a suffix,
      it holds no separator, and it is either all of `s` (when `s` has no
      separator) or immediately preceded by a separator. */
  lemma {:induction false} LastSegmentSpec(s: string, sep: char)
    ensures EndsWith(s, LastSegment(s, sep))
    ensures sep !in LastSegment(s, sep)
    ensures sep !in s ==> LastSegment(s, sep) == s
    ensures sep in s ==> |LastSegment(s, sep)| < |s| &&
                         s[|s| - |LastSegment(s, sep)| - 1] == sep
  {
    if s != [] {
      var r := LastSegment(s, sep);
      var t := s[1..];
      var r' := LastSegment(t, sep);
      LastSegmentSpec(t, sep);
      LastSegmentStep(s, sep);
      assert s == [s[0]] + t;
      if s[0] != sep && sep !in t {
        assert r == [s[0]] + t;
      } else if sep in t {
        assert r == r';
        assert s[|s| - |r| - 1] == t[|t| - |r'| - 1];
        assert s[|s| - |r|..] == t[|t| - |r'|..];
      } else {
        assert r == r' == t;
      }
    }
  }

  /** A split has a single piece exactly when there is no separator. */
  lemma {:induction false} SplitOneIffFree(s: string, sep: char)
    ensures |Split(s, sep)| == 1 <==> sep !in s
  {
    if s != [] {
      SplitOneIffFree(s[1..], sep);
      assert sep in s <==> s[0] == sep || sep in s[1..] by {
        assert s == [s[0]] + s[1..];
      }
    }
  }

  /** When `s` ends with a separator followed by separator-free `q`, the last
      segment is `q`. */
  lemma LastSegmentOfSuffix(s: string, sep: char, q: string)
    requires EndsWith(s, [sep] + q)
    requires sep !in q
    ensures LastSegment(s, sep) == q
  {
    LastSegmentSpec(s, sep);
    var r := LastSegment(s, sep);
    assert s[|s| - |q| - 1] == sep;
    assert sep in s;
    assert r == s[|s| - |r|..] == q;
  }

  // ---------------------------------------------------------------------
  // case mapping (ASCII letters only)
  // ---------------------------------------------------------------------

  function LowerChar(c: char): char {
    if 'A' <= c <= 'Z' then (c as int + 32) as char else c
  }

  function UpperChar(c: char): char {
    if 'a' <= c <= 'z' then (c as int - 32) as char else c
  }

  /** `s.toLowerCase()` */
  function ToLower(s: string): (r: string)
    ensures |r| == |s|
  {
    seq(|s|, i requires 0 <= i < |s| => LowerChar(s[i]))
  }

  /** `s.toUpperCase()` */
  function ToUpper(s: string): (r: string)
    ensures |r| == |s|
  {
    seq(|s|, i requires 0 <= i < |s| => UpperChar(s[i]))
  }

  /** Case mapping commutes with taking a suffix. */
  lemma ToUpperSuffix(s: string, k: nat)
    requires k <= |s|
    ensures ToUpper(s[k..]) == ToUpper(s)[k..]
  {
  }

  lemma ToLowerSuffix(s: string, k: nat)
    requires k <= |s|
    ensures ToLower(s[k..]) == ToLower(s)[k..]
  {
  }

  /** Every character of an occurrence is a character of the text. */
  lemma ContainsChars(s: string, t: string, k: int)
    requires Contains(s, t) && 0 <= k < |t|
    ensures t[k] in s
  {
    ContainsIff(s, t);
    var i :| OccursAt(s, t, i);
    assert t[k] == s[i + k];
  }

  /** A character that case mapping leaves alone and that no other
      character maps to: neither an upper- nor a lower-case ASCII letter. */
  predicate Caseless(c: char) {
    !('A' <= c <= 'Z') && !('a' <= c <= 'z')
  }

  /** If `t` shows up in a text without letters, then `t` is the only string
      with its lower-case form: a case-insensitive comparison and an exact
      one agree on it. */
  lemma CaselessOccurrence(d: string, t: string, u: string)
    requires forall i :: 0 <= i < |d| ==> Caseless(d[i])
    requires Contains(d, t)
    requires ToLower(t) == ToLower(u)
    ensures u == t
  {
    ContainsIff(d, t);
    var i :| OccursAt(d, t, i);
    assert |u| == |t|;
    forall k | 0 <= k < |t| ensures u[k] == t[k] {
      assert t[k] == d[i + k];
      assert ToLower(u)[k] == LowerChar(u[k]) && ToLower(t)[k] == LowerChar(t[k]);
      assert LowerChar(t[k]) == t[k];
    }
  }
}
