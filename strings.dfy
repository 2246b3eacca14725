/**
 * The two Python string operations the URL builder relies on:
 * `s.split(c)` for a one-character separator and `s.replace(pat, "")`.
 */
module Strings {

  /** Number of occurrences of `c` in `s`. */
  function CountChar(s: string, c: char): nat
    decreases |s|
  {
    if |s| == 0 then 0 else (if s[0] == c then 1 else 0) + CountChar(s[1..], c)
  }

  /** Python's `s.split(c)`: the maximal runs between separators, empty runs included. */
  function Split(s: string, c: char): (parts: seq<string>)
    ensures |parts| >= 1
    decreases |s|
  {
    if |s| == 0 then [""]
    else
      var rest := Split(s[1..], c);
      if s[0] == c then [""] + rest else [[s[0]] + rest[0]] + rest[1..]
  }

  /** Python's `c.join(parts)`. */
  function Join(parts: seq<string>, c: char): string
    requires |parts| >= 1
    decreases |parts|
  {
    if |parts| == 1 then parts[0] else parts[0] + [c] + Join(parts[1..], c)
  }

  /** No part contains the separator. */
  predicate SeparatorFree(parts: seq<string>, c: char) {
    forall i :: 0 <= i < |parts| ==> c !in parts[i]
  }

  /** Splitting yields one part more than there are separators, none containing the separator. */
  lemma {:induction false} SplitShape(s: string, c: char)
    ensures |Split(s, c)| == CountChar(s, c) + 1
    ensures SeparatorFree(Split(s, c), c)
    decreases |s|
  {
    if |s| > 0 {
      SplitShape(s[1..], c);
      var rest := Split(s[1..], c);
      if s[0] != c {
        assert c !in [s[0]] + rest[0];
      }
    }
  }

  /** Joining the parts of a split gives back the original string. */
  lemma {:induction false} JoinSplit(s: string, c: char)
    ensures Join(Split(s, c), c) == s
    decreases |s|
  {
    if |s| > 0 {
      JoinSplit(s[1..], c);
      var rest := Split(s[1..], c);
      if s[0] == c {
        assert Split(s, c)[1..] == rest;
      } else {
        var parts := Split(s, c);
        assert parts[1..] == rest[1..];
        if |rest| > 1 {
          assert Join(rest, c) == rest[0] + [c] + Join(rest[1..], c);
        }
      }
    }
  }

  /** Splitting a join of separator-free parts gives back the parts. */
  lemma {:induction false} SplitJoin(parts: seq<string>, c: char)
    requires |parts| >= 1 && SeparatorFree(parts, c)
    ensures Split(Join(parts, c), c) == parts
    decreases |parts|
  {
    if |parts| == 1 {
      SplitNoSeparator(parts[0], c);
    } else {
      SplitJoin(parts[1..], c);
      SplitPrefix(parts[0], Join(parts[1..], c), c);
      assert [parts[0]] + parts[1..] == parts;
    }
  }

  /** A string without the separator splits into itself. */
  lemma {:induction false} SplitNoSeparator(s: string, c: char)
    requires c !in s
    ensures Split(s, c) == [s]
    decreases |s|
  {
    if |s| > 0 {
      assert c !in s[1..];
      SplitNoSeparator(s[1..], c);
      assert [s[0]] + s[1..] == s;
    }
  }

  /** A separator-free head followed by the separator becomes its own first part. */
  lemma {:induction false} SplitPrefix(p: string, t: string, c: char)
    requires c !in p
    ensures Split(p + [c] + t, c) == [p] + Split(t, c)
    decreases |p|
  {
    if |p| == 0 {
      assert p + [c] + t == [c] + t;
      assert ([c] + t)[1..] == t;
    } else {
      var s := p + [c] + t;
      assert s[0] == p[0];
      assert s[1..] == p[1..] + [c] + t;
      assert c !in p[1..];
      SplitPrefix(p[1..], t, c);
      assert [p[0]] + p[1..] == p;
    }
  }

  /**
   * Python's `s.replace(pat, "")`: scans left to right and deletes each
   * leftmost, non-overlapping occurrence of `pat`. An empty `pat` changes nothing.
   */
  function RemoveAll(s: string, pat: string): (r: string)
    ensures |r| <= |s|
    decreases |s|
  {
    if |pat| == 0 || |s| == 0 then s
    else if pat <= s then RemoveAll(s[|pat|..], pat)
    else [s[0]] + RemoveAll(s[1..], pat)
  }

  /** `pat` occurs in `s` starting at position `i`. */
  predicate OccursAt(s: string, pat: string, i: int) {
    0 <= i && i + |pat| <= |s| && s[i..i + |pat|] == pat
  }

  /** `pat` occurs in `s` at some position. */
  ghost predicate Occurs(s: string, pat: string) {
    exists i :: OccursAt(s, pat, i)
  }

  /** Removal only deletes characters: the result is no longer and uses only characters of `s`. */
  lemma {:induction false} RemoveAllShrinks(s: string, pat: string)
    ensures |RemoveAll(s, pat)| <= |s|
    ensures forall ch :: ch in RemoveAll(s, pat) ==> ch in s
    decreases |s|
  {
    if |pat| > 0 && |s| > 0 {
      if pat <= s {
        RemoveAllShrinks(s[|pat|..], pat);
        forall ch | ch in s[|pat|..] ensures ch in s { }
      } else {
        RemoveAllShrinks(s[1..], pat);
        forall ch | ch in s[1..] ensures ch in s { }
      }
    }
  }

  /** A string in which `pat` does not occur is left as it is. */
  lemma {:induction false} RemoveAllAbsent(s: string, pat: string)
    requires !Occurs(s, pat)
    ensures RemoveAll(s, pat) == s
    decreases |s|
  {
    if |pat| > 0 && |s| > 0 {
      assert pat <= s ==> OccursAt(s, pat, 0);
      forall i | OccursAt(s[1..], pat, i) ensures OccursAt(s, pat, i + 1) {
        assert s[i + 1..i + 1 + |pat|] == s[1..][i..i + |pat|];
      }
      RemoveAllAbsent(s[1..], pat);
      assert [s[0]] + s[1..] == s;
    }
  }

  /**
   * The scan deletes the leftmost occurrence and goes on after it: when `pat`
   * first occurs right after `x`, the result is `x` followed by the removal
   * from the rest. With `RemoveAllAbsent` this fixes the result on every input.
   */
  lemma {:induction false} RemoveAllAt(x: string, y: string, pat: string)
    requires |pat| > 0
    requires forall i :: 0 <= i < |x| ==> !OccursAt(x + pat + y, pat, i)
    ensures RemoveAll(x + pat + y, pat) == x + RemoveAll(y, pat)
    decreases |x|
  {
    var s := x + pat + y;
    if |x| == 0 {
      assert s == pat + y;
      assert pat <= s;
      assert s[|pat|..] == y;
    } else {
      assert !OccursAt(s, pat, 0);
      var x' := x[1..];
      assert s[1..] == x' + pat + y;
      forall i | 0 <= i < |x'| ensures !OccursAt(x' + pat + y, pat, i) {
        assert !OccursAt(s, pat, i + 1);
        if i + |pat| <= |s[1..]| {
          assert s[1..][i..i + |pat|] == s[i + 1..i + 1 + |pat|];
        }
      }
      RemoveAllAt(x', y, pat);
      assert [x[0]] + x' == x;
    }
  }

  /** Removing `pat` from `pat + x` where `pat` is absent from `x` leaves exactly `x`. */
  lemma StripLeading(pat: string, x: string)
    requires |pat| > 0 && !Occurs(x, pat)
    ensures RemoveAll(pat + x, pat) == x
  {
    assert (pat + x)[|pat|..] == x;
    RemoveAllAbsent(x, pat);
  }
}
