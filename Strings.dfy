/** The string operations the generator relies on, as Python defines them. */
module Strings {

  /** Python's `sep.join(xs)`. */
  function Join(xs: seq<string>, sep: string): string
  {
    if |xs| == 0 then ""
    else if |xs| == 1 then xs[0]
    else xs[0] + sep + Join(xs[1..], sep)
  }

  /** Where `xs[i]` starts inside `Join(xs, sep)`: every earlier item and the
      separator after it come first. */
  function JoinOffset(xs: seq<string>, sep: string, i: nat): nat
    requires i <= |xs|
  {
    if i == 0 then 0 else JoinOffset(xs, sep, i - 1) + |xs[i - 1]| + |sep|
  }

  /** The strings of `ss` laid end to end (successive `+=` on one string). */
  function Concat(ss: seq<string>): string
  {
    if |ss| == 0 then "" else ss[0] + Concat(ss[1..])
  }

  /** Where `ss[k]` starts inside `Concat(ss)`. */
  function ConcatOffset(ss: seq<string>, k: nat): nat
    requires k <= |ss|
  {
    |Concat(ss[..k])|
  }

  /** Python's `s.split("\n")`: the lines of `s`, the last one being whatever
      follows the final newline (so a text ending in a newline ends in ""). */
  function Lines(s: string): (ls: seq<string>)
    ensures |ls| >= 1
  {
    if |s| == 0 then [""]
    else if s[0] == '\n' then [""] + Lines(s[1..])
    else var rest := Lines(s[1..]); [[s[0]] + rest[0]] + rest[1..]
  }

  /** `p` is the part of `s` that starts at offset `k`. */
  predicate OccursAt(p: string, s: string, k: int)
  {
    0 <= k && k + |p| <= |s| && s[k..k + |p|] == p
  }

  /** `p in s` for strings in Python: `p` occurs somewhere in `s`. */
  predicate Occurs(p: string, s: string)
  {
    exists k | 0 <= k <= |s| :: OccursAt(p, s, k)
  }

  /** Every character of an occurring string is a character of the text, so a
      text lacking one of its characters does not contain it. */
  lemma OccursChar(p: string, s: string, i: nat)
    requires i < |p|
    ensures Occurs(p, s) ==> p[i] in s
  {
    if Occurs(p, s) {
      var k :| 0 <= k <= |s| && OccursAt(p, s, k);
      assert s[k + i] == s[k..k + |p|][i] == p[i];
    }
  }

  predicate IsDigit(c: char)
  {
    '0' <= c <= '9'
  }

  /** Python 2's `str.isdigit()`: non-empty and made of ASCII digits only. */
  predicate IsDigits(s: string)
  {
    |s| > 0 && forall i | 0 <= i < |s| :: IsDigit(s[i])
  }

  /** Python's `int(s)` on a digit string (leading zeros allowed). */
  function DigitsValue(s: string): nat
    requires forall i | 0 <= i < |s| :: IsDigit(s[i])
  {
    if |s| == 0 then 0
    else assert IsDigit(s[|s| - 1]); DigitsValue(s[..|s| - 1]) * 10 + (s[|s| - 1] as int - '0' as int)
  }

  // ---------------------------------------------------------------- Join

  lemma {:induction false} JoinOffsetStep(xs: seq<string>, sep: string, i: nat)
    requires 0 < i <= |xs|
    ensures JoinOffset(xs, sep, i) == |xs[0]| + |sep| + JoinOffset(xs[1..], sep, i - 1)
  {
    if i > 1 {
      JoinOffsetStep(xs, sep, i - 1);
    }
  }

  /** Item `i + 1` starts one item and one separator after item `i`. */
  lemma JoinOffsetNext(xs: seq<string>, sep: string, i: nat)
    requires i + 1 <= |xs|
    ensures JoinOffset(xs, sep, i + 1) == JoinOffset(xs, sep, i) + |xs[i]| + |sep|
  {
  }

  /** The separator right after item `i`, when another item follows. */
  lemma JoinSepAfter(xs: seq<string>, sep: string, i: nat)
    requires i + 1 < |xs|
    ensures
      var e := JoinOffset(xs, sep, i) + |xs[i]|;
      e + |sep| <= |Join(xs, sep)| && Join(xs, sep)[e .. e + |sep|] == sep
  {
    JoinSepAt(xs, sep, i);
    JoinOffsetNext(xs, sep, i);
  }

  /** After the first item and its separator, the joined string is the join of the rest. */
  lemma JoinTailSlice(xs: seq<string>, sep: string, a: nat, b: nat)
    requires 1 < |xs| && a <= b <= |Join(xs[1..], sep)|
    ensures |Join(xs, sep)| == |xs[0]| + |sep| + |Join(xs[1..], sep)|
    ensures Join(xs, sep)[|xs[0]| + |sep| + a .. |xs[0]| + |sep| + b] == Join(xs[1..], sep)[a..b]
  {
    var p := xs[0] + sep;
    var t := Join(xs[1..], sep);
    assert Join(xs, sep) == p + t;
    assert (p + t)[|p| + a .. |p| + b] == t[a..b];
  }

  /** `Join(xs, sep)` is `xs[0]`, `sep`, `xs[1]`, `sep`, ..., `xs[|xs| - 1]`:
      item `i` sits at `JoinOffset(xs, sep, i)`, a separator follows every item
      but the last, and the last item ends the string. */
  lemma JoinAt(xs: seq<string>, sep: string, i: nat)
    requires i < |xs|
    ensures JoinOffset(xs, sep, i) + |xs[i]| <= |Join(xs, sep)|
    ensures Join(xs, sep)[JoinOffset(xs, sep, i) .. JoinOffset(xs, sep, i) + |xs[i]|] == xs[i]
    ensures i + 1 < |xs| ==> JoinOffset(xs, sep, i + 1) <= |Join(xs, sep)|
    ensures i + 1 < |xs| ==>
      Join(xs, sep)[JoinOffset(xs, sep, i) + |xs[i]| .. JoinOffset(xs, sep, i + 1)] == sep
    ensures i + 1 == |xs| ==> JoinOffset(xs, sep, i) + |xs[i]| == |Join(xs, sep)|
  {
    JoinItemAt(xs, sep, i);
    if i + 1 < |xs| {
      JoinSepAt(xs, sep, i);
    } else {
      JoinEnd(xs, sep);
    }
  }

  /** Item `i` of a join sits at `JoinOffset(xs, sep, i)`. */
  lemma {:induction false} JoinItemAt(xs: seq<string>, sep: string, i: nat)
    requires i < |xs|
    ensures JoinOffset(xs, sep, i) + |xs[i]| <= |Join(xs, sep)|
    ensures Join(xs, sep)[JoinOffset(xs, sep, i) .. JoinOffset(xs, sep, i) + |xs[i]|] == xs[i]
  {
    if i == 0 {
      JoinAtFirst(xs, sep);
    } else {
      var tail := xs[1..];
      JoinItemAt(tail, sep, i - 1);
      JoinOffsetStep(xs, sep, i);
      var o := JoinOffset(tail, sep, i - 1);
      assert tail[i - 1] == xs[i];
      JoinTailSlice(xs, sep, o, o + |xs[i]|);
    }
  }

  /** The separator follows item `i` when another item comes after it. */
  lemma {:induction false} JoinSepAt(xs: seq<string>, sep: string, i: nat)
    requires i + 1 < |xs|
    ensures JoinOffset(xs, sep, i) + |xs[i]| <= JoinOffset(xs, sep, i + 1) <= |Join(xs, sep)|
    ensures Join(xs, sep)[JoinOffset(xs, sep, i) + |xs[i]| .. JoinOffset(xs, sep, i + 1)] == sep
  {
    if i == 0 {
      assert JoinOffset(xs, sep, 1) == |xs[0]| + |sep|;
      JoinAtFirst(xs, sep);
    } else {
      var tail := xs[1..];
      var n := |xs[0]| + |sep|;
      var o, o2 := JoinOffset(tail, sep, i - 1), JoinOffset(tail, sep, i);
      JoinSepAt(tail, sep, i - 1);
      assert tail[i - 1] == xs[i];
      JoinOffsetStep(xs, sep, i);
      JoinOffsetStep(xs, sep, i + 1);
      assert JoinOffset(xs, sep, i) == n + o && JoinOffset(xs, sep, i + 1) == n + o2;
      JoinTailSlice(xs, sep, o + |xs[i]|, o2);
    }
  }

  /** The last item ends the join. */
  lemma {:induction false} JoinEnd(xs: seq<string>, sep: string)
    requires 0 < |xs|
    ensures JoinOffset(xs, sep, |xs| - 1) + |xs[|xs| - 1]| == |Join(xs, sep)|
  {
    if |xs| == 1 {
      JoinAtFirst(xs, sep);
    } else {
      var tail := xs[1..];
      JoinEnd(tail, sep);
      JoinOffsetStep(xs, sep, |xs| - 1);
      assert tail[|tail| - 1] == xs[|xs| - 1];
      JoinTailSlice(xs, sep, 0, 0);
    }
  }

  /** The first item starts the joined string and the separator follows it. */
  lemma JoinAtFirst(xs: seq<string>, sep: string)
    requires 0 < |xs|
    ensures |xs[0]| <= |Join(xs, sep)| && Join(xs, sep)[..|xs[0]|] == xs[0]
    ensures 1 < |xs| ==> |xs[0]| + |sep| <= |Join(xs, sep)| && Join(xs, sep)[|xs[0]| .. |xs[0]| + |sep|] == sep
    ensures |xs| == 1 ==> |xs[0]| == |Join(xs, sep)|
  {
    if |xs| > 1 {
      var j := Join(xs, sep);
      assert j == xs[0] + sep + Join(xs[1..], sep);
      assert j[..|xs[0]|] == xs[0];
      assert j[|xs[0]| .. |xs[0]| + |sep|] == sep;
    }
  }

  // ---------------------------------------------------------------- Concat

  lemma {:induction false} ConcatSplit(ss: seq<string>, k: nat)
    requires k <= |ss|
    ensures Concat(ss) == Concat(ss[..k]) + Concat(ss[k..])
  {
    if k > 0 {
      ConcatSplit(ss[1..], k - 1);
      assert ss[1..][..k - 1] == ss[..k][1..];
      assert ss[1..][k - 1..] == ss[k..];
    } else {
      assert ss[k..] == ss;
    }
  }

  /** Appending one more string to an accumulated text. */
  lemma ConcatSnoc(ss: seq<string>, s: string)
    ensures Concat(ss + [s]) == Concat(ss) + s
  {
    ConcatSplit(ss + [s], |ss|);
    assert (ss + [s])[..|ss|] == ss;
    assert (ss + [s])[|ss|..] == [s];
  }

  /** The text accumulated after one more string of `ss`. */
  lemma ConcatPrefixStep(ss: seq<string>, k: nat)
    requires k < |ss|
    ensures Concat(ss[..k + 1]) == Concat(ss[..k]) + ss[k]
  {
    ConcatSnoc(ss[..k], ss[k]);
    assert ss[..k] + [ss[k]] == ss[..k + 1];
  }

  lemma ConcatWhole(ss: seq<string>)
    ensures Concat(ss[..|ss|]) == Concat(ss)
  {
    assert ss[..|ss|] == ss;
  }

  /** Each `ss[k]` sits in `Concat(ss)` right after everything before it and
      right before everything after it. */
  lemma ConcatAt(ss: seq<string>, k: nat)
    requires k < |ss|
    ensures ConcatOffset(ss, k) + |ss[k]| == ConcatOffset(ss, k + 1)
    ensures ConcatOffset(ss, k + 1) <= |Concat(ss)|
    ensures Concat(ss)[ConcatOffset(ss, k) .. ConcatOffset(ss, k + 1)] == ss[k]
  {
    ConcatPrefixStep(ss, k);
    ConcatSplit(ss, k + 1);
  }

  /** Offsets increase with the index: earlier strings come earlier. */
  lemma ConcatOffsetMonotone(ss: seq<string>, k: nat, l: nat)
    requires k <= l <= |ss|
    ensures ConcatOffset(ss, k) <= ConcatOffset(ss, l)
  {
    ConcatSplit(ss[..l], k);
    assert ss[..l][..k] == ss[..k];
  }

  /** Where three leading parts sit in a concatenation. */
  lemma ThreeParts(a: string, b: string, c: string, rest: string)
    ensures
      var s := a + b + c + rest;
      |a| + |b| + |c| <= |s|
      && s[..|a|] == a
      && s[|a| .. |a| + |b|] == b
      && s[|a| + |b| .. |a| + |b| + |c|] == c
  {
    var s := a + b + c + rest;
    assert s == a + (b + (c + rest));
    assert s[|a| ..] == b + (c + rest);
    assert s[|a| + |b| ..] == c + rest;
  }

  // ---------------------------------------------------------------- Lines

  /** Four newline-ended lines, regrouped to the right for LinesAfterLine. */
  lemma LinesRegroup(l0: string, l1: string, l2: string, l3: string, nl: string)
    ensures (l0 + nl) + (l1 + nl) + (l2 + nl) + (l3 + nl) == l0 + nl + (l1 + nl + (l2 + nl + (l3 + nl + "")))
  {
  }

  /** A line followed by a newline: that line, then the lines of the rest. */
  lemma {:induction false} LinesAfterLine(a: string, b: string)
    requires '\n' !in a
    ensures Lines(a + "\n" + b) == [a] + Lines(b)
  {
    var s := a + "\n" + b;
    if |a| == 0 {
      assert s[1..] == b;
    } else {
      assert '\n' !in a[1..] by {
        forall i | 0 <= i < |a[1..]| ensures a[1..][i] != '\n' {
          assert a[1..][i] == a[i + 1];
        }
      }
      assert s[0] == a[0];
      assert s[1..] == a[1..] + "\n" + b;
      LinesAfterLine(a[1..], b);
      assert [a[0]] + a[1..] == a;
    }
  }
}
