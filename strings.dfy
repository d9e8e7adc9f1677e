/**
 * The Python string operations the log formatters rely on: `sep.join(parts)`, `s * n`,
 * `s.lstrip(c)` and `s.strip(c)` (a left and a right strip); and `s.split(c)`, which the
 * formatters do not call but their lemmas use to read a line back into its fields.
 */
module Strings {

  predicate IsDigit(ch: char) {
    '0' <= ch <= '9'
  }

  /** `sep.join(parts)`. */
  function Join(sep: string, parts: seq<string>): string
  {
    if |parts| == 0 then ""
    else if |parts| == 1 then parts[0]
    else parts[0] + sep + Join(sep, parts[1..])
  }

  /** `s * n`: `n` copies of `s` one after another. */
  function Repeat(s: string, n: nat): (r: string)
    ensures |r| == |s| * n
    ensures forall k :: 0 <= k < |r| ==> r[k] == s[k % |s|]
  {
    seq(|s| * n, k requires 0 <= k < |s| * n => s[k % |s|])
  }

  /** Number of occurrences of `c` in `s`. */
  function Count(s: string, c: char): nat
  {
    if |s| == 0 then 0 else (if s[0] == c then 1 else 0) + Count(s[1..], c)
  }

  /** `s.split(c)` for a one-character separator: the maximal `c`-free pieces between separators. */
  function Split(s: string, c: char): (r: seq<string>)
    ensures |r| == Count(s, c) + 1
    ensures forall i :: 0 <= i < |r| ==> c !in r[i]
  {
    if |s| == 0 then [""]
    else
      var rest := Split(s[1..], c);
      if s[0] == c then [""] + rest else [[s[0]] + rest[0]] + rest[1..]
  }

  /** Joining two parts puts one separator between them. */
  lemma JoinPair(sep: string, a: string, b: string)
    ensures Join(sep, [a, b]) == a + sep + b
    ensures |Join(sep, [a, b])| == |a| + |sep| + |b| && Join(sep, [a, b])[..|a| + |sep|] == a + sep
  {
    assert [a, b][1..] == [b];
    assert (a + sep + b)[..|a| + |sep|] == a + sep;
  }

  /** A string without the separator splits into itself. */
  lemma {:induction false} SplitFree(p: string, c: char)
    requires c !in p
    ensures Split(p, c) == [p]
  {
    if |p| > 0 {
      SplitFree(p[1..], c);
      assert [p[0]] + p[1..] == p;
    }
  }

  /** A separator-free piece followed by the separator splits off as one piece. */
  lemma {:induction false} SplitPiece(p: string, c: char, rest: string)
    requires c !in p
    ensures Split(p + [c] + rest, c) == [p] + Split(rest, c)
  {
    var s := p + [c] + rest;
    if |p| == 0 {
      assert s[1..] == rest;
    } else {
      assert s[1..] == p[1..] + [c] + rest;
      SplitPiece(p[1..], c, rest);
      assert [p[0]] + p[1..] == p;
    }
  }

  /** Splitting a join of separator-free pieces gives back the pieces. */
  lemma {:induction false} SplitJoin(parts: seq<string>, c: char)
    requires |parts| >= 1
    requires forall i :: 0 <= i < |parts| ==> c !in parts[i]
    ensures Split(Join([c], parts), c) == parts
  {
    if |parts| == 1 {
      SplitFree(parts[0], c);
    } else {
      SplitJoin(parts[1..], c);
      SplitPiece(parts[0], c, Join([c], parts[1..]));
      assert [parts[0]] + parts[1..] == parts;
    }
  }

  /** A trailing separator is a join with one more, empty, piece. */
  lemma {:induction false} JoinTrailing(sep: string, parts: seq<string>)
    requires |parts| >= 1
    ensures Join(sep, parts + [""]) == Join(sep, parts) + sep
  {
    if |parts| == 1 {
      assert (parts + [""])[1..] == [""];
    } else {
      JoinTrailing(sep, parts[1..]);
      assert (parts + [""])[1..] == parts[1..] + [""];
    }
  }

  /** `s.lstrip(c)`: drops every leading `c`. */
  function LStrip(s: string, c: char): (r: string)
    ensures |r| <= |s|
    ensures r == [] || r[0] != c
  {
    if |s| > 0 && s[0] == c then LStrip(s[1..], c) else s
  }

  /** What `lstrip` drops is a run of `c` and nothing else: the result is a suffix of the input. */
  lemma {:induction false} LStripSuffix(s: string, c: char)
    ensures LStrip(s, c) == s[|s| - |LStrip(s, c)|..]
    ensures forall i :: 0 <= i < |s| - |LStrip(s, c)| ==> s[i] == c
  {
    if |s| > 0 && s[0] == c {
      LStripSuffix(s[1..], c);
    }
  }

  /** `s.rstrip(c)`: drops every trailing `c`. */
  function RStrip(s: string, c: char): (r: string)
    ensures |r| <= |s|
    ensures r == [] || r[|r| - 1] != c
  {
    if |s| > 0 && s[|s| - 1] == c then RStrip(s[..|s| - 1], c) else s
  }

  /** What `rstrip` drops is a run of `c` and nothing else: the result is a prefix of the input. */
  lemma {:induction false} RStripPrefix(s: string, c: char)
    ensures RStrip(s, c) == s[..|RStrip(s, c)|]
    ensures forall i :: |RStrip(s, c)| <= i < |s| ==> s[i] == c
  {
    if |s| > 0 && s[|s| - 1] == c {
      RStripPrefix(s[..|s| - 1], c);
    }
  }

  /** `s.strip(c)`: the result neither begins nor ends with `c`. */
  function Strip(s: string, c: char): (r: string)
    ensures r == [] || (r[0] != c && r[|r| - 1] != c)
  {
    var l := LStrip(s, c);
    var r := RStrip(l, c);
    if r == [] then r
    else
      RStripPrefix(l, c);
      assert r[0] == l[0];
      r
  }

  /** `strip` keeps a contiguous piece of the input. */
  lemma StripInfix(s: string, c: char)
    ensures var l := |s| - |LStrip(s, c)|;
      forall k :: 0 <= k < |Strip(s, c)| ==> Strip(s, c)[k] == s[l + k]
  {
    LStripSuffix(s, c);
    RStripPrefix(LStrip(s, c), c);
  }
}
