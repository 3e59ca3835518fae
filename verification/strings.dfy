/** String helpers used to build and read back SQL text: joining with a
    separator (Java `StringJoiner`, Python `str.join`), splitting on a
    separator, prefix/suffix stripping, trailing-character stripping and the
    lexicographic order that Java `String.compareTo` and Python `sorted` use. */
module Strings {
  import opened Wrappers

  /** `xs` with `sep` between consecutive elements; "" for no elements. */
  function Join(xs: seq<string>, sep: string): string
  {
    if |xs| == 0 then ""
    else if |xs| == 1 then xs[0]
    else xs[0] + sep + Join(xs[1..], sep)
  }

  /** True when `sep` occurs in `s` starting at position `i`. */
  predicate OccursAt(s: string, sep: string, i: nat)
  {
    i + |sep| <= |s| && s[i..i + |sep|] == sep
  }

  /** The first position at or after `from` where `sep` occurs in `s`. */
  function IndexOfFrom(s: string, sep: string, from: nat): (r: Option<nat>)
    requires |sep| > 0
    ensures r.Some? ==> from <= r.value && r.value + |sep| <= |s|
    decreases |s| - from
  {
    if from + |sep| > |s| then None
    else if s[from..from + |sep|] == sep then Some(from)
    else IndexOfFrom(s, sep, from + 1)
  }

  function IndexOf(s: string, sep: string): (r: Option<nat>)
    requires |sep| > 0
  {
    IndexOfFrom(s, sep, 0)
  }

  /** The pieces of `s` between occurrences of `sep`, scanning left to right
      (Python `str.split(sep)`); never empty. */
  function Split(s: string, sep: string): (r: seq<string>)
    requires |sep| > 0
    ensures |r| > 0
    decreases |s|
  {
    match IndexOf(s, sep)
    case None => [s]
    case Some(i) => [s[..i]] + Split(s[i + |sep|..], sep)
  }

  /** Splits `s` at the first occurrence of `sep`. */
  function Cut(s: string, sep: string): Option<(string, string)>
    requires |sep| > 0
  {
    match IndexOf(s, sep)
    case None => None
    case Some(i) => Some((s[..i], s[i + |sep|..]))
  }

  /** Splits `s` at the first occurrence of character `c`. */
  function CutAt(s: string, c: char): Option<(string, string)>
  {
    Cut(s, [c])
  }

  function StripPrefix(s: string, p: string): Option<string>
  {
    if p <= s then Some(s[|p|..]) else None
  }

  function StripSuffix(s: string, q: string): Option<string>
  {
    if |q| <= |s| && s[|s| - |q|..] == q then Some(s[..|s| - |q|]) else None
  }

  /** `s` without every trailing `c` (Python `str.rstrip(c)`). */
  function TrimTrailing(s: string, c: char): (r: string)
    ensures r <= s
    ensures |r| == 0 || r[|r| - 1] != c
    ensures forall i :: |r| <= i < |s| ==> s[i] == c
  {
    if |s| > 0 && s[|s| - 1] == c then TrimTrailing(s[..|s| - 1], c) else s
  }

  /** The characters Java's regular expressions treat as line terminators
      (`\r\n` counts as one terminator too). */
  predicate IsLineTerminator(c: char)
  {
    c == '\n' || c == '\r' || c == '\U{85}' || c == '\U{2028}' || c == '\U{2029}'
  }

  /** The final line terminator of `s`, before which Java's `$` also matches
      when MULTILINE is off; empty when `s` does not end in one. */
  function FinalTerminator(s: string): (r: string)
    ensures |r| <= 2 && |r| <= |s| && s[|s| - |r|..] == r
    ensures |r| == 2 <==> |s| >= 2 && s[|s| - 2..] == "\r\n"
    ensures |r| == 1 ==> IsLineTerminator(r[0])
    ensures |r| == 0 <==> |s| == 0 || !IsLineTerminator(s[|s| - 1])
  {
    if |s| >= 2 && s[|s| - 2..] == "\r\n" then "\r\n"
    else if |s| >= 1 && IsLineTerminator(s[|s| - 1]) then [s[|s| - 1]]
    else ""
  }

  /** Whether the pattern `/$` finds a '/': at the very end, or just before
      the final line terminator. */
  predicate SlashAtEnd(s: string)
  {
    var t := FinalTerminator(s);
    (|s| > 0 && s[|s| - 1] == '/') || (|s| > |t| && s[|s| - |t| - 1] == '/')
  }

  /** Java `s.replaceAll("/$", "")`. The pattern can match at most once, so
      one '/' goes: the last character, or the one just before a final line
      terminator. */
  function DropSlashAtEnd(s: string): (r: string)
    ensures r == s <==> !SlashAtEnd(s)
    ensures SlashAtEnd(s) ==> |r| + 1 == |s|
    ensures |s| > 0 && s[|s| - 1] == '/' ==> r == s[..|s| - 1]
    ensures var t := FinalTerminator(s); |t| <= |r| && r[|r| - |t|..] == t
  {
    var t := FinalTerminator(s);
    var body := s[..|s| - |t|];
    if |s| > 0 && s[|s| - 1] == '/' then s[..|s| - 1]
    else if |body| > 0 && body[|body| - 1] == '/' then
      assert body + t == s;
      body[..|body| - 1] + t
    else s
  }

  /** Lexicographic order on strings by character code. */
  predicate LessEq(a: string, b: string)
  {
    if |a| == 0 then true
    else if |b| == 0 then false
    else if a[0] != b[0] then a[0] < b[0]
    else LessEq(a[1..], b[1..])
  }

  lemma LessEqRefl(a: string)
    ensures LessEq(a, a)
  {
  }

  lemma LessEqTotal(a: string, b: string)
    ensures LessEq(a, b) || LessEq(b, a)
  {
  }

  lemma LessEqAntisymmetric(a: string, b: string)
    requires LessEq(a, b) && LessEq(b, a)
    ensures a == b
  {
    if |a| > 0 && |b| > 0 {
      LessEqAntisymmetric(a[1..], b[1..]);
      assert a == [a[0]] + a[1..];
      assert b == [b[0]] + b[1..];
    }
  }

  lemma LessEqTransitive(a: string, b: string, c: string)
    requires LessEq(a, b) && LessEq(b, c)
    ensures LessEq(a, c)
  {
    if |a| > 0 && |b| > 0 && |c| > 0 && a[0] == b[0] && b[0] == c[0] {
      LessEqTransitive(a[1..], b[1..], c[1..]);
    }
  }

  // ---- Round trips between joining and splitting ----

  /** Where no element contains the first character of `sep`, the first
      occurrence of `sep` in `x + sep + tail` is right after `x`. */
  lemma {:induction false} IndexOfAfterPiece(x: string, sep: string, tail: string, from: nat)
    requires |sep| > 0 && sep[0] !in x && from <= |x|
    ensures IndexOfFrom(x + sep + tail, sep, from) == Some(|x|)
    decreases |x| - from
  {
    var s := x + sep + tail;
    if from < |x| {
      assert s[from] == x[from];
      assert s[from..from + |sep|][0] == s[from];
      IndexOfAfterPiece(x, sep, tail, from + 1);
    } else {
      assert s[from..from + |sep|] == sep;
    }
  }

  lemma {:induction false} IndexOfAbsent(x: string, sep: string, from: nat)
    requires |sep| > 0 && sep[0] !in x
    ensures IndexOfFrom(x, sep, from) == None
    decreases |x| - from
  {
    if from + |sep| <= |x| {
      assert x[from..from + |sep|][0] == x[from];
      IndexOfAbsent(x, sep, from + 1);
    }
  }

  /** Joining and then splitting on the same separator gives the pieces back,
      as long as no piece contains the separator's first character. */
  lemma {:induction false} SplitJoin(xs: seq<string>, sep: string)
    requires |xs| > 0 && |sep| > 0
    requires forall i :: 0 <= i < |xs| ==> sep[0] !in xs[i]
    ensures Split(Join(xs, sep), sep) == xs
  {
    if |xs| == 1 {
      IndexOfAbsent(xs[0], sep, 0);
    } else {
      var tail := Join(xs[1..], sep);
      var s := xs[0] + sep + tail;
      IndexOfAfterPiece(xs[0], sep, tail, 0);
      assert s[..|xs[0]|] == xs[0];
      assert s[|xs[0]| + |sep|..] == tail;
      SplitJoin(xs[1..], sep);
      assert [xs[0]] + xs[1..] == xs;
    }
  }

  lemma CutJoin(a: string, sep: string, b: string)
    requires |sep| > 0 && sep[0] !in a
    ensures Cut(a + sep + b, sep) == Some((a, b))
  {
    IndexOfAfterPiece(a, sep, b, 0);
    var s := a + sep + b;
    assert s[..|a|] == a;
    assert s[|a| + |sep|..] == b;
  }

  lemma CutAtJoin(a: string, c: char, b: string)
    requires c !in a
    ensures CutAt(a + [c] + b, c) == Some((a, b))
  {
    CutJoin(a, [c], b);
  }

  lemma StripPrefixConcat(p: string, t: string)
    ensures StripPrefix(p + t, p) == Some(t)
  {
    assert p <= p + t;
  }

  lemma StripSuffixConcat(t: string, q: string)
    ensures StripSuffix(t + q, q) == Some(t)
  {
    var s := t + q;
    assert s[|s| - |q|..] == q;
    assert s[..|s| - |q|] == t;
  }

  /** A character absent from every piece and from the separator is absent
      from the joined text. */
  lemma {:induction false} JoinAvoids(xs: seq<string>, sep: string, c: char)
    requires c !in sep
    requires forall i :: 0 <= i < |xs| ==> c !in xs[i]
    ensures c !in Join(xs, sep)
  {
    if |xs| > 1 {
      JoinAvoids(xs[1..], sep, c);
    }
  }

  /** Text appended after a join is text appended to its last piece. */
  lemma {:induction false} JoinExtendLast(xs: seq<string>, sep: string, t: string)
    requires |xs| > 0
    ensures Join(xs[..|xs| - 1] + [xs[|xs| - 1] + t], sep) == Join(xs, sep) + t
  {
    var ys := xs[..|xs| - 1] + [xs[|xs| - 1] + t];
    if |xs| > 1 {
      JoinExtendLast(xs[1..], sep, t);
      assert ys[1..] == xs[1..][..|xs[1..]| - 1] + [xs[1..][|xs[1..]| - 1] + t];
    }
  }

  /** Every element followed by `sep`. */
  function Terminated(xs: seq<string>, sep: string): string
  {
    if |xs| == 0 then "" else xs[0] + sep + Terminated(xs[1..], sep)
  }

  /** Terminating every piece is joining the pieces and one empty piece. */
  lemma {:induction false} TerminatedJoin(xs: seq<string>, sep: string)
    ensures Terminated(xs, sep) == Join(xs + [""], sep)
  {
    if |xs| > 0 {
      TerminatedJoin(xs[1..], sep);
      assert (xs + [""])[1..] == xs[1..] + [""];
    }
  }

  /** Splitting terminated pieces gives the pieces back and one empty piece
      after the last separator. */
  lemma SplitTerminated(xs: seq<string>, sep: string)
    requires |sep| > 0
    requires forall i :: 0 <= i < |xs| ==> sep[0] !in xs[i]
    ensures Split(Terminated(xs, sep), sep) == xs + [""]
  {
    TerminatedJoin(xs, sep);
    var ys := xs + [""];
    assert forall i :: 0 <= i < |ys| ==> sep[0] !in ys[i] by {
      forall i | 0 <= i < |ys| ensures sep[0] !in ys[i] {
        if i < |xs| { assert ys[i] == xs[i]; }
      }
    }
    SplitJoin(ys, sep);
  }

  /** The number of pieces a join of `n` copies of one string splits into. */
  function Repeat(x: string, n: nat): (r: seq<string>)
    ensures |r| == n
    ensures forall i :: 0 <= i < n ==> r[i] == x
  {
    if n == 0 then [] else [x] + Repeat(x, n - 1)
  }
}
