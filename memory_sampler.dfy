/**
 * The memory sampler: for each pid, the `VmRSS:` figure of its
 * `/proc/<pid>/status` text, summed over a list of pids. A pid whose status
 * cannot be read (absent from the map) or has no matching line contributes 0.
 */
module MemorySampler {
  import opened JsText
  import opened Optional
  import opened ProcessTree

  const Tag: string := "VmRSS:"

  /** Where the multiline anchor `^` matches. */
  predicate AtLineStart(s: string, i: nat)
    requires i <= |s|
  {
    i == 0 || IsLineTerminator(s[i - 1])
  }

  /** The end of the maximal whitespace run starting at `i` (what a greedy `\s*` consumes). */
  function SpanWhitespace(s: string, i: nat): (j: nat)
    requires i <= |s|
    ensures i <= j <= |s|
    ensures forall k :: i <= k < j ==> IsWhitespace(s[k])
    ensures j < |s| ==> !IsWhitespace(s[j])
    decreases |s| - i
  {
    if i < |s| && IsWhitespace(s[i]) then SpanWhitespace(s, i + 1) else i
  }

  /** The end of the maximal digit run starting at `i` (what a greedy `\d*` consumes). */
  function SpanDigits(s: string, i: nat): (j: nat)
    requires i <= |s|
    ensures i <= j <= |s|
    ensures forall k :: i <= k < j ==> IsDigit(s[k])
    ensures j < |s| ==> !IsDigit(s[j])
    decreases |s| - i
  {
    if i < |s| && IsDigit(s[i]) then SpanDigits(s, i + 1) else i
  }

  /** The regex `VmRSS:\s+(\d+)` tried at the start of `t`: the captured
      digits' value, or `None` when it does not match there. Backtracking
      cannot help `\s+`, since a digit is never whitespace, so the greedy
      spans decide. */
  function LineFigure(t: string): Option<nat> {
    if |Tag| <= |t| && t[..|Tag|] == Tag then
      var w := SpanWhitespace(t, |Tag|);
      var d := SpanDigits(t, w);
      if w == |Tag| || d == w then None else Some(DecimalValue(t[w..d]))
    else None
  }

  /** The regex `^VmRSS:\s+(\d+)` with the multiline flag, tried at position `i`. */
  function MatchAt(s: string, i: nat): Option<nat>
    requires i <= |s|
  {
    if AtLineStart(s, i) then LineFigure(s[i..]) else None
  }

  lemma SpanWhitespaceExact(s: string, i: nat, j: nat)
    requires i <= j <= |s|
    requires forall k :: i <= k < j ==> IsWhitespace(s[k])
    requires j < |s| ==> !IsWhitespace(s[j])
    ensures SpanWhitespace(s, i) == j
  {
  }

  lemma SpanDigitsExact(s: string, i: nat, j: nat)
    requires i <= j <= |s|
    requires forall k :: i <= k < j ==> IsDigit(s[k])
    requires j < |s| ==> !IsDigit(s[j])
    ensures SpanDigits(s, i) == j
  {
  }

  /** The leftmost position from `i` on where the regex matches. */
  function FirstMatch(s: string, i: nat): (r: Option<nat>)
    requires i <= |s|
    ensures r.Some? ==> i <= r.value <= |s| && MatchAt(s, r.value).Some?
    ensures r.Some? ==> forall j :: i <= j < r.value ==> MatchAt(s, j).None?
    ensures r.None? ==> forall j :: i <= j <= |s| ==> MatchAt(s, j).None?
    decreases |s| - i
  {
    if MatchAt(s, i).Some? then Some(i)
    else if i == |s| then None
    else FirstMatch(s, i + 1)
  }

  /** `status.match(/^VmRSS:\s+(\d+)/m)` followed by `parseInt(match[1], 10)`:
      the figure of the first line that matches, if any line does. */
  function VmRssKb(status: string): (r: Option<nat>)
    ensures r.Some? <==> exists i :: 0 <= i <= |status| && MatchAt(status, i).Some?
    ensures r.Some? ==>
      exists i :: 0 <= i <= |status| && MatchAt(status, i) == r && (forall j :: 0 <= j < i ==> MatchAt(status, j).None?)
  {
    match FirstMatch(status, 0)
    case None => None
    case Some(i) => MatchAt(status, i)
  }

  /** The text before a line: empty, or ending with a line terminator, and
      with no line of it starting with `VmRSS:` (in procfs, the `Name:`,
      `State:`, ... lines that precede it). */
  predicate LinesWithoutTag(prefix: string) {
    (|prefix| == 0 || IsLineTerminator(prefix[|prefix| - 1]))
    && forall i :: 0 <= i && i + |Tag| <= |prefix| && AtLineStart(prefix, i) ==> prefix[i..i + |Tag|] != Tag
  }

  /** No match starts inside such a prefix, whatever follows it. */
  lemma NoMatchInPrefix(prefix: string, rest: string)
    requires LinesWithoutTag(prefix)
    ensures forall i :: 0 <= i < |prefix| ==> MatchAt(prefix + rest, i).None?
  {
    var s := prefix + rest;
    forall i | 0 <= i < |prefix| ensures MatchAt(s, i).None? {
      if AtLineStart(s, i) && |Tag| <= |s[i..]| {
        assert AtLineStart(prefix, i) by {
          if i > 0 {
            assert s[i - 1] == prefix[i - 1];
          }
        }
        if i + |Tag| <= |prefix| {
          assert s[i..][..|Tag|] == prefix[i..i + |Tag|];
        } else {
          StraddleIsNotTag(prefix, rest, i);
        }
      }
    }
  }

  /** Six characters that run over the line terminator ending `prefix` are not the tag. */
  lemma StraddleIsNotTag(prefix: string, rest: string, i: nat)
    requires |prefix| > 0 && IsLineTerminator(prefix[|prefix| - 1])
    requires i < |prefix| < i + |Tag| <= |prefix + rest|
    ensures (prefix + rest)[i..][..|Tag|] != Tag
  {
    var s := prefix + rest;
    assert s[i..][..|Tag|][|prefix| - 1 - i] == prefix[|prefix| - 1];
  }

  /** The `VmRSS:` line as procfs writes it: the tag, padding, the figure, then
      a tail that does not start with a digit (` kB` and the later lines). */
  lemma LineFigureRoundTrip(n: nat, pad: string, tail: string)
    requires |pad| > 0 && forall k :: 0 <= k < |pad| ==> IsWhitespace(pad[k])
    requires |tail| > 0 ==> !IsDigit(tail[0])
    ensures LineFigure(Tag + pad + Decimal(n) + tail) == Some(n)
  {
    var digits := Decimal(n);
    var s := Tag + pad + digits + tail;
    var w := |Tag| + |pad|;
    var d := w + |digits|;
    assert s[..|Tag|] == Tag;
    assert forall k :: |Tag| <= k < w ==> s[k] == pad[k - |Tag|];
    assert s[w] == digits[0];
    DigitIsNotWhitespace(s[w]);
    SpanWhitespaceExact(s, |Tag|, w);
    assert forall k :: w <= k < d ==> s[k] == digits[k - w];
    assert d < |s| ==> s[d] == tail[0];
    SpanDigitsExact(s, w, d);
    assert s[w..d] == digits;
    DecimalRoundTrip(n);
  }

  /** A status text as procfs writes it, its `VmRSS:` line after other lines,
      reads back as the figure of that line. */
  lemma VmRssLineRoundTrip(prefix: string, n: nat, pad: string, tail: string)
    requires LinesWithoutTag(prefix)
    requires |pad| > 0 && forall k :: 0 <= k < |pad| ==> IsWhitespace(pad[k])
    requires |tail| > 0 ==> !IsDigit(tail[0])
    ensures VmRssKb(prefix + Tag + pad + Decimal(n) + tail) == Some(n)
  {
    var rest := Tag + pad + Decimal(n) + tail;
    var s := prefix + Tag + pad + Decimal(n) + tail;
    assert s == prefix + rest;
    LineFigureRoundTrip(n, pad, tail);
    assert s[|prefix|..] == rest;
    assert AtLineStart(s, |prefix|) by {
      if |prefix| > 0 {
        assert s[|prefix| - 1] == prefix[|prefix| - 1];
      }
    }
    NoMatchInPrefix(prefix, rest);
    LeftmostMatch(s, |prefix|);
  }

  /** The figure comes from the first position where the regex matches. */
  lemma LeftmostMatch(s: string, p: nat)
    requires p <= |s| && MatchAt(s, p).Some?
    requires forall j :: 0 <= j < p ==> MatchAt(s, j).None?
    ensures VmRssKb(s) == MatchAt(s, p)
  {
    var f := FirstMatch(s, 0);
    assert f.Some? && f.value == p;
  }

  /** A status text with no line starting with `VmRSS:` has no figure. */
  lemma VmRssWithoutTag(status: string)
    requires forall i :: 0 <= i <= |status| - |Tag| && AtLineStart(status, i) ==> status[i..i + |Tag|] != Tag
    ensures VmRssKb(status) == None
  {
    forall i | 0 <= i <= |status| ensures MatchAt(status, i).None? {
    }
  }

  /** One pid's contribution: its figure, or 0 when the read throws or nothing matches. */
  function RssOf(status: map<Pid, string>, pid: Pid): nat {
    if pid in status then VmRssKb(status[pid]).GetOr(0) else 0
  }

  /** The sum of the contributions of `pids`, in order. */
  function RssTotal(status: map<Pid, string>, pids: seq<Pid>): nat
    decreases |pids|
  {
    if |pids| == 0 then 0 else RssTotal(status, pids[..|pids| - 1]) + RssOf(status, pids[|pids| - 1])
  }

  /** The sum over a concatenation is the sum of the sums. */
  lemma {:induction false} RssTotalAppend(status: map<Pid, string>, a: seq<Pid>, b: seq<Pid>)
    ensures RssTotal(status, a + b) == RssTotal(status, a) + RssTotal(status, b)
    decreases |b|
  {
    if |b| == 0 {
      assert a + b == a;
    } else {
      var b' := b[..|b| - 1];
      RssTotalAppend(status, a, b');
      assert (a + b)[..|a + b| - 1] == a + b';
    }
  }

  /** Every pid's contribution is part of the sum. */
  lemma {:induction false} RssTotalBound(status: map<Pid, string>, pids: seq<Pid>, p: Pid)
    requires p in pids
    ensures RssOf(status, p) <= RssTotal(status, pids)
    decreases |pids|
  {
    if pids[|pids| - 1] != p {
      assert p in pids[..|pids| - 1] by {
        var k :| 0 <= k < |pids| && pids[k] == p;
        assert pids[..|pids| - 1][k] == p;
      }
      RssTotalBound(status, pids[..|pids| - 1], p);
    }
  }

  /** Pids none of whose status texts can be read sum to 0. */
  lemma {:induction false} RssTotalUnreadable(status: map<Pid, string>, pids: seq<Pid>)
    requires forall k :: 0 <= k < |pids| ==> pids[k] !in status
    ensures RssTotal(status, pids) == 0
    decreases |pids|
  {
    if |pids| > 0 {
      RssTotalUnreadable(status, pids[..|pids| - 1]);
    }
  }

  /** Taking one pid out of the list takes its contribution out of the sum. */
  lemma RssTotalRemove(status: map<Pid, string>, b: seq<Pid>, k: nat)
    requires k < |b|
    ensures RssTotal(status, b) == RssTotal(status, b[..k] + b[k + 1..]) + RssOf(status, b[k])
  {
    assert b == b[..k] + ([b[k]] + b[k + 1..]);
    RssTotalAppend(status, b[..k], [b[k]] + b[k + 1..]);
    RssTotalAppend(status, [b[k]], b[k + 1..]);
    RssTotalAppend(status, b[..k], b[k + 1..]);
    assert RssTotal(status, [b[k]]) == RssOf(status, b[k]);
  }

  lemma MultisetRemoveLast(a: seq<Pid>, b: seq<Pid>, k: nat)
    requires multiset(a) == multiset(b) && |a| > 0 && k < |b| && b[k] == a[|a| - 1]
    ensures multiset(a[..|a| - 1]) == multiset(b[..k] + b[k + 1..])
  {
    var x := b[k];
    assert a == a[..|a| - 1] + [x];
    assert b == b[..k] + [x] + b[k + 1..];
    assert multiset(b[..k] + b[k + 1..]) == multiset(b) - multiset{x};
    assert multiset(a[..|a| - 1]) == multiset(a) - multiset{x};
  }

  /** The sum does not depend on the order of the pids. */
  lemma {:induction false} RssTotalPermutation(status: map<Pid, string>, a: seq<Pid>, b: seq<Pid>)
    requires multiset(a) == multiset(b)
    ensures RssTotal(status, a) == RssTotal(status, b)
    decreases |a|
  {
    if |a| == 0 {
      assert |b| == |multiset(b)| == 0;
    } else {
      var x := a[|a| - 1];
      var a' := a[..|a| - 1];
      assert a == a' + [x];
      assert x in multiset(b);
      var k :| 0 <= k < |b| && b[k] == x;
      var b' := b[..k] + b[k + 1..];
      MultisetRemoveLast(a, b, k);
      RssTotalPermutation(status, a', b');
      RssTotalRemove(status, b, k);
    }
  }

  /** `sumRssKb(pids)`: the loop that reads and adds up each pid's figure. */
  method SumRssKb(status: map<Pid, string>, pids: seq<Pid>) returns (total: nat)
    ensures total == RssTotal(status, pids)
  {
    total := 0;
    for i := 0 to |pids|
      invariant total == RssTotal(status, pids[..i])
    {
      var pid := pids[i];
      assert pids[..i + 1][..i] == pids[..i];
      if pid in status {
        var m := VmRssKb(status[pid]);
        if m.Some? {
          total := total + m.value;
        }
      }
    }
    assert pids[..|pids|] == pids;
  }
}
