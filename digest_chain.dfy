/** Reading a recorded digest out of a manifest-style text: the first place
    where a fixed line prefix is followed by a value and a CR LF, as the
    expression `<prefix>(.*)\r\n` finds it (leftmost match, `.` stopping at
    a line feed). The text is handled as bytes: in UTF-8 the bytes CR and LF
    occur only as those characters, so positions agree with the characters'. */
module DigestChain {
  import opened Wrappers
  import opened Bytes

  /** The first line feed at or after `start`, or the end of the text. */
  function LineEnd(text: Bytes, start: nat): (j: nat)
    requires start <= |text|
    ensures start <= j <= |text|
    ensures j < |text| ==> text[j] == LF
    ensures forall k :: start <= k < j ==> text[k] != LF
    decreases |text| - start
  {
    if start == |text| || text[start] == LF then start else LineEnd(text, start + 1)
  }

  /** The expression matches at `p`: the prefix is there and the rest of
      its line is ended by CR LF. */
  predicate MatchesAt(text: Bytes, prefix: Bytes, p: nat) {
    && p + |prefix| <= |text|
    && text[p..p + |prefix|] == prefix
    && LineEnd(text, p + |prefix|) < |text|
    && LineEnd(text, p + |prefix|) > p + |prefix|
    && text[LineEnd(text, p + |prefix|) - 1] == CR
  }

  /** What the group captures at a match: the rest of the line before CR. */
  function CaptureAt(text: Bytes, prefix: Bytes, p: nat): Bytes
    requires MatchesAt(text, prefix, p)
  {
    text[p + |prefix|..LineEnd(text, p + |prefix|) - 1]
  }

  /** The expression read literally: prefix, then a value `c` with no line
      feed in it, then CR LF. */
  predicate PatternAt(text: Bytes, prefix: Bytes, p: nat, c: Bytes) {
    && p + |prefix| + |c| + 2 <= |text|
    && text[p..p + |prefix|] == prefix
    && text[p + |prefix|..p + |prefix| + |c|] == c
    && LF !in c
    && text[p + |prefix| + |c|] == CR
    && text[p + |prefix| + |c| + 1] == LF
  }

  /** The greedy `(.*)` has exactly one way to match at a position: the
      capture is the whole rest of the line before its CR. */
  lemma PatternAtCapture(text: Bytes, prefix: Bytes, p: nat, c: Bytes)
    ensures PatternAt(text, prefix, p, c) <==> MatchesAt(text, prefix, p) && c == CaptureAt(text, prefix, p)
  {
    if PatternAt(text, prefix, p, c) {
      var start := p + |prefix|;
      var j := LineEnd(text, start);
      assert text[start + |c| + 1] == LF;
      forall k | start <= k < start + |c| + 1 ensures text[k] != LF {
        if k < start + |c| {
          assert text[k] == c[k - start];
        }
      }
      assert j == start + |c| + 1;
    }
    if MatchesAt(text, prefix, p) && c == CaptureAt(text, prefix, p) {
      var start := p + |prefix|;
      var j := LineEnd(text, start);
      assert |c| == j - 1 - start;
      assert LF !in c by {
        forall k | 0 <= k < |c| ensures c[k] != LF {
          assert c[k] == text[start + k];
        }
      }
    }
  }

  /** The first match at or after `i` is at `p`. */
  predicate FirstMatchFrom(text: Bytes, prefix: Bytes, i: nat, p: nat) {
    && i <= p
    && MatchesAt(text, prefix, p)
    && forall q :: i <= q < p ==> !MatchesAt(text, prefix, q)
  }

  function CaptureFrom(text: Bytes, prefix: Bytes, i: nat): (r: Option<Bytes>)
    ensures r.None? <==> forall p :: i <= p ==> !MatchesAt(text, prefix, p)
    ensures r.Some? ==> exists p :: FirstMatchFrom(text, prefix, i, p) && r.value == CaptureAt(text, prefix, p)
    decreases |text| - i
  {
    if i + |prefix| > |text| then None
    else if MatchesAt(text, prefix, i) then
      assert FirstMatchFrom(text, prefix, i, i);
      Some(CaptureAt(text, prefix, i))
    else
      var r := CaptureFrom(text, prefix, i + 1);
      assert forall p :: FirstMatchFrom(text, prefix, i + 1, p) ==> FirstMatchFrom(text, prefix, i, p);
      r
  }

  /** `Regex::captures(text)` and its group 1. */
  function Capture(text: Bytes, prefix: Bytes): (r: Option<Bytes>)
    ensures r.None? <==> forall p :: !MatchesAt(text, prefix, p)
    ensures r.Some? ==> exists p :: FirstMatchFrom(text, prefix, 0, p) && r.value == CaptureAt(text, prefix, p)
  {
    CaptureFrom(text, prefix, 0)
  }

  /** A value on a CR LF-ended line after the prefix is what is read,
      provided the expression matches nowhere earlier. */
  lemma CaptureOfLine(text: Bytes, prefix: Bytes, p: nat, v: Bytes)
    requires PatternAt(text, prefix, p, v)
    requires forall q: nat :: q < p ==> !MatchesAt(text, prefix, q)
    ensures Capture(text, prefix) == Some(v)
  {
    PatternAtCapture(text, prefix, p, v);
    var r := Capture(text, prefix);
    var p' :| FirstMatchFrom(text, prefix, 0, p') && r.value == CaptureAt(text, prefix, p');
    assert p' == p;
  }

  /** A capture holds no line feed. */
  lemma CaptureHasNoLineFeed(text: Bytes, prefix: Bytes)
    requires Capture(text, prefix).Some?
    ensures LF !in Capture(text, prefix).value
  {
    var p :| FirstMatchFrom(text, prefix, 0, p) && Capture(text, prefix).value == CaptureAt(text, prefix, p);
    PatternAtCapture(text, prefix, p, CaptureAt(text, prefix, p));
  }
}
