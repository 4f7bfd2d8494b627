/** Rewriting the text: every finding's span gives way to its handle. */
module Replace {
  import opened Basics
  import opened Text
  import opened Findings

  const SCHEME: string := "lockrail://secret/"

  function Handle(f: Finding): string {
    SCHEME + f.kind + "/" + f.fingerprint
  }

  /** Spans in order, apart, and inside the text: what slicing demands. */
  predicate Spans(input: string, fs: seq<Finding>) {
    Disjoint(fs) && Proper(fs) && forall i :: 0 <= i < |fs| ==> fs[i].end <= |input|
  }

  /** The text from `cursor` on, with the spans of `fs` replaced. */
  function Rewritten(input: string, fs: seq<Finding>, cursor: nat): string
    requires Spans(input, fs) && cursor <= |input| && (fs != [] ==> cursor <= fs[0].start)
  {
    if fs == [] then input[cursor..]
    else input[cursor..fs[0].start] + Handle(fs[0]) + Rewritten(input, fs[1..], fs[0].end)
  }

  lemma SpansTail(input: string, fs: seq<Finding>, i: nat)
    requires Spans(input, fs) && i <= |fs|
    ensures Spans(input, fs[i..])
    ensures 0 < i < |fs| ==> fs[i - 1].end <= fs[i].start
  {}

  /** One round of the loop, at finding `i`. */
  lemma RewrittenStep(input: string, fs: seq<Finding>, i: nat, cursor: nat, out: string)
    requires Spans(input, fs) && i < |fs| && cursor <= fs[i].start
    ensures Spans(input, fs[i..]) && Spans(input, fs[i + 1..])
    ensures i + 1 < |fs| ==> fs[i].end <= fs[i + 1].start
    ensures out + Rewritten(input, fs[i..], cursor)
         == out + input[cursor..fs[i].start] + Handle(fs[i]) + Rewritten(input, fs[i + 1..], fs[i].end)
  {
    SpansTail(input, fs, i);
    SpansTail(input, fs, i + 1);
    assert fs[i..][1..] == fs[i + 1..] && fs[i..][0] == fs[i];
    var gap, handle, rest := input[cursor..fs[i].start], Handle(fs[i]), Rewritten(input, fs[i + 1..], fs[i].end);
    assert out + (gap + handle + rest) == out + gap + handle + rest;
  }

  /** `replace_with_handles`. */
  method ReplaceWithHandles(input: string, findings: seq<Finding>) returns (out: string)
    requires Spans(input, findings)
    ensures out == Rewritten(input, findings, 0)
  {
    out := "";
    var cursor: nat := 0;
    assert findings[0..] == findings;
    for i := 0 to |findings|
      invariant cursor <= |input| && (i < |findings| ==> cursor <= findings[i].start)
      invariant Spans(input, findings[i..])
      invariant out + Rewritten(input, findings[i..], cursor) == Rewritten(input, findings, 0)
    {
      var finding := findings[i];
      RewrittenStep(input, findings, i, cursor, out);
      out := out + input[cursor..finding.start];
      out := out + (SCHEME + finding.kind + "/" + finding.fingerprint);
      cursor := finding.end;
    }
    out := out + input[cursor..];
  }

  // ---------- position by position ----------

  /** Position `p` lies in some span. */
  ghost predicate Inside(fs: seq<Finding>, p: nat) {
    exists k :: k in fs && k.start <= p < k.end
  }

  /** The handle of the span that starts at `p`, if one does. */
  function HandleAt(fs: seq<Finding>, p: nat): string {
    if fs == [] then "" else if fs[0].start == p then Handle(fs[0]) else HandleAt(fs[1..], p)
  }

  /**
   The output said position by position: at each position the handle of the span that starts
   there, and the character itself if it is in no span.
   */
  ghost function PerPosition(input: string, fs: seq<Finding>, p: nat): string
    requires p <= |input|
    decreases |input| - p
  {
    if p == |input| then ""
    else HandleAt(fs, p) + (if Inside(fs, p) then "" else [input[p]]) + PerPosition(input, fs, p + 1)
  }

  lemma {:induction false} NoHandleBefore(fs: seq<Finding>, p: nat)
    requires forall k :: k in fs ==> p < k.start
    ensures HandleAt(fs, p) == ""
    decreases fs
  {
    if fs != [] { NoHandleBefore(fs[1..], p); }
  }

  lemma {:induction false} NoHandleWithin(fs: seq<Finding>, p: nat)
    requires Disjoint(fs) && Proper(fs) && fs != [] && fs[0].start < p < fs[0].end
    ensures HandleAt(fs, p) == ""
  {
    forall k | k in fs[1..] ensures p < k.start {
      var i :| 1 <= i < |fs| && fs[i] == k;
      assert fs[0].end <= fs[i].start;
    }
    NoHandleBefore(fs[1..], p);
  }

  /** Inside the first span nothing is emitted. */
  lemma SilentInside(input: string, fs: seq<Finding>, p: nat)
    requires Spans(input, fs) && fs != [] && fs[0].start < p < fs[0].end
    ensures PerPosition(input, fs, p) == PerPosition(input, fs, p + 1)
  {
    NoHandleWithin(fs, p);
    assert fs[0] in fs && Inside(fs, p);
  }

  lemma {:induction false} RestOfSpan(input: string, fs: seq<Finding>, p: nat)
    requires Spans(input, fs) && fs != [] && fs[0].start < p <= fs[0].end
    ensures PerPosition(input, fs, p) == PerPosition(input, fs, fs[0].end)
    decreases fs[0].end - p
  {
    if p < fs[0].end {
      SilentInside(input, fs, p);
      RestOfSpan(input, fs, p + 1);
    }
  }

  lemma {:induction false} PastFirst(input: string, fs: seq<Finding>, p: nat)
    requires Spans(input, fs) && fs != [] && fs[0].end <= p <= |input|
    ensures PerPosition(input, fs, p) == PerPosition(input, fs[1..], p)
    decreases |input| - p
  {
    if p < |input| {
      PastFirst(input, fs, p + 1);
      assert fs == [fs[0]] + fs[1..];
    }
  }

  /**
   The rewriting loop copies every character outside the spans exactly once, in order, and
   no character inside them, and puts each handle where its span started.
   */
  lemma {:induction false} RewrittenPerPosition(input: string, fs: seq<Finding>, cursor: nat)
    requires Spans(input, fs) && cursor <= |input| && (fs != [] ==> cursor <= fs[0].start)
    ensures Rewritten(input, fs, cursor) == PerPosition(input, fs, cursor)
    decreases |input| - cursor
  {
    if cursor == |input| {
      assert fs == [];
    } else if fs != [] && fs[0].start == cursor {
      SpansTail(input, fs, 1);
      RewrittenPerPosition(input, fs[1..], fs[0].end);
      SkipSpan(input, fs);
      RewrittenSkips(input, fs);
    } else {
      RewrittenPerPosition(input, fs, cursor + 1);
      CopyOne(input, fs, cursor);
    }
  }

  lemma RewrittenSkips(input: string, fs: seq<Finding>)
    requires Spans(input, fs) && fs != []
    ensures Spans(input, fs[1..]) && (fs[1..] != [] ==> fs[0].end <= fs[1..][0].start)
    ensures Rewritten(input, fs, fs[0].start) == Handle(fs[0]) + Rewritten(input, fs[1..], fs[0].end)
  {
    SpansTail(input, fs, 1);
    var gap, handle, rest := input[fs[0].start..fs[0].start], Handle(fs[0]), Rewritten(input, fs[1..], fs[0].end);
    EmptyGap(gap, handle, rest);
  }

  lemma EmptyGap(gap: string, handle: string, rest: string)
    requires gap == ""
    ensures gap + handle + rest == handle + rest
  {}

  lemma SkipSpan(input: string, fs: seq<Finding>)
    requires Spans(input, fs) && fs != []
    ensures PerPosition(input, fs, fs[0].start) == Handle(fs[0]) + PerPosition(input, fs[1..], fs[0].end)
  {
    PastFirst(input, fs, fs[0].end);
    RestOfSpan(input, fs, fs[0].start + 1);
    assert fs[0] in fs;
  }

  /** In front of the next span one character is copied and no handle starts. */
  lemma CopyOne(input: string, fs: seq<Finding>, cursor: nat)
    requires Spans(input, fs) && cursor < |input| && (fs != [] ==> cursor < fs[0].start)
    ensures Rewritten(input, fs, cursor) == [input[cursor]] + Rewritten(input, fs, cursor + 1)
    ensures HandleAt(fs, cursor) == "" && !Inside(fs, cursor)
  {
    forall k | k in fs ensures cursor < k.start {
      var i :| 0 <= i < |fs| && fs[i] == k;
      if i > 0 { assert fs[0].end <= fs[i].start; }
    }
    NoHandleBefore(fs, cursor);
    if fs == [] {
      OneOfGap(input, cursor, |input|, "");
      assert input[cursor..] == input[cursor..|input|] + "" && input[cursor + 1..] == input[cursor + 1..|input|] + "";
    } else {
      var rest := AfterGap(input, fs, cursor);
      assert rest == AfterGap(input, fs, cursor + 1);
      OneOfGap(input, cursor, fs[0].start, rest);
    }
  }

  /** The text from the first span on, rewritten. */
  function AfterGap(input: string, fs: seq<Finding>, cursor: nat): (rest: string)
    requires Spans(input, fs) && fs != [] && cursor <= fs[0].start
    ensures Rewritten(input, fs, cursor) == input[cursor..fs[0].start] + rest
  {
    SpansTail(input, fs, 1);
    Associates(input[cursor..fs[0].start], Handle(fs[0]), Rewritten(input, fs[1..], fs[0].end));
    Handle(fs[0]) + Rewritten(input, fs[1..], fs[0].end)
  }

  lemma OneOfGap(input: string, cursor: nat, end: nat, rest: string)
    requires cursor < end <= |input|
    ensures input[cursor..end] + rest == [input[cursor]] + (input[cursor + 1..end] + rest)
  {
    assert input[cursor..end] == [input[cursor]] + input[cursor + 1..end];
  }

  function SpanLengths(fs: seq<Finding>): int {
    if fs == [] then 0 else Length(fs[0]) + SpanLengths(fs[1..])
  }

  function HandleLengths(fs: seq<Finding>): nat {
    if fs == [] then 0 else |Handle(fs[0])| + HandleLengths(fs[1..])
  }

  lemma {:induction false} RewrittenLength(input: string, fs: seq<Finding>, cursor: nat)
    requires Spans(input, fs) && cursor <= |input| && (fs != [] ==> cursor <= fs[0].start)
    ensures |Rewritten(input, fs, cursor)| == |input| - cursor - SpanLengths(fs) + HandleLengths(fs)
    decreases fs
  {
    if fs != [] { RewrittenLength(input, fs[1..], fs[0].end); }
  }
}
