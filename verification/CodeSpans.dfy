// Inline code spans of a Markdown text: the scanner equals the rule of section
// 6.1 of the CommonMark Spec, and masking what it finds leaves no span behind.
module CodeSpans {
  import opened Options

  /** Start and end, delimiters included. */
  datatype Span = Span(start: nat, end: nat)

  // ---------------------------------------------------------------------
  // The rule
  // ---------------------------------------------------------------------

  /** A backtick string: backticks neither preceded nor followed by one. */
  ghost predicate Run(s: string, a: nat, length: nat) {
    && length > 0 && a + length <= |s|
    && (forall k :: a <= k < a + length ==> s[k] == '`')
    && (a > 0 ==> s[a - 1] != '`')
    && (a + length < |s| ==> s[a + length] != '`')
  }

  /** A backtick string of the length that starts in the range. */
  ghost predicate RunOf(s: string, length: nat, from: nat, limit: nat, a: nat) {
    from <= a < limit && Run(s, a, length)
  }

  ghost predicate NoRun(s: string, length: nat, from: nat, limit: nat) {
    forall a :: !RunOf(s, length, from, limit, a)
  }

  /** Delimited by backtick strings of one length, the second the first after the opening one. */
  ghost predicate IsSpan(s: string, x: Span) {
    exists length :: DelimitedBy(s, x, length)
  }

  ghost predicate DelimitedBy(s: string, x: Span, length: nat) {
    && Run(s, x.start, length)
    && x.start + length <= x.end - length && Run(s, x.end - length, length)
    && NoRun(s, length, x.start + length, x.end - length)
  }

  predicate Inside(spans: seq<Span>, k: nat) {
    exists x :: x in spans && x.start <= k < x.end
  }

  /** A backtick string that opens nothing: none of its length follows. */
  ghost predicate Literal(s: string, a: nat) {
    forall length :: Run(s, a, length) ==> NoRun(s, length, a + length, |s|)
  }

  /** The spans of the text from a place on: in order, apart from each other,
      and every backtick string outside them is literal. */
  ghost predicate Rule(s: string, from: nat, spans: seq<Span>) {
    && (forall k :: 0 <= k < |spans| ==> IsSpan(s, spans[k]) && from <= spans[k].start)
    && (forall j, k :: 0 <= j < k < |spans| ==> spans[j].end <= spans[k].start)
    && (forall a :: from <= a && !Inside(spans, a) ==> Literal(s, a))
  }

  lemma RunOnce(s: string, a: nat, m: nat, n: nat)
    requires Run(s, a, m) && Run(s, a, n)
    ensures m == n
  {
  }

  lemma SpanOnce(s: string, x: Span, y: Span)
    requires IsSpan(s, x) && IsSpan(s, y) && x.start == y.start
    ensures x == y
  {
    var l :| DelimitedBy(s, x, l);
    var m :| DelimitedBy(s, y, m);
    RunOnce(s, x.start, l, m);
    assert !RunOf(s, m, y.start + m, y.end - m, x.end - m);
    assert !RunOf(s, l, x.start + l, x.end - l, y.end - l);
  }

  lemma SpanIsNotLiteral(s: string, x: Span)
    requires IsSpan(s, x)
    ensures !Literal(s, x.start) && x.start < x.end <= |s|
  {
    var l :| DelimitedBy(s, x, l);
    assert RunOf(s, l, x.start + l, |s|, x.end - l);
  }

  lemma StartsAgree(s: string, from: nat, spans: seq<Span>, others: seq<Span>)
    requires Rule(s, from, spans) && Rule(s, from, others) && spans != []
    ensures others != [] && others[0].start <= spans[0].start
  {
    SpanIsNotLiteral(s, spans[0]);
    assert Inside(others, spans[0].start);
    var x :| x in others && x.start <= spans[0].start < x.end;
    var k :| 0 <= k < |others| && others[k] == x;
    if k > 0 { SpanIsNotLiteral(s, others[0]); }
  }

  lemma RestRules(s: string, from: nat, spans: seq<Span>)
    requires Rule(s, from, spans) && spans != []
    ensures Rule(s, spans[0].end, spans[1..])
  {
    SpanIsNotLiteral(s, spans[0]);
    forall a | spans[0].end <= a && !Inside(spans[1..], a) ensures Literal(s, a) {
      assert forall x :: x in spans ==> x == spans[0] || x in spans[1..];
      assert !Inside(spans, a);
    }
  }

  /** A text has one list of code spans. */
  lemma {:induction false} RuleOnce(s: string, from: nat, spans: seq<Span>, others: seq<Span>)
    requires Rule(s, from, spans) && Rule(s, from, others)
    ensures spans == others
    decreases |spans|
  {
    if spans == [] {
      if others != [] { StartsAgree(s, from, others, spans); }
    } else {
      StartsAgree(s, from, spans, others);
      StartsAgree(s, from, others, spans);
      SpanOnce(s, spans[0], others[0]);
      RestRules(s, from, spans);
      RestRules(s, from, others);
      RuleOnce(s, spans[0].end, spans[1..], others[1..]);
      assert spans == [spans[0]] + spans[1..] && others == [others[0]] + others[1..];
    }
  }

  // ---------------------------------------------------------------------
  // The scanner
  // ---------------------------------------------------------------------

  /** Not between two backticks. */
  predicate Edge(s: string, i: nat) {
    0 < i < |s| ==> s[i - 1] != '`' || s[i] != '`'
  }

  /** Where the backticks from a place end. */
  method RunEnd(text: string, index: nat) returns (end: nat)
    requires index < |text| && text[index] == '`' && Edge(text, index)
    ensures index < end && Run(text, index, end - index) && Edge(text, end)
  {
    end := index;
    while end < |text| && text[end] == '`'
      invariant index <= end <= |text| && forall k :: index <= k < end ==> text[k] == '`'
    {
      end := end + 1;
    }
  }

  /** The first backtick string of the length from a place on. */
  method FindClose(text: string, from: nat, run: nat) returns (close: Option<nat>)
    requires from <= |text| && Edge(text, from) && run > 0
    ensures close.None? ==> NoRun(text, run, from, |text|)
    ensures close.Some? ==> close.value <= |text| && Run(text, close.value, run)
    ensures close.Some? ==> from <= close.value && NoRun(text, run, from, close.value)
  {
    var scan := from;
    while scan < |text|
      invariant from <= scan <= |text| && Edge(text, scan) && NoRun(text, run, from, scan)
    {
      if text[scan] == '`' {
        var candidateEnd := RunEnd(text, scan);
        if candidateEnd - scan == run {
          return Some(scan);
        }
        RunPassed(text, run, from, scan, candidateEnd - scan);
        scan := candidateEnd;
      } else {
        ghost var next := scan + 1;
        forall c: nat ensures !RunOf(text, run, from, next, c) {
          assert !RunOf(text, run, from, scan, c);
        }
        scan := scan + 1;
      }
    }
    return None;
  }

  lemma RunPassed(s: string, length: nat, from: nat, a: nat, n: nat)
    requires from <= a && Run(s, a, n) && n != length && NoRun(s, length, from, a)
    ensures NoRun(s, length, from, a + n)
  {
    var end := a + n;
    forall c: nat ensures !RunOf(s, length, from, end, c) {
      assert !RunOf(s, length, from, a, c);
      if a < c < end { assert s[c - 1] == '`'; }
    }
  }

  /** `code_spans`. */
  method CodeSpans(text: string) returns (spans: seq<Span>)
    ensures Rule(text, 0, spans)
  {
    spans := [];
    var index := 0;
    while index < |text|
      invariant index <= |text| && Edge(text, index) && Found(text, index, spans)
    {
      if text[index] != '`' {
        PlainPassed(text, index, spans);
        index := index + 1;
      } else {
        var runEnd := RunEnd(text, index);
        var close := FindClose(text, runEnd, runEnd - index);
        if close.None? {
          LiteralPassed(text, index, runEnd, spans);
          index := runEnd;
        } else {
          var x := Span(index, close.value + (runEnd - index));
          assert DelimitedBy(text, x, runEnd - index);
          SpanFound(text, x, spans);
          spans := spans + [x];
          index := x.end;
        }
      }
    }
    assert forall a :: a >= |text| ==> Literal(text, a);
  }

  /** What the scanner has when it stands at a place: the spans before it. */
  ghost predicate Found(s: string, index: nat, spans: seq<Span>) {
    && (forall k :: 0 <= k < |spans| ==> IsSpan(s, spans[k]) && spans[k].end <= index)
    && (forall j, k :: 0 <= j < k < |spans| ==> spans[j].end <= spans[k].start)
    && (forall a :: 0 <= a < index && !Inside(spans, a) ==> Literal(s, a))
  }

  lemma PlainPassed(s: string, index: nat, spans: seq<Span>)
    requires index < |s| && s[index] != '`' && Found(s, index, spans)
    ensures Found(s, index + 1, spans)
  {
  }

  lemma LiteralPassed(s: string, index: nat, end: nat, spans: seq<Span>)
    requires index < end && Run(s, index, end - index) && NoRun(s, end - index, end, |s|) && Found(s, index, spans)
    ensures Found(s, end, spans)
  {
    forall a | index <= a < end ensures Literal(s, a) {
      if a == index {
        forall n | Run(s, a, n) ensures NoRun(s, n, a + n, |s|) {
          RunOnce(s, a, n, end - index);
        }
      } else {
        assert s[a - 1] == '`';
      }
    }
  }

  lemma SpanFound(s: string, x: Span, spans: seq<Span>)
    requires IsSpan(s, x) && Found(s, x.start, spans)
    ensures x.start < x.end && Found(s, x.end, spans + [x])
  {
    SpanIsNotLiteral(s, x);
    forall a: nat | a < x.end && !Inside(spans + [x], a) ensures Literal(s, a) {
      assert x in spans + [x];
      assert forall y :: y in spans ==> y in spans + [x];
      assert !Inside(spans, a);
    }
  }

  // ---------------------------------------------------------------------
  // Masking
  // ---------------------------------------------------------------------

  /** Spaces inside the spans, the text outside. */
  ghost predicate MaskOf(masked: string, text: string, spans: seq<Span>) {
    && |masked| == |text|
    && forall i :: 0 <= i < |text| ==> masked[i] == if Inside(spans, i) then ' ' else text[i]
  }

  /** `mask_code`. */
  method MaskCode(text: string, spans: seq<Span>) returns (masked: string)
    requires forall x :: x in spans ==> x.start <= x.end <= |text|
    ensures MaskOf(masked, text, spans)
  {
    var chars := new char[|text|](i requires 0 <= i < |text| => text[i]);
    for k := 0 to |spans|
      invariant forall i :: 0 <= i < |text| ==> chars[i] == if Inside(spans[..k], i) then ' ' else text[i]
    {
      var x := spans[k];
      assert x in spans;
      for index := x.start to x.end
        invariant forall i :: 0 <= i < |text| ==>
          chars[i] == if Inside(spans[..k], i) || x.start <= i < index then ' ' else text[i]
      {
        chars[index] := ' ';
      }
      InsideNext(spans, k);
    }
    assert spans[..|spans|] == spans;
    masked := chars[..];
  }

  lemma InsideNext(spans: seq<Span>, k: nat)
    requires k < |spans|
    ensures forall i: nat :: Inside(spans[..k + 1], i) <==> Inside(spans[..k], i) || spans[k].start <= i < spans[k].end
  {
    assert spans[..k + 1] == spans[..k] + [spans[k]];
    forall i: nat ensures Inside(spans[..k + 1], i) <==> Inside(spans[..k], i) || spans[k].start <= i < spans[k].end {
      if Inside(spans[..k], i) {
        var x :| x in spans[..k] && x.start <= i < x.end;
        assert x in spans[..k + 1];
      }
      assert spans[k] in spans[..k + 1];
    }
  }

  /** A text without its code spans has none. */
  lemma MaskedHasNoSpans(text: string, spans: seq<Span>, masked: string)
    requires Rule(text, 0, spans) && MaskOf(masked, text, spans)
    ensures Rule(masked, 0, [])
  {
    forall a: nat ensures Literal(masked, a) {
      forall n | Run(masked, a, n) ensures NoRun(masked, n, a + n, |masked|) {
        StaysLiteral(text, spans, masked, a, n);
      }
    }
  }

  lemma StaysLiteral(text: string, spans: seq<Span>, masked: string, a: nat, n: nat)
    requires Rule(text, 0, spans) && MaskOf(masked, text, spans) && Run(masked, a, n)
    ensures NoRun(masked, n, a + n, |masked|)
  {
    hide Rule, Run, Inside;
    KeptRun(text, spans, masked, a, n);
    OutsideIsLiteral(text, spans, a);
    var from, end := a + n, |text|;
    forall c: nat ensures !RunOf(masked, n, from, end, c) {
      if Run(masked, c, n) { KeptRun(text, spans, masked, c, n); }
      assert !RunOf(text, n, from, end, c);
    }
  }

  lemma OutsideIsLiteral(s: string, spans: seq<Span>, a: nat)
    requires Rule(s, 0, spans) && !Inside(spans, a)
    ensures Literal(s, a)
  {
  }

  /** A backtick string that masking left was one before, outside every span. */
  lemma KeptRun(text: string, spans: seq<Span>, masked: string, a: nat, n: nat)
    requires Rule(text, 0, spans) && MaskOf(masked, text, spans) && Run(masked, a, n)
    ensures Run(text, a, n) && !Inside(spans, a)
  {
    assert masked[a] == '`';
    if a > 0 && Inside(spans, a - 1) { SpanEnds(text, spans, a); }
    if a + n < |text| && Inside(spans, a + n) { SpanStarts(text, spans, a + n); }
  }

  lemma SpanEnds(text: string, spans: seq<Span>, a: nat)
    requires Rule(text, 0, spans) && a > 0 && Inside(spans, a - 1) && !Inside(spans, a)
    ensures a < |text| ==> text[a] != '`'
  {
    var x :| x in spans && x.start <= a - 1 < x.end;
    assert x.end == a;
    SpanIsNotLiteral(text, x);
    var l :| DelimitedBy(text, x, l);
  }

  lemma SpanStarts(text: string, spans: seq<Span>, b: nat)
    requires Rule(text, 0, spans) && b > 0 && Inside(spans, b) && !Inside(spans, b - 1)
    ensures text[b - 1] != '`'
  {
    var x :| x in spans && x.start <= b < x.end;
    assert x.start == b;
    var l :| DelimitedBy(text, x, l);
  }
}
