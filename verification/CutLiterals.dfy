// The legal segments that are cut are never masked as they should be: behind
// each of them one character of code tells.
module CutLiterals {
  import opened Options
  import opened RustLexer

  // ---------------------------------------------------------------------
  // How a turn ends
  // ---------------------------------------------------------------------

  /** A quote that no backslash stands before, among the first `n` characters. */
  ghost predicate BareQuote(s: string, q: char, n: nat) {
    exists j :: 0 <= j < n && j < |s| && s[j] == q && (j == 0 || s[j - 1] != '\\')
  }

  lemma BareAt(s: string, q: char, n: nat, j: nat)
    requires j < n && j < |s| && s[j] == q && (j == 0 || s[j - 1] != '\\')
    ensures BareQuote(s, q, n)
  {
  }

  lemma {:induction false} BlockEnds(s: string, depth: nat)
    requires depth > 0 && BlockLength(s, depth) < |s|
    ensures var n := BlockLength(s, depth); n > 0 && s[n - 1] == '/'
    decreases |s|
  {
    BlockUnfold(s, depth);
    hide BlockLength;
    if Pair(s, '/', '*') {
      BlockEnds(s[2..], depth + 1);
    } else if Pair(s, '*', '/') {
      if depth > 1 { BlockEnds(s[2..], depth - 1); } else { BlockDone(s[2..], 0); }
    } else {
      BlockEnds(s[1..], depth);
    }
  }

  lemma {:induction false} CookedEnds(s: string)
    requires CookedLength(s) < |s|
    ensures var n := CookedLength(s); s[n] == '\n' || (n > 0 && s[n - 1] == '"')
    decreases |s|
  {
    if s[0] == '\\' {
      CookedEnds(s[2..]);
    } else if s[0] != '"' && s[0] != '\n' {
      CookedEnds(s[1..]);
    }
  }

  lemma FoundEnds(s: string, pat: string)
    requires pat != "" && FindEnd(s, pat) < |s|
    ensures var n := FindEnd(s, pat); n >= |pat| && s[n - 1] == pat[|pat| - 1]
  {
    hide Find;
    var at := Find(s, pat).value;
    assert s[at..at + |pat|] == pat;
    assert s[at + |pat| - 1] == s[at..at + |pat|][|pat| - 1];
  }

  lemma RawEnds(s: string)
    requires RawLength(s).Some? && RawLength(s).value < |s|
    ensures var n := RawLength(s).value;
      n > 1 && (s[n - 1] == '#' || (s[n - 1] == '"' && s[0] == '"'))
  {
    hide FindEnd;
    var h := HashRun(s);
    var closer := "\"" + Hashes(h);
    FoundEnds(s[h + 1..], closer);
  }

  /** What is blanked ends, on its line, with no backslash, and with a quote only
      when a bare one opened it. */
  ghost predicate EndsWell(s: string, n: nat) {
    0 < n <= |s| && s[n - 1] != '\\'
    && (s[n - 1] == '"' ==> BareQuote(s, '"', n - 1)) && (s[n - 1] == '\'' ==> BareQuote(s, '\'', n - 1))
  }

  lemma LineTurn(s: string)
    requires Pair(s, '/', '/') && Scan(s).next < |s|
    ensures s[Scan(s).next] == '\n'
  {
    var at := Find(s, "\n").value;
    hide Find;
    assert s[at..at + 1] == "\n";
    assert s[at] == s[at..at + 1][0];
  }

  lemma RawTurn(s: string, p: nat)
    requires 0 < p < |s| && s[p - 1] == 'r' && RawLength(s[p..]).Some? && p + RawLength(s[p..]).value < |s|
    ensures EndsWell(s, p + RawLength(s[p..]).value)
  {
    RawEnds(s[p..]);
    hide RawLength;
    var n := p + RawLength(s[p..]).value;
    assert s[n - 1] == s[p..][n - p - 1];
    if s[n - 1] == '"' { BareAt(s, '"', n - 1, p); }
  }

  lemma CookedTurn(s: string, p: nat)
    requires p < |s| && s[p] == '"' && (p == 0 || s[p - 1] != '\\') && p + 1 + CookedLength(s[p + 1..]) < |s|
    ensures var n := p + 1 + CookedLength(s[p + 1..]); s[n] == '\n' || EndsWell(s, n)
  {
    CookedEnds(s[p + 1..]);
    hide CookedLength;
    var n := p + 1 + CookedLength(s[p + 1..]);
    assert s[n] == s[p + 1..][n - p - 1];
    if s[n] != '\n' {
      assert s[n - 1] == s[p + 1..][n - p - 2];
      BareAt(s, '"', n - 1, p);
    }
  }

  lemma CharTurn(s: string)
    requires s != [] && s[0] == '\'' && Scan(s).next < |s| && Scan(s).kept == 0
    ensures EndsWell(s, Scan(s).next)
  {
    hide BlockLength, CookedLength, RawLength, FindEnd;
    var n := Scan(s).next;
    if !(|s| > 2 && s[2] == '\'') {
      FoundEnds(s[2..], "'");
      assert s[n - 1] == s[2..][n - 3];
    }
    BareAt(s, '\'', n - 1, 0);
  }

  lemma ByteTurn(s: string)
    requires Pair(s, 'b', '\'') && |s| > 3 && s[3] == '\''
    ensures Scan(s).next == 4 && EndsWell(s, 4)
  {
    hide BlockLength, CookedLength, RawLength, FindEnd;
    BareAt(s, '\'', 3, 1);
  }

  lemma BlockTurn(s: string)
    requires Pair(s, '/', '*') && Scan(s).next < |s|
    ensures EndsWell(s, Scan(s).next)
  {
    BlockEnds(s[2..], 1);
    hide BlockLength, CookedLength, RawLength, FindEnd;
    var n := Scan(s).next;
    assert s[n - 1] == s[2..][n - 3];
  }

  lemma TurnEnds(s: string)
    requires s != [] && Scan(s).kept < Scan(s).next < |s|
    ensures var n := Scan(s).next; s[n] == '\n' || EndsWell(s, n)
  {
    var c, t := s[0], Scan(s);
    if Pair(s, '/', '/') {
      LineTurn(s);
    } else if Pair(s, '/', '*') {
      BlockTurn(s);
    } else if c == '\'' {
      CharTurn(s);
    } else if Pair(s, 'b', '\'') {
      if |s| > 3 && s[3] == '\'' { ByteTurn(s); }
    } else {
      hide BlockLength, CookedLength, RawLength, FindEnd, EndsWell;
      if c == '"' {
        CookedTurn(s, 0);
      } else if Pair(s, 'b', '"') {
        CookedTurn(s, 1);
      } else if Pair(s, 'b', 'r') {
        if RawLength(s[2..]).Some? { RawTurn(s, 2); }
      } else if c == 'r' && |s| > 1 && (s[1] == '"' || s[1] == '#') {
        if RawLength(s[1..]).Some? { RawTurn(s, 1); }
      }
    }
  }

  // ---------------------------------------------------------------------
  // A quote at the end tells
  // ---------------------------------------------------------------------

  /** Text that ends with the quote and an `x`, any other such quote behind a backslash. */
  ghost predicate Loaded(s: string, q: char) {
    && |s| >= 2 && s[|s| - 2] == q && s[|s| - 1] == 'x' && (q == '"' || q == '\'')
    && forall j :: 0 <= j < |s| - 2 && s[j] == q ==> j > 0 && s[j - 1] == '\\'
  }

  /** Everything but the last character is blanked. */
  ghost predicate Tells(s: string) {
    s != "" && Masked(s) == Blanked(s[..|s| - 1]) + "x"
  }

  lemma MaskedAt(s: string, k: nat)
    requires s != [] && k < |s|
    ensures |Masked(s)| == |s|
    ensures var t := Scan(s);
      Masked(s)[k] == if k < t.kept then s[k] else if k < t.next then Blanked(s)[k] else Masked(s[t.next..])[k - t.next]
    ensures Scan(s).next < |s| ==> |Masked(s[Scan(s).next..])| == |s| - Scan(s).next
  {
    MaskedTurn(s, Scan(s));
    MaskFrame(s);
    MaskFrame(s[Scan(s).next..]);
    hide Scan, Masked;
  }

  lemma TellsNext(s: string)
    requires s != [] && Scan(s).next < |s| && Tells(s)
    ensures Tells(s[Scan(s).next..])
  {
    hide Scan, Masked;
    var n := Scan(s).next;
    var tail := s[n..];
    MaskedAt(s, n);
    forall k | n <= k < |s| ensures Masked(s)[k] == Masked(tail)[k - n] { MaskedAt(s, k); }
    assert Masked(tail) == Blanked(tail[..|tail| - 1]) + "x" by {
      forall k | 0 <= k < |tail| ensures Masked(tail)[k] == (Blanked(tail[..|tail| - 1]) + "x")[k] {
        assert Masked(tail)[k] == Masked(s)[n + k];
        if k < |tail| - 1 { assert tail[..|tail| - 1][k] == s[..|s| - 1][n + k]; }
      }
    }
  }

  /** When everything blanks, a character that is kept is white. */
  lemma KeptIsWhite(s: string)
    requires |s| >= 2 && Scan(s).kept > 0 && Tells(s)
    ensures s[0] == ' ' || s[0] == '\n'
  {
    hide Scan, Masked;
    MaskedAt(s, 0);
    assert Masked(s)[0] == Blanked(s[..|s| - 1])[0];
  }

  lemma KeepsOne(s: string)
    requires s != [] && Scan(s).kept > 0 && s[0] != 'b'
    ensures Scan(s) == Turn(1, 1)
  {
    hide BlockLength, CookedLength, RawLength, FindEnd;
  }

  lemma LoadedTail(s: string, q: char, n: nat)
    requires Loaded(s, q) && 0 < n <= |s| - 2 && s[n - 1] != '\\'
    ensures Loaded(s[n..], q)
  {
    var tail := s[n..];
    forall j | 0 <= j < |tail| - 2 && tail[j] == q ensures j > 0 && tail[j - 1] == '\\' {
      assert s[n + j] == q && s[n + j - 1] == '\\';
    }
  }

  lemma LoadedLine(s: string, q: char, n: nat)
    requires Loaded(s, q) && 0 < n <= |s| - 2 && s[n] == '\n'
    ensures Loaded(s[n..], q)
  {
    var tail := s[n..];
    forall j | 0 <= j < |tail| - 2 && tail[j] == q ensures j > 0 && tail[j - 1] == '\\' {
      assert s[n + j] == q && s[n + j - 1] == '\\';
    }
  }

  lemma LoadedHasNoBare(s: string, q: char, n: nat)
    requires Loaded(s, q) && n <= |s| - 2
    ensures !BareQuote(s, q, n)
  {
  }

  lemma BlankToTheEnd(s: string)
    requires s != "" && Scan(s).kept == 0 && Scan(s).next == |s| && s[|s| - 1] == 'x'
    ensures !Tells(s)
  {
    hide Scan, Masked;
    MaskedAt(s, |s| - 1);
  }

  lemma ShortTells(s: string, q: char)
    requires Loaded(s, q) && |s| == 2
    ensures !Tells(s)
  {
    MaskedAt(s, 0);
    MaskedAt(s, 1);
    ShortScan(s, q);
    hide Masked, Scan;
  }

  lemma ShortScan(s: string, q: char)
    requires Loaded(s, q) && |s| == 2
    ensures Scan(s) == if q == '"' then Turn(0, 2) else Turn(1, 1)
  {
    hide BlockLength, RawLength, FindEnd;
    assert s[1..] == "x" && "x"[1..] == "";
  }

  /** The quote opens a literal around the `x`, or it stands itself. */
  lemma {:induction false} QuoteTells(s: string, q: char)
    requires Loaded(s, q)
    ensures !Tells(s)
    decreases |s|
  {
    hide Scan, Masked, Tells, BareQuote, Blanked, Loaded;
    if Tells(s) {
      LoadedEnds(s, q);
      var t := Scan(s);
      if |s| == 2 {
        ShortTells(s, q);
      } else if t.kept > 0 {
        KeptIsWhite(s);
        KeepsOne(s);
        LoadedTail(s, q, 1);
        TellsNext(s);
        QuoteTells(s[1..], q);
      } else if t.next == |s| {
        BlankToTheEnd(s);
      } else {
        TurnEnds(s);
        TellsNext(s);
        if t.next == |s| - 1 {
          LoadedHasNoBare(s, q, |s| - 2);
        } else {
          if s[t.next] == '\n' { LoadedLine(s, q, t.next); } else { LoadedTail(s, q, t.next); }
          QuoteTells(s[t.next..], q);
        }
      }
    }
  }

  lemma LoadedEnds(s: string, q: char)
    requires Loaded(s, q)
    ensures |s| >= 2 && s[|s| - 2] == q && s[|s| - 1] == 'x' && (q == '"' || q == '\'')
  {
  }

  // ---------------------------------------------------------------------
  // Masking a segment
  // ---------------------------------------------------------------------

  /** The segment shows what it should, and the text behind it is masked by itself. */
  ghost predicate MaskedWhole(x: Segment, rest: string) {
    Masked(SegmentText(x) + rest) == SegmentShown(x) + Masked(rest)
  }

  lemma MaskedX()
    ensures Masked("x") == "x"
  {
    hide BlockLength, CookedLength, RawLength, FindEnd;
    MaskedTurn("x", Scan("x"));
    NothingMasked();
    NothingBlanked();
    assert "x"[1..] == "" && "x"[1..1] == [] && "x"[..1] == "x";
  }

  lemma BlankedConcat(a: string, b: string)
    ensures Blanked(a + b) == Blanked(a) + Blanked(b)
  {
  }

  /** Every quote in the text stands behind a backslash. */
  ghost predicate Escaping(t: string) {
    forall j :: 0 <= j < |t| && t[j] == '"' ==> j > 0 && t[j - 1] == '\\'
  }

  lemma EscapingJoined(head: string, tail: string)
    requires Escaping(tail) && (head == "" || head[0] != '"')
    requires forall j :: 0 < j < |head| && head[j] == '"' ==> head[j - 1] == '\\'
    ensures Escaping(head + tail)
  {
    var t := head + tail;
    forall j | 0 <= j < |t| && t[j] == '"' ensures j > 0 && t[j - 1] == '\\' {
      if j < |head| {
        assert head[j] == '"' && t[j - 1] == head[j - 1];
      } else {
        assert tail[j - |head|] == '"' && t[j - 1] == tail[j - |head| - 1];
      }
    }
  }

  lemma {:induction false} QuotesEscaped(chars: seq<StringChar>)
    requires LegalChars(chars)
    ensures Escaping(CookedText(chars))
  {
    if chars != [] {
      assert chars[0] in chars;
      QuotesEscaped(chars[1..]);
      var head := match chars[0] case Plain(c) => [c] case Escaped(c) => ['\\', c];
      EscapingJoined(head, CookedText(chars[1..]));
    }
  }

  /** The lines of a cooked literal but the first, and its quote. */
  function LaterLines(chars: seq<StringChar>): string {
    CookedText(chars[FirstLine(chars)..]) + "\""
  }

  lemma LaterLinesLoaded(chars: seq<StringChar>)
    requires LegalChars(chars)
    ensures Loaded(LaterLines(chars) + "x", '"') && OtherLines(chars, "x") == LaterLines(chars) + "x"
  {
    var tail := chars[FirstLine(chars)..];
    assert LegalChars(tail);
    QuotesEscaped(tail);
    hide CookedText, LegalChars;
    EscapingLoaded(CookedText(tail));
  }

  lemma EscapingLoaded(t: string)
    requires Escaping(t)
    ensures Loaded(t + "\"" + "x", '"')
  {
    var s := t + "\"" + "x";
    forall j | 0 <= j < |s| - 2 && s[j] == '"' ensures j > 0 && s[j - 1] == '\\' {
      assert t[j] == '"' && s[j - 1] == t[j - 1];
    }
  }

  lemma LinesShown(byte: bool, chars: seq<StringChar>)
    requires LegalChars(chars)
    ensures SegmentShown(Cooked(byte, chars))
         == BytePrefix(byte) + Blanked(FirstLineText(chars)) + Blanked(LaterLines(chars))
  {
    LinesText(chars);
    hide CookedText, LegalChars, FirstLine, OneLine;
    var p := BytePrefix(byte);
    var body := FirstLineText(chars) + LaterLines(chars);
    var t := SegmentText(Cooked(byte, chars));
    assert t == p + body;
    assert t[..|p|] == p && t[|p|..] == body;
    BlankedConcat(FirstLineText(chars), LaterLines(chars));
    assert p + (Blanked(FirstLineText(chars)) + Blanked(LaterLines(chars)))
        == p + Blanked(FirstLineText(chars)) + Blanked(LaterLines(chars));
  }

  lemma LinesTell(byte: bool, chars: seq<StringChar>)
    requires LegalChars(chars) && !OneLine(chars)
    ensures !MaskedWhole(Cooked(byte, chars), "x")
  {
    OtherLinesAreScanned(byte, chars, "x");
    LinesShown(byte, chars);
    LaterLinesLoaded(chars);
    MaskedX();
    QuoteTells(LaterLines(chars) + "x", '"');
    hide *;
    hide LaterLines;
    var front, back := BytePrefix(byte) + Blanked(FirstLineText(chars)), LaterLines(chars);
    assert (back + "x")[..|back|] == back;
    if MaskedWhole(Cooked(byte, chars), "x") {
      WholeIs(Cooked(byte, chars), "x");
      assert front + Masked(back + "x") == front + Blanked(back) + "x";
      SameBehind(front, Masked(back + "x"), Blanked(back), "x");
      TellsIs(back + "x");
    }
  }

  lemma WholeIs(x: Segment, rest: string)
    requires MaskedWhole(x, rest)
    ensures Masked(SegmentText(x) + rest) == SegmentShown(x) + Masked(rest)
  {
  }

  lemma TellsIs(s: string)
    requires s != "" && Masked(s) == Blanked(s[..|s| - 1]) + "x"
    ensures Tells(s)
  {
  }

  lemma SameBehind(front: string, a: string, b: string, c: string)
    requires front + a == front + b + c
    ensures a == b + c
  {
    assert (front + a)[|front|..] == a;
    assert (front + b + c)[|front|..] == b + c;
  }

  /** The text behind the escaped quote, up to the quote that ends the literal. */
  function Leftover(text: string): string
    requires text != []
  {
    text[1..] + "'"
  }

  lemma QuoteTurn(text: string)
    requires NoQuoteBehindFirst(text) && text[0] == '\''
    ensures Masked(SegmentText(EscapedChar(false, text)) + "x") == "   " + Masked(Leftover(text) + "x")
  {
    EscapedCharScanned(text, "x");
    EscapeText(text);
    hide *;
    hide Leftover;
    HeadMasked("'\\'", Leftover(text) + "x");
  }

  lemma HeadMasked(head: string, rest: string)
    requires |head| == 3 && '\n' !in head && Scan([] + head + rest) == Turn(0, 3)
    ensures Masked([] + head + rest) == "   " + Masked(rest)
  {
    hide Scan, Masked;
    TurnMasked([], head, rest);
    assert [] + Blanked(head) == "   ";
  }

  lemma EscapeText(text: string)
    requires text != [] && text[0] == '\''
    ensures SegmentText(EscapedChar(false, text)) + "x" == "'\\" + (text + "'") + "x"
    ensures "'\\" + (text + "'") + "x" == [] + "'\\'" + (Leftover(text) + "x")
  {
    assert text == "'" + text[1..];
    var head, whole := "'\\" + (text + "'"), SegmentText(EscapedChar(false, text));
    assert whole == head;
    assert head == "'\\'" + Leftover(text);
  }

  lemma ByteText(text: string)
    ensures SegmentText(EscapedChar(true, text)) + "x" == "b" + ("'\\" + (text + "'")) + "x"
  {
  }

  lemma ByteTells(text: string)
    requires NoQuoteBehindFirst(text) && text[0] == '\''
    ensures !MaskedWhole(EscapedChar(true, text), "x")
  {
    EscapedByteScanned(text, "x");
    ByteText(text);
    EscapeShown(true, text);
    hide Scan, Masked, SegmentText, SegmentShown;
    var s := SegmentText(EscapedChar(true, text)) + "x";
    MaskedAt(s, 0);
    assert s[0] == 'b';
  }

  lemma QuoteLoaded(text: string)
    requires NoQuoteBehindFirst(text)
    ensures Loaded(Leftover(text) + "x", '\'')
  {
  }

  lemma CharTells(text: string)
    requires NoQuoteBehindFirst(text) && text[0] == '\''
    ensures !MaskedWhole(EscapedChar(false, text), "x")
  {
    QuoteTurn(text);
    QuoteLoaded(text);
    MaskedX();
    var back := Leftover(text);
    QuoteTells(back + "x", '\'');
    EscapeShown(false, text);
    hide *;
    hide Leftover;
    assert (back + "x")[..|back|] == back;
    if MaskedWhole(EscapedChar(false, text), "x") {
      WholeIs(EscapedChar(false, text), "x");
      SameBehind("   ", Masked(back + "x"), Blanked(back), "x");
      TellsIs(back + "x");
    }
  }

  lemma EscapeShown(byte: bool, text: string)
    requires text != [] && text[0] == '\''
    ensures byte ==> SegmentShown(EscapedChar(byte, text)) != "" && SegmentShown(EscapedChar(byte, text))[0] == 'b'
    ensures !byte ==> SegmentShown(EscapedChar(byte, text)) == "   " + Blanked(Leftover(text))
  {
    var s := SegmentText(EscapedChar(byte, text));
    if byte {
      assert s[0] == 'b';
    } else {
      assert s == "'\\'" + (text[1..] + "'") && s[..0] == [] && s[0..] == s;
      BlankedConcat("'\\'", text[1..] + "'");
    }
  }

  /** A legal segment is masked as it should be, whatever follows it, exactly when
      it is not of the two kinds that are cut. */
  lemma SegmentMaskedIff(x: Segment, some: string)
    requires Legal(x, some)
    ensures (forall rest :: Legal(x, rest) ==> MaskedWhole(x, rest)) <==> !Cut(x)
  {
    hide Masked, SegmentText, SegmentShown;
    if Cut(x) {
      assert Legal(x, "x");
      if x.Cooked? { LinesTell(x.byte, x.chars); } else if x.byte { ByteTells(x.text); } else { CharTells(x.text); }
    } else {
      forall rest | Legal(x, rest) ensures MaskedWhole(x, rest) { SegmentMasked(x, rest); }
    }
  }
}
