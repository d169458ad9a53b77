// The comment and string blanker of the lint ratchet: an index loop over the
// source that overwrites comments and literals with spaces in a character
// buffer. The loops are proved against functions of the text that is left, and
// those functions against a grammar of source segments.
module RustLexer {
  import opened Options

  // ---------------------------------------------------------------------
  // Text that is left to scan
  // ---------------------------------------------------------------------

  predicate OccursAt(s: string, k: nat, pat: string) {
    k + |pat| <= |s| && s[k..k + |pat|] == pat
  }

  predicate Pair(s: string, a: char, b: char) {
    |s| > 1 && s[0] == a && s[1] == b
  }

  lemma OccursInTail(s: string, k: nat, pat: string)
    requires 0 < k <= |s|
    ensures OccursAt(s, k, pat) == OccursAt(s[1..], k - 1, pat)
  {
    if k + |pat| <= |s| {
      assert s[k..k + |pat|] == s[1..][k - 1..k - 1 + |pat|];
    }
  }

  /** `str.find`: the first place where `pat` stands in `s`. */
  function Find(s: string, pat: string): (at: Option<nat>)
    ensures at.Some? ==> OccursAt(s, at.value, pat)
    ensures forall k :: 0 <= k < (if at.Some? then at.value else |s| + 1) ==> !OccursAt(s, k, pat)
  {
    if OccursAt(s, 0, pat) then
      Some(0)
    else if s == [] then
      None
    else
      var rest := Find(s[1..], pat);
      assert forall k :: 0 < k <= |s| ==> OccursAt(s, k, pat) == OccursAt(s[1..], k - 1, pat) by {
        forall k | 0 < k <= |s| ensures OccursAt(s, k, pat) == OccursAt(s[1..], k - 1, pat) {
          OccursInTail(s, k, pat);
        }
      }
      if rest.Some? then Some(rest.value + 1) else None
  }

  function FindEnd(s: string, pat: string): (k: nat)
    ensures k <= |s|
  {
    var at := Find(s, pat);
    if at.Some? then at.value + |pat| else |s|
  }

  function Hashes(n: nat): (s: string)
    ensures |s| == n && forall k :: 0 <= k < n ==> s[k] == '#'
  {
    seq(n, _ => '#')
  }

  function HashRun(s: string): (n: nat)
    ensures n <= |s|
  {
    if s != [] && s[0] == '#' then 1 + HashRun(s[1..]) else 0
  }

  /** Length of a block comment body, closer included, `depth` levels deep. */
  function BlockLength(s: string, depth: nat): (n: nat)
    ensures n <= |s|
    decreases |s|
  {
    if s == [] || depth == 0 then 0
    else if Pair(s, '/', '*') then 2 + BlockLength(s[2..], depth + 1)
    else if Pair(s, '*', '/') then 2 + BlockLength(s[2..], depth - 1)
    else 1 + BlockLength(s[1..], depth)
  }

  /** Length of a cooked literal after its opening quote. */
  function CookedLength(s: string): (n: nat)
    ensures n <= |s|
  {
    if s == [] then 0
    else if s[0] == '\\' then (if |s| == 1 then 1 else 2 + CookedLength(s[2..]))
    else if s[0] == '"' then 1
    else if s[0] == '\n' then 0
    else 1 + CookedLength(s[1..])
  }

  /** Length of `#*"..."#*` after the `r`; nothing when no quote follows the hashes. */
  function RawLength(s: string): (n: Option<nat>)
    ensures n.Some? ==> 0 < n.value <= |s|
  {
    var hashes := HashRun(s);
    if hashes < |s| && s[hashes] == '"' then
      Some(hashes + 1 + FindEnd(s[hashes + 1..], "\"" + Hashes(hashes)))
    else
      None
  }

  /** One turn of the loop: `kept` characters stand, then up to `next` are blanked. */
  datatype Turn = Turn(kept: nat, next: nat)

  function Scan(s: string): (t: Turn)
    requires s != []
    ensures t.kept <= t.next && 0 < t.next <= |s|
  {
    var c := s[0];
    if Pair(s, '/', '/') then
      var eol := Find(s, "\n");
      Turn(0, if eol.Some? then eol.value else |s|)
    else if Pair(s, '/', '*') then
      Turn(0, 2 + BlockLength(s[2..], 1))
    else if c == 'r' && |s| > 1 && (s[1] == '"' || s[1] == '#') then
      var raw := RawLength(s[1..]);
      if raw.Some? then Turn(0, 1 + raw.value) else Turn(1, 1)
    else if Pair(s, 'b', 'r') then
      var raw := RawLength(s[2..]);
      if raw.Some? then Turn(0, 2 + raw.value) else Turn(1, 1)
    else if Pair(s, 'b', '"') then
      Turn(1, 2 + CookedLength(s[2..]))
    else if Pair(s, 'b', '\'') then
      // The escape test of this arm reads the quote itself, so it never holds.
      if |s| > 3 && s[3] == '\'' then Turn(0, 4) else Turn(1, 1)
    else if c == '"' then
      Turn(0, 1 + CookedLength(s[1..]))
    else if c == '\'' then
      if |s| > 2 && s[2] == '\'' then Turn(0, 3)
      else if |s| > 1 && s[1] == '\\' then Turn(0, 2 + FindEnd(s[2..], "'"))
      else Turn(1, 1)
    else
      Turn(1, 1)
  }

  function Blanked(s: string): (r: string)
    ensures |r| == |s|
    ensures forall k :: 0 <= k < |s| ==> r[k] == if s[k] == '\n' then '\n' else ' '
  {
    seq(|s|, k requires 0 <= k < |s| => if s[k] == '\n' then '\n' else ' ')
  }

  /** What the blanker makes of a whole text. */
  function Masked(s: string): string
    decreases |s|
  {
    if s == [] then []
    else
      var t := Scan(s);
      s[..t.kept] + Blanked(s[t.kept..t.next]) + Masked(s[t.next..])
  }

  // ---------------------------------------------------------------------
  // The program
  // ---------------------------------------------------------------------

  /** The buffer once the turn `t` has been taken at `i`. */
  function After(out: string, i: nat, t: Turn): string
    requires t.kept <= t.next && i + t.next <= |out|
  {
    out[..i + t.kept] + Blanked(out[i + t.kept..i + t.next]) + out[i + t.next..]
  }

  method BlankRange(out: array<char>, start: nat, end: nat)
    requires start <= end <= out.Length
    modifies out
    ensures out[..] == After(old(out[..]), start, Turn(0, end - start))
  {
    for j := start to end
      invariant forall k :: 0 <= k < out.Length ==>
        out[k] == if start <= k < j && old(out[k]) != '\n' then ' ' else old(out[k])
    {
      if out[j] != '\n' {
        out[j] := ' ';
      }
    }
  }

  method HashLoop(src: string, start: nat) returns (j: nat)
    requires start <= |src|
    ensures j == start + HashRun(src[start..])
  {
    j := start;
    while j < |src| && src[j] == '#'
      invariant start <= j <= |src|
      invariant j + HashRun(src[j..]) == start + HashRun(src[start..])
    {
      j := j + 1;
    }
  }

  method BlockLoop(src: string, start: nat) returns (j: nat)
    requires start <= |src|
    ensures j == start + BlockLength(src[start..], 1)
  {
    hide BlockLength;
    var depth: nat := 1;
    j := start;
    ghost var end := start + BlockLength(src[start..], 1);
    while j < |src| && depth > 0
      invariant start <= j <= |src|
      invariant j + BlockLength(src[j..], depth) == end
    {
      BlockUnfold(src[j..], depth);
      assert j + 1 < |src| ==> src[j..][2..] == src[j + 2..];
      if src[j] == '/' && j + 1 < |src| && src[j + 1] == '*' {
        depth := depth + 1;
        j := j + 2;
      } else if src[j] == '*' && j + 1 < |src| && src[j + 1] == '/' {
        depth := depth - 1;
        j := j + 2;
      } else {
        j := j + 1;
      }
    }
    BlockDone(src[j..], depth);
  }

  /** `_blank_cooked`: blank a literal from the quote at `start`; return where to resume. */
  method BlankCooked(src: string, out: array<char>, start: nat) returns (resume: nat)
    requires start < |src| == out.Length
    modifies out
    ensures resume == start + 1 + CookedLength(src[start + 1..])
    ensures out[..] == After(old(out[..]), start, Turn(0, resume - start))
  {
    var j := start + 1;
    ghost var end := start + 1 + CookedLength(src[start + 1..]);
    while j < |src|
      invariant start < j <= |src| + 1
      invariant j <= |src| ==> j + CookedLength(src[j..]) == end
      invariant j > |src| ==> |src| == end
      invariant out[..] == old(out[..])
    {
      if src[j] == '\\' {
        if j + 1 < |src| { assert src[j..][2..] == src[j + 2..]; }
        j := j + 2;
      } else if src[j] == '"' {
        BlankRange(out, start, j + 1);
        return j + 1;
      } else if src[j] == '\n' {
        BlankRange(out, start, j);
        return j;
      } else {
        assert src[j..][1..] == src[j + 1..];
        j := j + 1;
      }
    }
    BlankRange(out, start, |src|);
    return |src|;
  }

  /** The raw-string arm, for the text after the `r`: where the literal ends, if it is one. */
  method RawEnd(src: string, after: nat) returns (end: Option<nat>)
    requires after <= |src|
    ensures end == var n := RawLength(src[after..]); if n.Some? then Some(after + n.value) else None
  {
    var j := HashLoop(src, after);
    var hashes := j - after;
    if j < |src| && src[j] == '"' {
      var closer := "\"" + Hashes(hashes);
      assert src[after..][hashes + 1..] == src[j + 1..];
      end := Some(j + 1 + FindEnd(src[j + 1..], closer));
    } else {
      end := None;
    }
  }

  lemma BlankedNothing(out: string, i: nat, t: Turn)
    requires t.kept == t.next && i + t.next <= |out|
    ensures After(out, i, t) == out
  {
  }

  method RawArm(src: string, out: array<char>, i: nat, after: nat) returns (next: nat)
    requires i < after <= |src| == out.Length
    modifies out
    ensures var n := RawLength(src[after..]);
      next == (if n.Some? then after + n.value else i + 1)
      && out[..] == After(old(out[..]), i, if n.Some? then Turn(0, next - i) else Turn(1, 1))
  {
    var end := RawEnd(src, after);
    if end.Some? {
      BlankRange(out, i, end.value);
      next := end.value;
    } else {
      next := i + 1;
      BlankedNothing(out[..], i, Turn(1, 1));
    }
  }

  method ByteCharArm(src: string, out: array<char>, i: nat) returns (next: nat)
    requires i + 1 < |src| == out.Length && src[i] == 'b' && src[i + 1] == '\''
    modifies out
    ensures next == i + Scan(src[i..]).next
    ensures out[..] == After(old(out[..]), i, Scan(src[i..]))
  {
    if i + 3 < |src| && src[i + 3] == '\'' {
      BlankRange(out, i, i + 4);
      next := i + 4;
    } else {
      next := i + 1;
      BlankedNothing(out[..], i, Turn(1, 1));
    }
  }

  method CharArm(src: string, out: array<char>, i: nat) returns (next: nat)
    requires i < |src| == out.Length && src[i] == '\''
    modifies out
    ensures next == i + Scan(src[i..]).next
    ensures out[..] == After(old(out[..]), i, Scan(src[i..]))
  {
    if i + 2 < |src| && src[i + 2] == '\'' {
      BlankRange(out, i, i + 3);
      next := i + 3;
    } else if i + 1 < |src| && src[i + 1] == '\\' {
      assert src[i..][2..] == src[i + 2..];
      next := i + 2 + FindEnd(src[i + 2..], "'");
      BlankRange(out, i, next);
    } else {
      next := i + 1;
      BlankedNothing(out[..], i, Turn(1, 1));
    }
  }

  method SlashArm(src: string, out: array<char>, i: nat) returns (next: nat)
    requires i + 1 < |src| == out.Length && src[i] == '/' && (src[i + 1] == '/' || src[i + 1] == '*')
    modifies out
    ensures next == i + Scan(src[i..]).next
    ensures out[..] == After(old(out[..]), i, Scan(src[i..]))
  {
    if src[i + 1] == '/' {
      var eol := Find(src[i..], "\n");
      next := if eol.Some? then i + eol.value else |src|;
    } else {
      assert src[i..][2..] == src[i + 2..];
      next := BlockLoop(src, i + 2);
    }
    BlankRange(out, i, next);
  }

  method ByteArm(src: string, out: array<char>, i: nat) returns (next: nat)
    requires i + 1 < |src| == out.Length && src[i] == 'b'
    requires src[i + 1] == '"' || src[i + 1] == '\'' || src[i + 1] == 'r'
    modifies out
    ensures next == i + Scan(src[i..]).next
    ensures out[..] == After(old(out[..]), i, Scan(src[i..]))
  {
    assert src[i..][2..] == src[i + 2..];
    if src[i + 1] == 'r' {
      next := RawArm(src, out, i, i + 2);
    } else if src[i + 1] == '"' {
      next := BlankCooked(src, out, i + 1);
    } else {
      next := ByteCharArm(src, out, i);
    }
  }

  method LetterRArm(src: string, out: array<char>, i: nat) returns (next: nat)
    requires i + 1 < |src| == out.Length && src[i] == 'r' && (src[i + 1] == '"' || src[i + 1] == '#')
    modifies out
    ensures next == i + Scan(src[i..]).next
    ensures out[..] == After(old(out[..]), i, Scan(src[i..]))
  {
    assert src[i..][1..] == src[i + 1..];
    next := RawArm(src, out, i, i + 1);
  }

  method QuoteArm(src: string, out: array<char>, i: nat) returns (next: nat)
    requires i < |src| == out.Length && src[i] == '"'
    modifies out
    ensures next == i + Scan(src[i..]).next
    ensures out[..] == After(old(out[..]), i, Scan(src[i..]))
  {
    assert src[i..][1..] == src[i + 1..];
    next := BlankCooked(src, out, i);
  }

  predicate OneOf(src: string, i: nat, cs: string) {
    i < |src| && src[i] in cs
  }

  lemma NoArm(src: string, i: nat)
    requires i < |src| && src[i] != '"' && src[i] != '\''
    requires !(src[i] == '/' && OneOf(src, i + 1, "/*"))
    requires !(src[i] == 'r' && OneOf(src, i + 1, "\"#"))
    requires !(src[i] == 'b' && OneOf(src, i + 1, "\"'r"))
    ensures Scan(src[i..]) == Turn(1, 1)
  {
    if i + 1 < |src| {
      assert src[i..][1] == src[i + 1];
    }
  }

  /** The branches of the main loop at `i`. */
  method TakeTurn(src: string, out: array<char>, i: nat) returns (next: nat)
    requires i < |src| == out.Length
    modifies out
    ensures next == i + Scan(src[i..]).next
    ensures out[..] == After(old(out[..]), i, Scan(src[i..]))
  {
    if src[i] == '/' && OneOf(src, i + 1, "/*") {
      next := SlashArm(src, out, i);
    } else if src[i] == 'r' && OneOf(src, i + 1, "\"#") {
      next := LetterRArm(src, out, i);
    } else if src[i] == 'b' && OneOf(src, i + 1, "\"'r") {
      next := ByteArm(src, out, i);
    } else if src[i] == '"' {
      next := QuoteArm(src, out, i);
    } else if src[i] == '\'' {
      next := CharArm(src, out, i);
    } else {
      NoArm(src, i);
      next := i + 1;
      BlankedNothing(out[..], i, Turn(1, 1));
    }
  }

  method BlankCommentsAndStrings(src: string) returns (clean: string)
    ensures clean == Masked(src)
  {
    var out := new char[|src|](k requires 0 <= k < |src| => src[k]);
    var i := 0;
    while i < |src|
      invariant i <= |src|
      invariant out[i..] == src[i..]
      invariant out[..i] + Masked(src[i..]) == Masked(src)
    {
      Progress(src, out[..], i, Scan(src[i..]));
      i := TakeTurn(src, out, i);
    }
    return out[..];
  }

  lemma AfterPrefix(out: string, rest: string, i: nat, t: Turn)
    requires i + |rest| == |out| && out[i..] == rest && t.kept <= t.next <= |rest|
    ensures After(out, i, t)[i + t.next..] == rest[t.next..]
    ensures After(out, i, t)[..i + t.next] == out[..i] + (rest[..t.kept] + Blanked(rest[t.kept..t.next]))
  {
    assert out[i + t.next..] == rest[t.next..];
    assert out[i + t.kept..i + t.next] == rest[t.kept..t.next];
    assert out[..i + t.kept] == out[..i] + rest[..t.kept];
  }

  lemma MaskedTurn(rest: string, t: Turn)
    requires rest != [] && t == Scan(rest)
    ensures Masked(rest) == rest[..t.kept] + Blanked(rest[t.kept..t.next]) + Masked(rest[t.next..])
  {
  }

  /** One turn written back into the buffer keeps the loop's promise. */
  lemma TurnKept(src: string, out: string, i: nat, t: Turn, tail: string)
    requires i <= |src| == |out| && out[i..] == src[i..] && t.kept <= t.next <= |src| - i
    ensures After(out, i, t)[i + t.next..] == src[i + t.next..] == src[i..][t.next..]
    ensures After(out, i, t)[..i + t.next] + tail
         == out[..i] + (src[i..][..t.kept] + Blanked(src[i..][t.kept..t.next]) + tail)
  {
    var rest := src[i..];
    AfterPrefix(out, rest, i, t);
    assert rest[t.next..] == src[i + t.next..];
  }

  lemma Progress(src: string, out: string, i: nat, t: Turn)
    requires i < |src| == |out| && out[i..] == src[i..] && t == Scan(src[i..])
    ensures After(out, i, t)[i + t.next..] == src[i + t.next..]
    ensures After(out, i, t)[..i + t.next] + Masked(src[i + t.next..]) == out[..i] + Masked(src[i..])
  {
    MaskedTurn(src[i..], t);
    TurnKept(src, out, i, t, Masked(src[i..][t.next..]));
  }

  // ---------------------------------------------------------------------
  // Every input: offsets and line numbers survive
  // ---------------------------------------------------------------------

  /** The mask is as long as the text, keeps every newline, and changes nothing but to a space. */
  lemma {:induction false} MaskFrame(s: string)
    ensures |Masked(s)| == |s|
    ensures forall k :: 0 <= k < |s| ==> Masked(s)[k] == s[k] || (Masked(s)[k] == ' ' && s[k] != '\n')
    decreases |s|
  {
    if s != [] {
      var t := Scan(s);
      var tail := s[t.next..];
      MaskFrame(tail);
      forall k | 0 <= k < |s| ensures Masked(s)[k] == s[k] || (Masked(s)[k] == ' ' && s[k] != '\n') {
        if k >= t.next {
          assert Masked(s)[k] == Masked(tail)[k - t.next];
          assert s[k] == tail[k - t.next];
        }
      }
    }
  }

  // ---------------------------------------------------------------------
  // A grammar of Rust source, independent of the scanner
  // ---------------------------------------------------------------------

  /** The inside of a block comment, up to and including its closer. */
  datatype Comment = Close | Text(c: char, tail: Comment) | Nested(inner: Comment, tail: Comment)

  datatype StringChar = Plain(c: char) | Escaped(c: char)

  datatype Segment =
    | Code(c: char)
    | LineComment(text: string)
    | BlockComment(body: Comment)
    | Cooked(byte: bool, chars: seq<StringChar>)
    | Raw(byte: bool, hashes: nat, text: string)
    | CharLiteral(byte: bool, c: char)
    | EscapedChar(byte: bool, text: string)

  function CommentText(b: Comment): (s: string)
    ensures |s| >= 2
  {
    match b
    case Close => "*/"
    case Text(c, tail) => [c] + CommentText(tail)
    case Nested(inner, tail) => "/*" + (CommentText(inner) + CommentText(tail))
  }

  /** No character of the comment forms an opener or a closer with the next one. */
  predicate GoodComment(b: Comment) {
    match b
    case Close => true
    case Text(c, tail) =>
      && GoodComment(tail)
      && !Pair([c] + CommentText(tail), '/', '*') && !Pair([c] + CommentText(tail), '*', '/')
    case Nested(inner, tail) => GoodComment(inner) && GoodComment(tail)
  }

  function CookedText(chars: seq<StringChar>): string {
    if chars == [] then ""
    else (match chars[0] case Plain(c) => [c] case Escaped(c) => ['\\', c]) + CookedText(chars[1..])
  }

  /** A quote or a backslash stands only behind a backslash. */
  predicate LegalChars(chars: seq<StringChar>) {
    forall x :: x in chars && x.Plain? ==> x.c != '\\' && x.c != '"'
  }

  predicate OneLine(chars: seq<StringChar>) {
    Plain('\n') !in chars
  }

  predicate GoodChars(chars: seq<StringChar>) {
    LegalChars(chars) && OneLine(chars)
  }

  function Closer(hashes: nat): string {
    "\"" + Hashes(hashes)
  }

  function BytePrefix(byte: bool): string {
    if byte then "b" else ""
  }

  function SegmentText(x: Segment): string {
    match x
    case Code(c) => [c]
    case LineComment(text) => "//" + text
    case BlockComment(body) => "/*" + CommentText(body)
    case Cooked(byte, chars) => BytePrefix(byte) + ("\"" + (CookedText(chars) + "\""))
    case Raw(byte, hashes, text) =>
      (if byte then "br" else "r") + (Hashes(hashes) + ("\"" + (text + Closer(hashes))))
    case CharLiteral(byte, c) => BytePrefix(byte) + ['\'', c, '\'']
    case EscapedChar(byte, text) => BytePrefix(byte) + ("'\\" + (text + "'"))
  }

  /** How many characters of a segment stand: code, and the `b` of a byte string
      or of an escaped byte. */
  function ShownPrefix(x: Segment): nat {
    if x.Code? || ((x.Cooked? || x.EscapedChar?) && x.byte) then 1 else 0
  }

  function SegmentShown(x: Segment): string {
    var s := SegmentText(x);
    s[..ShownPrefix(x)] + Blanked(s[ShownPrefix(x)..])
  }

  predicate RawStart(s: string, hashes: nat) {
    hashes < |s| && s[hashes] == '"' && forall k :: 0 <= k < hashes ==> s[k] == '#'
  }

  /** A comment or a literal begins at the first character. */
  ghost predicate Opens(s: string) {
    || Pair(s, '/', '/') || Pair(s, '/', '*')
    || (s != [] && s[0] == '"') || Pair(s, 'b', '"')
    || (s != [] && s[0] == 'r' && exists h :: RawStart(s[1..], h))
    || (Pair(s, 'b', 'r') && exists h :: RawStart(s[2..], h))
    || (Pair(s, 'b', '\'') && |s| > 3 && s[3] == '\'')
    || (|s| > 2 && s[0] == '\'' && s[2] == '\'') || Pair(s, '\'', '\\')
  }

  predicate NoQuoteBehindFirst(text: string) {
    text != [] && '\'' !in text[1..]
  }

  /** A segment is legal where `rest` follows it. */
  ghost predicate Legal(x: Segment, rest: string) {
    match x
    case Code(c) => !Opens([c] + rest)
    case LineComment(text) => '\n' !in text && (rest == [] || rest[0] == '\n')
    case BlockComment(body) => GoodComment(body)
    case Cooked(_, chars) => LegalChars(chars)
    case Raw(_, hashes, text) =>
      forall k :: 0 <= k < |text| ==> !OccursAt(text + Closer(hashes), k, Closer(hashes))
    case CharLiteral(_, c) => c != '\'' && c != '\\' && c != '\n'
    case EscapedChar(_, text) => NoQuoteBehindFirst(text)
  }

  /** The legal segments that the scanner does not take whole: a cooked literal
      on several lines, and the literal of an escaped quote. */
  predicate Cut(x: Segment) {
    (x.Cooked? && !OneLine(x.chars)) || (x.EscapedChar? && x.text != [] && x.text[0] == '\'')
  }

  ghost predicate Fits(x: Segment, rest: string) {
    Legal(x, rest) && !Cut(x)
  }

  function SourceText(xs: seq<Segment>): string {
    if xs == [] then "" else SegmentText(xs[0]) + SourceText(xs[1..])
  }

  function SourceShown(xs: seq<Segment>): string {
    if xs == [] then "" else SegmentShown(xs[0]) + SourceShown(xs[1..])
  }

  ghost predicate WellFormed(xs: seq<Segment>) {
    xs != [] ==> Fits(xs[0], SourceText(xs[1..])) && WellFormed(xs[1..])
  }

  // ---------------------------------------------------------------------
  // The scanner on each kind of segment
  // ---------------------------------------------------------------------

  lemma BlockUnfold(s: string, depth: nat)
    requires s != [] && depth > 0
    ensures Pair(s, '/', '*') ==> BlockLength(s, depth) == 2 + BlockLength(s[2..], depth + 1)
    ensures Pair(s, '*', '/') ==> BlockLength(s, depth) == 2 + BlockLength(s[2..], depth - 1)
    ensures !Pair(s, '/', '*') && !Pair(s, '*', '/') ==> BlockLength(s, depth) == 1 + BlockLength(s[1..], depth)
  {
  }

  lemma BlockDone(s: string, depth: nat)
    requires s == [] || depth == 0
    ensures BlockLength(s, depth) == 0
  {
  }

  lemma {:induction false} CommentScanned(b: Comment, rest: string, depth: nat)
    requires GoodComment(b) && depth > 0
    ensures BlockLength(CommentText(b) + rest, depth) == |CommentText(b)| + BlockLength(rest, depth - 1)
  {
    hide BlockLength;
    match b
    case Close =>
      BlockUnfold("*/" + rest, depth);
      assert ("*/" + rest)[2..] == rest;
    case Text(c, tail) =>
      var s := [c] + CommentText(tail) + rest;
      BlockUnfold(s, depth);
      assert s[1..] == CommentText(tail) + rest;
      CommentScanned(tail, rest, depth);
    case Nested(inner, tail) =>
      var after := CommentText(tail) + rest;
      var s := "/*" + (CommentText(inner) + CommentText(tail)) + rest;
      BlockUnfold(s, depth);
      assert s[2..] == CommentText(inner) + after;
      CommentScanned(inner, after, depth + 1);
      CommentScanned(tail, rest, depth);
  }

  lemma {:induction false} CookedScanned(chars: seq<StringChar>, rest: string)
    requires GoodChars(chars)
    requires rest == [] || rest[0] == '"' || rest[0] == '\n'
    ensures CookedLength(CookedText(chars) + rest)
         == |CookedText(chars)| + if rest != [] && rest[0] == '"' then 1 else 0
  {
    var s := CookedText(chars) + rest;
    if chars == [] {
      assert s == rest;
    } else {
      CookedScanned(chars[1..], rest);
      if chars[0].Plain? {
        assert s[1..] == CookedText(chars[1..]) + rest;
      } else {
        assert s[2..] == CookedText(chars[1..]) + rest;
      }
    }
  }

  lemma {:induction false} HashRunIs(s: string, hashes: nat)
    requires RawStart(s, hashes)
    ensures HashRun(s) == hashes
  {
    if hashes > 0 {
      assert RawStart(s[1..], hashes - 1);
      HashRunIs(s[1..], hashes - 1);
    }
  }

  lemma {:induction false} HashRunStart(s: string)
    ensures forall k :: 0 <= k < HashRun(s) ==> s[k] == '#'
  {
    if s != [] && s[0] == '#' {
      HashRunStart(s[1..]);
      forall k | 0 <= k < HashRun(s) ensures s[k] == '#' {
        if k > 0 { assert s[k] == s[1..][k - 1]; }
      }
    }
  }

  /** A raw literal is recognised exactly behind hashes and a quote. */
  lemma RawLengthDefined(s: string)
    ensures RawLength(s).Some? <==> exists h :: RawStart(s, h)
  {
    if RawLength(s).Some? {
      HashRunStart(s);
      assert RawStart(s, HashRun(s));
    }
    if h :| RawStart(s, h) {
      HashRunIs(s, h);
    }
  }

  lemma OccursChar(s: string, k: nat, c: char)
    ensures OccursAt(s, k, [c]) <==> k < |s| && s[k] == c
  {
    if k < |s| {
      assert s[k..k + 1] == [s[k]];
    }
  }

  lemma FoundAt(s: string, pat: string, k: nat)
    requires OccursAt(s, k, pat) && forall m :: 0 <= m < k ==> !OccursAt(s, m, pat)
    ensures Find(s, pat) == Some(k)
  {
    var at := Find(s, pat);
    assert at.Some? && at.value <= k;
  }

  lemma RawScanned(hashes: nat, text: string, rest: string)
    requires forall k :: 0 <= k < |text| ==> !OccursAt(text + Closer(hashes), k, Closer(hashes))
    ensures RawLength(Hashes(hashes) + ("\"" + (text + Closer(hashes))) + rest)
         == Some(hashes + 1 + |text| + |Closer(hashes)|)
  {
    hide Find, HashRun;
    var closer := Closer(hashes);
    var body := (text + closer) + rest;
    var s := Hashes(hashes) + ("\"" + (text + closer)) + rest;
    assert RawStart(s, hashes);
    HashRunIs(s, hashes);
    assert s[hashes + 1..] == body;
    assert body[|text|..|text| + |closer|] == closer;
    forall m | 0 <= m < |text| ensures !OccursAt(body, m, closer) {
      assert !OccursAt(text + closer, m, closer);
      assert body[m..m + |closer|] == (text + closer)[m..m + |closer|];
    }
    FoundAt(body, closer, |text|);
  }

  /** The scanner leaves a character alone exactly where no comment or literal begins. */
  lemma ScanKeepsIff(s: string)
    requires s != []
    ensures Scan(s) == Turn(1, 1) <==> !Opens(s)
  {
    RawLengthDefined(s[1..]);
    if s[0] == 'r' {
      if h :| RawStart(s[1..], h) {
        assert s[1..][0] == s[1];
      }
    }
    if |s| > 1 {
      RawLengthDefined(s[2..]);
    }
  }

  lemma BlockScanned(body: Comment, rest: string)
    requires GoodComment(body)
    ensures Scan("/*" + CommentText(body) + rest) == Turn(0, 2 + |CommentText(body)|)
  {
    var s := "/*" + CommentText(body) + rest;
    assert s[2..] == CommentText(body) + rest;
    CommentScanned(body, rest, 1);
  }

  lemma LineScanned(text: string, rest: string)
    requires '\n' !in text && (rest == [] || rest[0] == '\n')
    ensures Scan("//" + text + rest) == Turn(0, 2 + |text|)
  {
    hide Find;
    var s := "//" + text + rest;
    forall m | 0 <= m < 2 + |text| ensures !OccursAt(s, m, "\n") {
      OccursChar(s, m, '\n');
      assert s[m] == if m < 2 then '/' else text[m - 2];
    }
    if rest != [] {
      OccursChar(s, 2 + |text|, '\n');
      FoundAt(s, "\n", 2 + |text|);
    }
  }

  lemma StringScanned(byte: bool, chars: seq<StringChar>, rest: string)
    requires GoodChars(chars)
    requires rest == [] || rest[0] == '"' || rest[0] == '\n'
    ensures var pre := BytePrefix(byte);
      Scan(pre + ("\"" + CookedText(chars)) + rest)
      == Turn(|pre|, |pre| + 1 + |CookedText(chars)| + if rest != [] && rest[0] == '"' then 1 else 0)
  {
    hide CookedLength, CookedText, GoodChars, BlockLength, RawLength, Find;
    CookedScanned(chars, rest);
    var pre := BytePrefix(byte);
    var s := pre + ("\"" + CookedText(chars)) + rest;
    assert s[|pre| + 1..] == CookedText(chars) + rest;
  }

  lemma RawSegmentScanned(byte: bool, hashes: nat, text: string, rest: string)
    requires Fits(Raw(byte, hashes, text), rest)
    ensures var s := SegmentText(Raw(byte, hashes, text));
      Scan(s + rest) == Turn(0, |s|)
  {
    hide RawLength;
    RawScanned(hashes, text, rest);
    var tail := Hashes(hashes) + ("\"" + (text + Closer(hashes)));
    var s := (if byte then "br" else "r") + tail;
    assert tail[0] == '"' || tail[0] == '#';
    assert (s + rest)[if byte then 2 else 1..] == tail + rest;
  }

  /** An escaped character ends at its quote, unless it is the escaped quote. */
  lemma EscapedCharScanned(text: string, rest: string)
    requires NoQuoteBehindFirst(text)
    ensures Scan("'\\" + (text + "'") + rest) == Turn(0, if text[0] == '\'' then 3 else 3 + |text|)
  {
    hide Find;
    var s := "'\\" + (text + "'") + rest;
    var body := (text + "'") + rest;
    assert s[2..] == body;
    if text[0] != '\'' {
      OccursChar(body, |text|, '\'');
      forall m | 0 <= m < |text| ensures !OccursAt(body, m, "'") {
        OccursChar(body, m, '\'');
        assert body[m] == text[m];
        assert m > 0 ==> text[m] == text[1..][m - 1];
      }
      FoundAt(body, "'", |text|);
    }
  }

  /** The `b` of an escaped byte stands, unless the byte is the escaped quote. */
  lemma EscapedByteScanned(text: string, rest: string)
    requires text != []
    ensures Scan("b" + ("'\\" + (text + "'")) + rest) == if text[0] == '\'' then Turn(0, 4) else Turn(1, 1)
  {
    hide CookedLength, BlockLength, RawLength, Find;
    var s := "b" + ("'\\" + (text + "'")) + rest;
    assert s[3] == text[0];
  }

  lemma Regroup(pre: string, quote: string, a: string, b: string, rest: string)
    ensures pre + (quote + ((a + b) + quote)) + rest == pre + (quote + a) + (b + quote + rest)
  {
  }

  lemma {:induction false} CookedConcat(a: seq<StringChar>, b: seq<StringChar>)
    ensures CookedText(a + b) == CookedText(a) + CookedText(b)
  {
    if a == [] {
      assert a + b == b;
    } else {
      assert (a + b)[1..] == a[1..] + b;
      CookedConcat(a[1..], b);
    }
  }

  function FirstLine(chars: seq<StringChar>): (n: nat)
    ensures n <= |chars| && OneLine(chars[..n]) && (n < |chars| ==> chars[n] == Plain('\n'))
    ensures n == |chars| <==> OneLine(chars)
  {
    if chars == [] || chars[0] == Plain('\n') then 0
    else
      var n := 1 + FirstLine(chars[1..]);
      assert chars[..n] == [chars[0]] + chars[1..][..n - 1];
      n
  }

  /** What is left of a literal and its text from the first line break on. */
  function OtherLines(chars: seq<StringChar>, rest: string): string {
    CookedText(chars[FirstLine(chars)..]) + "\"" + rest
  }

  function FirstLineText(chars: seq<StringChar>): string {
    "\"" + CookedText(chars[..FirstLine(chars)])
  }

  lemma CookedLines(byte: bool, chars: seq<StringChar>, rest: string)
    requires LegalChars(chars)
    ensures SegmentText(Cooked(byte, chars)) + rest == BytePrefix(byte) + FirstLineText(chars) + OtherLines(chars, rest)
    ensures |FirstLineText(chars)| <= 1 + |CookedText(chars)|
    ensures GoodChars(chars[..FirstLine(chars)])
    ensures OtherLines(chars, rest)[0] == if OneLine(chars) then '"' else '\n'
    ensures OneLine(chars) ==> |FirstLineText(chars)| == 1 + |CookedText(chars)|
  {
    FirstLineGood(chars);
    LinesText(chars);
    hide CookedText, FirstLine, GoodChars, LegalChars, OneLine;
    var n := FirstLine(chars);
    Regroup(BytePrefix(byte), "\"", CookedText(chars[..n]), CookedText(chars[n..]), rest);
  }

  lemma FirstLineGood(chars: seq<StringChar>)
    requires LegalChars(chars)
    ensures GoodChars(chars[..FirstLine(chars)])
  {
    hide FirstLine;
  }

  lemma LinesText(chars: seq<StringChar>)
    ensures var n := FirstLine(chars);
      && CookedText(chars) == CookedText(chars[..n]) + CookedText(chars[n..])
      && (if OneLine(chars) then CookedText(chars[n..]) == ""
          else CookedText(chars[n..]) != "" && CookedText(chars[n..])[0] == '\n')
  {
    hide CookedText;
    var n := FirstLine(chars);
    assert chars == chars[..n] + chars[n..];
    CookedConcat(chars[..n], chars[n..]);
    if n < |chars| { BreakText(chars[n..]); } else { NoText(chars[n..]); }
  }

  lemma NoText(b: seq<StringChar>)
    requires b == []
    ensures CookedText(b) == ""
  {
  }

  lemma BreakText(b: seq<StringChar>)
    requires b != [] && b[0] == Plain('\n')
    ensures CookedText(b) != "" && CookedText(b)[0] == '\n'
  {
  }

  /** A cooked literal is left behind its quote, or else at its first line break. */
  lemma CookedSegmentScanned(byte: bool, chars: seq<StringChar>, rest: string)
    requires LegalChars(chars)
    ensures var p := |BytePrefix(byte)|;
      Scan(SegmentText(Cooked(byte, chars)) + rest)
      == Turn(p, p + |FirstLineText(chars)| + if OneLine(chars) then 1 else 0)
  {
    CookedLines(byte, chars, rest);
    StringScanned(byte, chars[..FirstLine(chars)], OtherLines(chars, rest));
  }

  lemma CharLiteralScanned(byte: bool, c: char, rest: string)
    ensures var s := SegmentText(CharLiteral(byte, c));
      Scan(s + rest) == Turn(0, |s|)
  {
  }

  /** The scanner takes the segment in one turn; the `b` of an escaped byte is a turn of its own. */
  ghost predicate Whole(x: Segment, rest: string) {
    var s, n := SegmentText(x) + rest, |SegmentText(x)|;
    if x.EscapedChar? && x.byte then n > 1 && Scan(s) == Turn(1, 1) && Scan(s[1..]) == Turn(0, n - 1)
    else Scan(s) == Turn(ShownPrefix(x), n)
  }

  lemma EscapedWholeIff(byte: bool, text: string, rest: string)
    requires NoQuoteBehindFirst(text)
    ensures Whole(EscapedChar(byte, text), rest) <==> text[0] != '\''
  {
    EscapedCharScanned(text, rest);
    EscapedByteScanned(text, rest);
    hide Scan;
    var plain := "'\\" + (text + "'");
    assert |plain| == |text| + 3;
    if byte { BehindB(plain, rest); } else { assert BytePrefix(false) + plain == plain; }
  }

  lemma BehindB(plain: string, rest: string)
    ensures ("b" + plain + rest)[1..] == plain + rest
  {
  }

  lemma CookedWholeIff(byte: bool, chars: seq<StringChar>, rest: string)
    requires LegalChars(chars)
    ensures Whole(Cooked(byte, chars), rest) <==> OneLine(chars)
  {
    CookedSegmentScanned(byte, chars, rest);
    CookedLines(byte, chars, rest);
    hide Scan, CookedText, FirstLine, FirstLineText, OtherLines, LegalChars;
  }

  /** Every legal segment is scanned whole, but exactly two kinds. */
  lemma SegmentWholeIff(x: Segment, rest: string)
    requires Legal(x, rest)
    ensures Whole(x, rest) <==> !Cut(x)
  {
    hide Scan, Opens;
    match x
    case Code(c) =>
      ScanKeepsIff([c] + rest);
    case LineComment(text) =>
      LineScanned(text, rest);
    case BlockComment(body) =>
      BlockScanned(body, rest);
    case Cooked(byte, chars) =>
      CookedWholeIff(byte, chars, rest);
    case Raw(byte, hashes, text) =>
      RawSegmentScanned(byte, hashes, text, rest);
    case CharLiteral(byte, c) =>
      CharLiteralScanned(byte, c, rest);
    case EscapedChar(byte, text) =>
      EscapedWholeIff(byte, text, rest);
  }

  /** A turn keeps its first characters and blanks the others. */
  lemma TurnMasked(kept: string, blanked: string, rest: string)
    requires kept + blanked != "" && Scan(kept + blanked + rest) == Turn(|kept|, |kept| + |blanked|)
    ensures Masked(kept + blanked + rest) == kept + Blanked(blanked) + Masked(rest)
  {
    hide Scan, Masked, Blanked;
    var s := kept + blanked + rest;
    MaskedTurn(s, Turn(|kept|, |kept| + |blanked|));
    assert s[..|kept|] == kept && s[|kept|..|kept| + |blanked|] == blanked && s[|kept| + |blanked|..] == rest;
  }

  /** The same in two turns: one character kept, the others blanked. */
  lemma TwoTurnsMasked(kept: string, blanked: string, rest: string)
    requires |kept| == 1 && Scan(kept + blanked + rest) == Turn(1, 1)
    requires blanked != "" && Scan(blanked + rest) == Turn(0, |blanked|)
    ensures Masked(kept + blanked + rest) == kept + Blanked(blanked) + Masked(rest)
  {
    NothingBlanked();
    hide *;
    assert kept + blanked + rest == kept + [] + (blanked + rest) && blanked + rest == [] + blanked + rest;
    TurnMasked(kept, [], blanked + rest);
    TurnMasked([], blanked, rest);
    assert kept + [] + ([] + Blanked(blanked) + Masked(rest)) == kept + Blanked(blanked) + Masked(rest);
  }

  lemma SegmentMasked(x: Segment, rest: string)
    requires Fits(x, rest)
    ensures Masked(SegmentText(x) + rest) == SegmentShown(x) + Masked(rest)
  {
    SegmentWholeIff(x, rest);
    WholeTurns(x, rest);
    hide *;
    var t, p := SegmentText(x), ShownPrefix(x);
    assert t == t[..p] + t[p..];
    if x.EscapedChar? && x.byte {
      TwoTurnsMasked(t[..p], t[p..], rest);
    } else {
      TurnMasked(t[..p], t[p..], rest);
    }
    Shows(x);
  }

  lemma Shows(x: Segment)
    requires ShownPrefix(x) <= |SegmentText(x)|
    ensures SegmentShown(x) == SegmentText(x)[..ShownPrefix(x)] + Blanked(SegmentText(x)[ShownPrefix(x)..])
  {
  }

  lemma WholeTurns(x: Segment, rest: string)
    requires Whole(x, rest) && Fits(x, rest)
    ensures var t, p := SegmentText(x), ShownPrefix(x);
      && t != "" && p <= |t| && t == t[..p] + t[p..]
      && (if x.EscapedChar? && x.byte then
            p == 1 && |t| > 1 && Scan(t[..p] + t[p..] + rest) == Turn(1, 1) && Scan(t[p..] + rest) == Turn(0, |t[p..]|)
          else Scan(t[..p] + t[p..] + rest) == Turn(p, p + |t[p..]|))
  {
    SegmentNotEmpty(x);
    hide Scan, SegmentText, Fits;
    var t, p := SegmentText(x), ShownPrefix(x);
    assert t == t[..p] + t[p..];
    if x.EscapedChar? && x.byte { assert (t + rest)[1..] == t[1..] + rest; }
  }

  lemma NothingBlanked()
    ensures Blanked([]) == []
  {
  }

  lemma SegmentNotEmpty(x: Segment)
    ensures 0 < |SegmentText(x)| && ShownPrefix(x) <= |SegmentText(x)|
    ensures x.EscapedChar? && x.byte ==> ShownPrefix(x) == 1
  {
  }

  /** On every source of such segments the blanker keeps exactly the code. */
  lemma {:induction false} SourceMasked(xs: seq<Segment>)
    requires WellFormed(xs)
    ensures Masked(SourceText(xs)) == SourceShown(xs)
  {
    hide Fits, Masked;
    if xs != [] {
      SegmentMasked(xs[0], SourceText(xs[1..]));
      SourceMasked(xs[1..]);
    } else {
      NothingMasked();
    }
  }

  lemma NothingMasked()
    ensures Masked("") == ""
  {
  }

  // ---------------------------------------------------------------------
  // What becomes of the two kinds that are cut
  // ---------------------------------------------------------------------

  /** A literal on several lines is blanked up to its first line break; its other
      lines are scanned as code. */
  lemma OtherLinesAreScanned(byte: bool, chars: seq<StringChar>, rest: string)
    requires LegalChars(chars) && !OneLine(chars)
    ensures Masked(SegmentText(Cooked(byte, chars)) + rest)
         == BytePrefix(byte) + Blanked(FirstLineText(chars)) + Masked(OtherLines(chars, rest))
  {
    CookedSegmentScanned(byte, chars, rest);
    CookedLines(byte, chars, rest);
    FirstLineNotEmpty(chars);
    hide *;
    TurnMasked(BytePrefix(byte), FirstLineText(chars), OtherLines(chars, rest));
  }

  lemma FirstLineNotEmpty(chars: seq<StringChar>)
    ensures FirstLineText(chars) != ""
  {
  }

  /** The escaped quote is taken for the closing one, so a quote is left over and
      scanned with what follows. */
  lemma EscapedQuoteIsCut(byte: bool, rest: string)
    ensures Masked(SegmentText(EscapedChar(byte, "'")) + rest) == (if byte then "    " else "   ") + Masked("'" + rest)
  {
    QuoteTurn(byte, rest);
    hide *;
    TurnMasked([], QuoteHead(byte), "'" + rest);
    assert SegmentText(EscapedChar(byte, "'")) + rest == [] + QuoteHead(byte) + ("'" + rest);
    assert Blanked(QuoteHead(byte)) == if byte then "    " else "   ";
  }

  /** What the scanner takes of an escaped quote's literal. */
  function QuoteHead(byte: bool): string {
    BytePrefix(byte) + "'\\'"
  }

  lemma QuoteTurn(byte: bool, rest: string)
    ensures SegmentText(EscapedChar(byte, "'")) + rest == [] + QuoteHead(byte) + ("'" + rest)
    ensures Scan([] + QuoteHead(byte) + ("'" + rest)) == Turn(0, |QuoteHead(byte)|)
    ensures QuoteHead(byte) != "" && Blanked(QuoteHead(byte)) == if byte then "    " else "   "
  {
    EscapedCharScanned("'", rest);
    EscapedByteScanned("'", rest);
    QuoteText(byte, rest);
    hide Scan;
  }

  lemma QuoteText(byte: bool, rest: string)
    ensures var plain, all := "'\\" + ("'" + "'"), [] + QuoteHead(byte) + ("'" + rest);
      && SegmentText(EscapedChar(byte, "'")) == BytePrefix(byte) + plain
      && BytePrefix(byte) + plain + rest == all
      && (!byte ==> plain + rest == all)
  {
  }

  /** `'\'','a'`: the quote left over takes the comma for a character, and the
      `a` of the next literal is kept as code. */
  lemma LeftoverQuoteHidesCode()
    ensures Masked("'\\'','a'") == "      a'"
  {
    EscapedQuoteIsCut(false, ",'a'");
    LeftoverTurns();
    hide Scan, Masked;
    assert SegmentText(EscapedChar(false, "'")) + ",'a'" == "'\\'','a'";
    assert "'" + ",'a'" == [] + "','" + "a'" && "a'" == "a" + [] + "'" && "'" == "'" + [] + [];
    TurnMasked([], "','", "a'");
    TurnMasked("a", [], "'");
    TurnMasked("'", [], []);
    NothingMasked();
    assert Blanked("','") == "   " && Blanked([]) == [];
  }

  lemma LeftoverTurns()
    ensures Scan([] + "','" + "a'") == Turn(0, 3)
    ensures Scan("a" + [] + "'") == Turn(1, 1) && Scan("'" + [] + []) == Turn(1, 1)
  {
    hide CookedLength, BlockLength, RawLength, Find;
  }

  /** `"x` and `y"` on two lines: the `y` is kept as code, and its quote opens a literal. */
  lemma SecondLineIsKept()
    ensures Masked("\"x\ny\"") == "  \ny "
  {
    SecondLineTurns();
    hide Scan, Masked;
    assert "\"x\ny\"" == [] + "\"x" + "\ny\"" && "\ny\"" == "\n" + [] + "y\"";
    assert "y\"" == "y" + [] + "\"" && "\"" == [] + "\"" + [];
    TurnMasked([], "\"x", "\ny\"");
    TurnMasked("\n", [], "y\"");
    TurnMasked("y", [], "\"");
    TurnMasked([], "\"", []);
    NothingMasked();
    assert Blanked("\"x") == "  " && Blanked("\"") == " " && Blanked([]) == [];
  }

  lemma SecondLineTurns()
    ensures Scan([] + "\"x" + "\ny\"") == Turn(0, 2) && Scan([] + "\"" + []) == Turn(0, 1)
    ensures Scan("\n" + [] + "y\"") == Turn(1, 1) && Scan("y" + [] + "\"") == Turn(1, 1)
  {
    hide BlockLength, RawLength, Find;
    assert ([] + "\"x" + "\ny\"")[1..] == "x\ny\"" && "x\ny\""[1..] == "\ny\"";
    assert ([] + "\"" + [])[1..] == [];
  }
}
