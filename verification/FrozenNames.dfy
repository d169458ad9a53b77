// The frozen equipment name arrays: a scanner for single-quoted names and the
// reader of one array, each the inverse of printing.
module FrozenNames {
  import opened Options

  predicate OneLine(v: string) {
    '\n' !in v && '\r' !in v
  }

  predicate Special(c: char) {
    c == '\'' || c == '\\'
  }

  function Shown(c: char): string {
    if Special(c) then ['\\', c] else [c]
  }

  /** The value with a backslash before each quote and each backslash. */
  function Escaped(v: string): string {
    if v == "" then "" else Shown(v[0]) + Escaped(v[1..])
  }

  function Quoted(v: string): string {
    "'" + Escaped(v) + "'"
  }

  /** A value, and how much text it took. */
  datatype Read<T> = Read(value: T, size: nat)

  function Before(c: char, size: nat, r: Option<Read<string>>): Option<Read<string>> {
    if r.None? then None else Some(Read([c] + r.value.value, size + r.value.size))
  }

  /** The rest of a name behind its opening quote. */
  function Rest(s: string): (r: Option<Read<string>>)
    ensures r.Some? ==> 0 < r.value.size <= |s|
  {
    if s == "" then None
    else if s[0] == '\\' then
      if |s| < 2 || !Special(s[1]) then None else Before(s[1], 2, Rest(s[2..]))
    else if s[0] == '\'' then Some(Read("", 1))
    else if s[0] == '\n' || s[0] == '\r' then None
    else Before(s[0], 1, Rest(s[1..]))
  }

  lemma RestShown(c: char, more: string)
    requires c != '\n' && c != '\r'
    ensures Rest(Shown(c) + more) == Before(c, |Shown(c)|, Rest(more))
  {
    assert (Shown(c) + more)[|Shown(c)|..] == more;
  }

  /** Any one-line value is read back from its printed form, whatever follows. */
  lemma {:induction false} RestPrinted(v: string, more: string)
    requires OneLine(v)
    ensures Rest(Escaped(v) + "'" + more) == Some(Read(v, |Escaped(v)| + 1))
  {
    if v == "" {
      assert Escaped(v) + "'" + more == "'" + more;
    } else {
      hide Rest, Shown, OneLine;
      OneLineTail(v);
      RestPrinted(v[1..], more);
      EscapedFirst(v, more);
      RestShown(v[0], Escaped(v[1..]) + "'" + more);
      assert v == [v[0]] + v[1..];
    }
  }

  lemma OneLineTail(v: string)
    requires OneLine(v) && v != ""
    ensures OneLine(v[1..]) && v[0] != '\n' && v[0] != '\r'
  {
    assert v[0] in v;
  }

  lemma EscapedFirst(v: string, more: string)
    requires v != ""
    ensures Escaped(v) == Shown(v[0]) + Escaped(v[1..])
    ensures Escaped(v) + "'" + more == Shown(v[0]) + (Escaped(v[1..]) + "'" + more)
  {
  }

  /** Whatever is read is the printed form of the value. */
  lemma {:induction false} RestSound(s: string)
    requires Rest(s).Some?
    ensures var r := Rest(s).value; OneLine(r.value) && s[..r.size] == Escaped(r.value) + "'"
  {
    var r := Rest(s).value;
    if s[0] != '\'' {
      var n := if s[0] == '\\' then 2 else 1;
      RestSound(s[n..]);
      assert r.value[1..] == Rest(s[n..]).value.value;
      assert s[..r.size] == s[..n] + s[n..][..r.size - n];
      assert s[..n] == Shown(r.value[0]);
    }
  }

  function After(value: string, size: nat, r: Option<Read<string>>): Option<Read<string>> {
    if r.None? then None else Some(Read(value + r.value.value, size + r.value.size))
  }

  /** The quoted name at a place, and where it ends. */
  function QuotedAt(text: string, start: nat): Option<Read<string>> {
    if start < |text| && text[start] == '\'' then After("", start + 1, Rest(text[start + 1..])) else None
  }

  /** `parseFrozenEquipmentSingleQuoted`: the value and the place behind its closing quote. */
  method ParseQuoted(text: string, start: nat) returns (r: Option<Read<string>>)
    ensures r == QuotedAt(text, start)
  {
    if start >= |text| || text[start] != '\'' {
      return None;
    }
    var index, value := start + 1, "";
    while index < |text|
      invariant start < index <= |text|
      invariant After("", start + 1, Rest(text[start + 1..])) == After(value, index, Rest(text[index..]))
    {
      var ch := text[index];
      ghost var s := text[index..];
      assert s[1..] == text[index + 1..];
      if ch == '\\' {
        if index + 1 >= |text| || !Special(text[index + 1]) { return None; }
        assert s[2..] == text[index + 2..];
        Joined(value, s[1], index, 2, Rest(s[2..]));
        value := value + [text[index + 1]];
        index := index + 2;
      } else if ch == '\'' {
        assert value + "" == value;
        return Some(Read(value, index + 1));
      } else if ch == '\n' || ch == '\r' {
        return None;
      } else {
        Joined(value, ch, index, 1, Rest(s[1..]));
        value := value + [ch];
        index := index + 1;
      }
    }
    return None;
  }

  lemma Joined(value: string, c: char, index: nat, n: nat, r: Option<Read<string>>)
    ensures After(value, index, Before(c, n, r)) == After(value + [c], index + n, r)
  {
    if r.Some? { assert value + ([c] + r.value.value) == (value + [c]) + r.value.value; }
  }

  ghost predicate PrintedAt(text: string, start: nat, end: nat, v: string) {
    start <= end <= |text| && text[start..end] == Quoted(v) && OneLine(v)
  }

  lemma PrintedIsRead(text: string, start: nat, end: nat, v: string)
    requires PrintedAt(text, start, end, v)
    ensures QuotedAt(text, start) == Some(Read(v, end))
  {
    hide Rest, Escaped;
    var s, n := text[start + 1..], |Escaped(v)| + 1;
    assert text[start] == text[start..end][0] == '\'';
    assert Quoted(v)[1..] == Escaped(v) + "'";
    assert s[..n] == text[start..end][1..];
    assert s == Escaped(v) + "'" + s[n..];
    RestPrinted(v, s[n..]);
    assert "" + v == v;
  }

  lemma ReadIsPrinted(text: string, start: nat, end: nat, v: string)
    requires QuotedAt(text, start) == Some(Read(v, end))
    ensures PrintedAt(text, start, end, v)
  {
    hide Rest, Escaped;
    var s := text[start + 1..];
    RestSound(s);
    assert "" + Rest(s).value.value == Rest(s).value.value;
    assert text[start..end] == [text[start]] + s[..end - start - 1] by {
      assert s[..end - start - 1] == text[start + 1..end];
    }
    assert "'" + (Escaped(v) + "'") == Quoted(v);
    assert [text[start]] == "'";
  }

  /** A read gives a value and an end exactly when the text between is the
      printed form of the value; so there is at most one. */
  lemma QuotedIff(text: string, start: nat, end: nat, v: string)
    ensures PrintedAt(text, start, end, v) <==> QuotedAt(text, start) == Some(Read(v, end))
  {
    hide PrintedAt, QuotedAt;
    if PrintedAt(text, start, end, v) { PrintedIsRead(text, start, end, v); }
    if QuotedAt(text, start) == Some(Read(v, end)) { ReadIsPrinted(text, start, end, v); }
  }

  // ---------------------------------------------------------------------
  // Arrays
  // ---------------------------------------------------------------------

  predicate Gap(c: char) {
    c == ' ' || c == '\t' || c == '\n' || c == '\r' || c == ','
  }

  /** What stands in an array: separators and names. */
  datatype Piece = Separator(c: char) | Name(value: string)

  predicate Good(p: Piece) {
    match p
    case Separator(c) => c in {' ', '\t', '\n', '\r', ','}
    case Name(v) => v != "" && OneLine(v)
  }

  function PieceText(p: Piece): string {
    match p
    case Separator(c) => [c]
    case Name(v) => Quoted(v)
  }

  function Text(pieces: seq<Piece>): string {
    if pieces == [] then "" else PieceText(pieces[0]) + Text(pieces[1..])
  }

  function NameIn(p: Piece): seq<string> {
    if p.Name? then [p.value] else []
  }

  function NamesOf(pieces: seq<Piece>): seq<string> {
    if pieces == [] then [] else NameIn(pieces[0]) + NamesOf(pieces[1..])
  }

  function Longer(names: seq<string>, size: nat, r: Option<Read<seq<string>>>): Option<Read<seq<string>>> {
    if r.None? then None else Some(Read(names + r.value.value, size + r.value.size))
  }

  /** The piece that a text starts with. */
  function Head(s: string): (r: Option<Read<Piece>>)
    ensures r.Some? ==> 0 < r.value.size <= |s|
  {
    if s == "" then None
    else if Gap(s[0]) then Some(Read(Separator(s[0]), 1))
    else if s[0] != '\'' then None
    else
      var name := Rest(s[1..]);
      if name.None? || name.value.value == "" then None else Some(Read(Name(name.value.value), 1 + name.value.size))
  }

  /** The array behind its opening bracket, up to its closing one. */
  function ArrayRest(s: string): (r: Option<Read<seq<string>>>)
    ensures r.Some? ==> 0 < r.value.size <= |s|
    decreases |s|
  {
    if s != "" && s[0] == ']' then Some(Read([], 1))
    else
      var head := Head(s);
      if head.None? then None
      else Longer(NameIn(head.value.value), head.value.size, ArrayRest(s[head.value.size..]))
  }

  lemma HeadPrinted(p: Piece, more: string)
    requires Good(p)
    ensures Head(PieceText(p) + more) == Some(Read(p, |PieceText(p)|)) && (PieceText(p) + more)[0] != ']'
  {
    hide Rest, Escaped;
    var s := PieceText(p) + more;
    if p.Name? {
      assert s[1..] == Escaped(p.value) + "'" + more;
      RestPrinted(p.value, more);
    }
  }

  lemma HeadSound(s: string)
    requires Head(s).Some?
    ensures var r := Head(s).value; Good(r.value) && s[..r.size] == PieceText(r.value)
  {
    hide Rest, Escaped;
    if !Gap(s[0]) {
      RestSound(s[1..]);
      var name := Rest(s[1..]).value;
      assert s[..1 + name.size] == [s[0]] + s[1..][..name.size];
      assert "'" + (Escaped(name.value) + "'") == Quoted(name.value);
      assert [s[0]] == "'";
    }
  }

  /** Every array of separators and names is read as its names, in order. */
  lemma {:induction false} ArrayPrinted(pieces: seq<Piece>, more: string)
    requires forall p :: p in pieces ==> Good(p)
    ensures ArrayRest(Text(pieces) + "]" + more) == Some(Read(NamesOf(pieces), |Text(pieces)| + 1))
  {
    hide Good, PieceText, Head;
    var s := Text(pieces) + "]" + more;
    if pieces == [] {
      assert s == "]" + more;
    } else {
      ArrayPrinted(pieces[1..], more);
      var rest := Text(pieces[1..]) + "]" + more;
      assert s == PieceText(pieces[0]) + rest;
      assert pieces[0] in pieces;
      HeadPrinted(pieces[0], rest);
      assert s[|PieceText(pieces[0])|..] == rest;
    }
  }

  /** Whatever is read is such an array. */
  lemma {:induction false} ArraySound(s: string) returns (pieces: seq<Piece>)
    requires ArrayRest(s).Some?
    ensures forall p :: p in pieces ==> Good(p)
    ensures var r := ArrayRest(s).value; s[..r.size] == Text(pieces) + "]" && r.value == NamesOf(pieces)
    decreases |s|
  {
    hide Good, PieceText, Head;
    if s != "" && s[0] == ']' {
      pieces := [];
      assert s[..1] == "" + "]";
    } else {
      var head := Head(s).value;
      HeadSound(s);
      var rest := ArraySound(s[head.size..]);
      pieces := [head.value] + rest;
      assert pieces[1..] == rest;
      var size := ArrayRest(s).value.size;
      assert s[..size] == s[..head.size] + s[head.size..][..size - head.size];
    }
  }

  /** The names of the array; one without names is an error too. */
  function NamesAt(text: string, start: nat): Option<seq<string>>
    requires start <= |text|
  {
    var r := ArrayRest(text[start..]);
    if r.None? || r.value.value == [] then None else Some(r.value.value)
  }

  /** The names found so far stand before those still to be read. */
  ghost predicate Reading(text: string, start: nat, index: nat, found: seq<string>) {
    && start <= index <= |text|
    && ArrayRest(text[start..]) == Longer(found, index - start, ArrayRest(text[index..]))
  }

  lemma ReadingPiece(text: string, start: nat, index: nat, found: seq<string>, head: Read<Piece>)
    requires Reading(text, start, index, found) && index < |text| && text[index] != ']'
    requires Head(text[index..]) == Some(head)
    ensures index + head.size <= |text| && Reading(text, start, index + head.size, found + NameIn(head.value))
  {
    hide Head, NameIn;
    var s := text[index..];
    assert s[head.size..] == text[index + head.size..];
    LongerTwice(found, index - start, NameIn(head.value), head.size, ArrayRest(s[head.size..]));
  }

  lemma ReadingEnds(text: string, start: nat, index: nat, found: seq<string>)
    requires Reading(text, start, index, found)
    ensures index < |text| && text[index] == ']' ==> NamesAt(text, start) == if found == [] then None else Some(found)
    ensures (index < |text| ==> text[index] != ']') && Head(text[index..]).None? ==> NamesAt(text, start).None?
  {
    hide Head;
    assert found + [] == found;
  }

  lemma HeadAt(text: string, index: nat)
    requires index < |text|
    ensures var ch, name := text[index], QuotedAt(text, index);
      Head(text[index..]) == if Gap(ch) then Some(Read(Separator(ch), 1))
                             else if ch != '\'' || name.None? || name.value.value == "" then None
                             else Some(Read(Name(name.value.value), name.value.size - index))
  {
    hide Rest;
    var s := text[index..];
    assert s[1..] == text[index + 1..];
    if Rest(s[1..]).Some? { assert "" + Rest(s[1..]).value.value == Rest(s[1..]).value.value; }
  }

  lemma ReadingGap(text: string, start: nat, index: nat, found: seq<string>)
    requires Reading(text, start, index, found) && index < |text| && Gap(text[index])
    ensures Reading(text, start, index + 1, found)
  {
    hide Reading, Head;
    HeadAt(text, index);
    ReadingPiece(text, start, index, found, Read(Separator(text[index]), 1));
    assert found + [] == found;
  }

  lemma ReadingName(text: string, start: nat, index: nat, found: seq<string>, name: Read<string>)
    requires Reading(text, start, index, found) && index < |text| && text[index] == '\''
    requires QuotedAt(text, index) == Some(name) && name.value != ""
    ensures index < name.size <= |text| && Reading(text, start, name.size, found + [name.value])
  {
    hide Reading, Head, Rest;
    HeadAt(text, index);
    ReadingPiece(text, start, index, found, Read(Name(name.value), name.size - index));
  }

  lemma ReadingFails(text: string, start: nat, index: nat, found: seq<string>)
    requires Reading(text, start, index, found)
    requires index < |text| ==> !Gap(text[index]) && text[index] != ']'
    requires index < |text| && text[index] == '\'' ==>
      QuotedAt(text, index).None? || QuotedAt(text, index).value.value == ""
    ensures NamesAt(text, start).None?
  {
    if index < |text| { HeadAt(text, index); }
    hide Reading, QuotedAt, NamesAt;
    ReadingEnds(text, start, index, found);
  }

  /** The loop of `parseFrozenEquipmentNameArrays` behind an array's header. */
  method ParseArray(text: string, start: nat) returns (names: Option<seq<string>>)
    requires start <= |text|
    ensures names == NamesAt(text, start)
  {
    hide *;
    var index, found := start, [];
    ReadingStarts(text, start);
    while index < |text|
      invariant start <= index <= |text| && Reading(text, start, index, found)
    {
      var ch := text[index];
      if Gap(ch) {
        ReadingGap(text, start, index, found);
        index := index + 1;
      } else if ch == ']' {
        ReadingEnds(text, start, index, found);
        return if found == [] then None else Some(found);
      } else if ch == '\'' {
        var parsed := ParseQuoted(text, index);
        if parsed.None? || parsed.value.value == "" {
          ReadingFails(text, start, index, found);
          return None;
        }
        ReadingName(text, start, index, found, parsed.value);
        found := found + [parsed.value.value];
        index := parsed.value.size;
      } else {
        ReadingFails(text, start, index, found);
        return None;
      }
    }
    ReadingFails(text, start, index, found);
    return None;
  }

  lemma ReadingStarts(text: string, start: nat)
    requires start <= |text|
    ensures Reading(text, start, start, [])
  {
    var r := ArrayRest(text[start..]);
    if r.Some? { assert [] + r.value.value == r.value.value; }
  }

  lemma LongerTwice(a: seq<string>, m: nat, b: seq<string>, n: nat, r: Option<Read<seq<string>>>)
    ensures Longer(a, m, Longer(b, n, r)) == Longer(a + b, m + n, r)
  {
    if r.Some? { assert a + (b + r.value.value) == (a + b) + r.value.value; }
  }
}
