// Decimal numerals and texts cut at a separator, as several tools use them.
module Texts {
  predicate Digit(c: char) {
    '0' <= c <= '9'
  }

  function DigitValue(c: char): nat
    requires Digit(c)
  {
    c as int - '0' as int
  }

  function Number(s: string): nat
    requires forall k :: 0 <= k < |s| ==> Digit(s[k])
  {
    if s == [] then 0 else 10 * Number(s[..|s| - 1]) + DigitValue(s[|s| - 1])
  }

  function Decimal(n: nat): (s: string)
    ensures s != [] && forall k :: 0 <= k < |s| ==> Digit(s[k])
  {
    var last := ['0' + (n % 10) as char];
    if n < 10 then last else Decimal(n / 10) + last
  }

  lemma {:induction false} NumberOfDecimal(n: nat)
    ensures Number(Decimal(n)) == n
  {
    if n >= 10 {
      NumberOfDecimal(n / 10);
      assert Decimal(n)[..|Decimal(n)| - 1] == Decimal(n / 10);
    } else {
      assert Decimal(n)[..0] == "";
    }
  }

  function Split(s: string, sep: char): (chunks: seq<string>)
    ensures chunks != []
  {
    if s == [] then [""]
    else
      var rest := Split(s[1..], sep);
      if s[0] == sep then [""] + rest else [[s[0]] + rest[0]] + rest[1..]
  }

  function Join(chunks: seq<string>, sep: char): string {
    if chunks == [] then ""
    else if |chunks| == 1 then chunks[0] else chunks[0] + [sep] + Join(chunks[1..], sep)
  }

  lemma {:induction false} ChunksAreFree(s: string, sep: char)
    ensures forall c :: c in Split(s, sep) ==> sep !in c
  {
    if s != [] {
      ChunksAreFree(s[1..], sep);
      var rest := Split(s[1..], sep);
      assert rest[0] in rest;
      forall c | c in Split(s, sep) ensures sep !in c {
        assert c == "" || c == [s[0]] + rest[0] || c in rest;
      }
    }
  }

  lemma {:induction false} SplitChunk(c: string, rest: string, sep: char)
    requires sep !in c
    ensures Split(c, sep) == [c]
    ensures Split(c + [sep] + rest, sep) == [c] + Split(rest, sep)
  {
    if c == [] {
      assert c + [sep] + rest == [sep] + rest;
      assert ([sep] + rest)[1..] == rest;
    } else {
      SplitChunk(c[1..], rest, sep);
      assert (c + [sep] + rest)[1..] == c[1..] + [sep] + rest;
      assert c == [c[0]] + c[1..];
    }
  }

  lemma {:induction false} SplitJoined(chunks: seq<string>, sep: char)
    requires chunks != [] && forall c :: c in chunks ==> sep !in c
    ensures Split(Join(chunks, sep), sep) == chunks
  {
    assert chunks[0] in chunks;
    if |chunks| == 1 {
      SplitChunk(chunks[0], "", sep);
    } else {
      SplitChunk(chunks[0], Join(chunks[1..], sep), sep);
      SplitJoined(chunks[1..], sep);
    }
  }

  lemma {:induction false} SplitConcat(p: string, q: string, sep: char)
    ensures Split(p + [sep] + q, sep) == Split(p, sep) + Split(q, sep)
  {
    if p == [] {
      assert p + [sep] + q == [sep] + q && ([sep] + q)[1..] == q;
    } else {
      assert (p + [sep] + q)[1..] == p[1..] + [sep] + q;
      SplitConcat(p[1..], q, sep);
    }
  }

  function Flat(runs: seq<seq<string>>): seq<string> {
    if runs == [] then [] else runs[0] + Flat(runs[1..])
  }

  lemma {:induction false} JoinedSplit(s: string, sep: char)
    ensures Join(Split(s, sep), sep) == s
  {
    if s != "" {
      JoinedSplit(s[1..], sep);
      var rest, whole := Split(s[1..], sep), Split(s, sep);
      assert s == [s[0]] + s[1..];
      if s[0] == sep {
        assert whole[1..] == rest;
      } else if |rest| > 1 {
        assert whole[1..] == rest[1..];
      }
    }
  }
}
