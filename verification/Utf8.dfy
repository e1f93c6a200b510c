/** UTF-8 (section 3 of RFC 3629) and the replacing decoder `String::from_utf8_lossy`
    that both stream machines run on every network chunk. */
module Utf8 {
  import opened Text

  type byte = b: int | 0 <= b < 256
  type Bytes = seq<byte>

  const REPLACEMENT: char := '\U{FFFD}'

  predicate IsContinuation(b: byte) {
    0x80 <= b < 0xC0
  }

  /** Length announced by a first byte, 0 when no sequence starts with it. */
  function Width(first: byte): nat {
    if first < 0x80 then 1
    else if 0xC2 <= first < 0xE0 then 2
    else if 0xE0 <= first < 0xF0 then 3
    else if 0xF0 <= first < 0xF5 then 4
    else 0
  }

  /** Second bytes that keep the sequence shortest-form, outside the surrogates and in range. */
  predicate SecondOk(first: byte, second: byte) {
    if first == 0xE0 then 0xA0 <= second < 0xC0
    else if first == 0xED then 0x80 <= second < 0xA0
    else if first == 0xF0 then 0x90 <= second < 0xC0
    else if first == 0xF4 then 0x80 <= second < 0x90
    else IsContinuation(second)
  }

  /** One decoding step: how many bytes it takes and the character it yields. A sequence that
      breaks off yields one replacement character for the part that was still well-formed. */
  function Step(b: Bytes): (r: (nat, char))
    requires b != []
    ensures 1 <= r.0 <= |b| && r.0 <= 4
  {
    var w := Width(b[0]);
    if w == 1 then (1, b[0] as char)
    else if w == 0 || |b| < 2 || !SecondOk(b[0], b[1]) then (1, REPLACEMENT)
    else if w == 2 then (2, ((b[0] as int - 0xC0) * 0x40 + (b[1] as int - 0x80)) as char)
    else if |b| < 3 || !IsContinuation(b[2]) then (2, REPLACEMENT)
    else if w == 3 then (3, ((b[0] as int - 0xE0) * 0x1000 + (b[1] as int - 0x80) * 0x40 + (b[2] as int - 0x80)) as char)
    else if |b| < 4 || !IsContinuation(b[3]) then (3, REPLACEMENT)
    else (4, ((b[0] as int - 0xF0) * 0x40000 + (b[1] as int - 0x80) * 0x1000 + (b[2] as int - 0x80) * 0x40 + (b[3] as int - 0x80)) as char)
  }

  /** `String::from_utf8_lossy` */
  function Decode(b: Bytes): string {
    if b == [] then "" else [Step(b).1] + Decode(b[Step(b).0..])
  }

  function EncodeChar(c: char): (b: Bytes)
    ensures b != [] && !IsContinuation(b[0])
  {
    var u := c as int;
    if u < 0x80 then [u]
    else if u < 0x800 then [0xC0 + u / 0x40, 0x80 + u % 0x40]
    else if u < 0x10000 then [0xE0 + u / 0x1000, 0x80 + u / 0x40 % 0x40, 0x80 + u % 0x40]
    else [0xF0 + u / 0x40000, 0x80 + u / 0x1000 % 0x40, 0x80 + u / 0x40 % 0x40, 0x80 + u % 0x40]
  }

  /** `String::into_bytes` */
  function Encode(s: string): Bytes {
    if s == "" then [] else EncodeChar(s[0]) + Encode(s[1..])
  }

  function Flatten(chunks: seq<Bytes>): Bytes {
    if chunks == [] then [] else chunks[0] + Flatten(chunks[1..])
  }

  /** What a machine that decodes chunk by chunk gets to see. */
  function DecodeEach(chunks: seq<Bytes>): string {
    if chunks == [] then "" else Decode(chunks[0]) + DecodeEach(chunks[1..])
  }

  /** No chunk begins inside a character. An empty chunk is harmless. */
  predicate CutsBetweenCharacters(chunks: seq<Bytes>) {
    forall c | c in chunks :: c != [] ==> !IsContinuation(c[0])
  }

  lemma StepAppend(a: Bytes, b: Bytes)
    requires a != []
    requires b != [] ==> !IsContinuation(b[0])
    ensures Step(a + b) == Step(a)
  {
    var ab := a + b;
    assert forall i | 0 <= i < |a| :: ab[i] == a[i];
    assert |ab| > |a| ==> ab[|a|] == b[0];
  }

  /** A cut in front of a byte that is not a continuation byte is invisible to the decoder,
      whether or not the bytes around it are well-formed. */
  lemma {:induction false} DecodeAppend(a: Bytes, b: Bytes)
    requires b != [] ==> !IsContinuation(b[0])
    ensures Decode(a + b) == Decode(a) + Decode(b)
  {
    if a == [] {
      Plus(b);
    } else {
      StepAppend(a, b);
      var n := Step(a).0;
      assert (a + b)[n..] == a[n..] + b;
      DecodeAppend(a[n..], b);
      Assoc([Step(a).1], Decode(a[n..]), Decode(b));
    }
  }

  /** A character that breaks off leaves one replacement character, however much of it arrived. */
  lemma CutOffCharacter(c: char, n: nat, rest: Bytes)
    requires 0 < n < |EncodeChar(c)| && (rest != [] ==> !IsContinuation(rest[0]))
    ensures Decode(EncodeChar(c)[..n] + rest) == [REPLACEMENT] + Decode(rest)
  {
    var head := EncodeChar(c)[..n];
    var b := head + rest;
    assert b[..n] == head && b[n..] == rest;
    CutOffStep(c, n);
    StepAppend(head, rest);
  }

  lemma CutOffStep(c: char, n: nat)
    requires 0 < n < |EncodeChar(c)|
    ensures Step(EncodeChar(c)[..n]) == (n, REPLACEMENT)
  {
  }

  /** A byte that begins no character is replaced on its own. */
  lemma StrayByteReplaced(b: byte, rest: Bytes)
    requires IsContinuation(b) || b in {0xC0, 0xC1} || b >= 0xF5
    ensures Decode([b] + rest) == [REPLACEMENT] + Decode(rest)
  {
    assert ([b] + rest)[1..] == rest;
  }

  /** Overlong forms, surrogates and what lies beyond Unicode are no characters: the first byte is
      replaced on its own. */
  lemma ImproperReplaced(a: byte, b: byte, rest: Bytes)
    requires (a == 0xE0 && b < 0xA0) || (a == 0xED && b >= 0xA0) || (a == 0xF0 && b < 0x90) || (a == 0xF4 && b >= 0x90)
    ensures Decode([a, b] + rest) == [REPLACEMENT] + Decode([b] + rest)
  {
    assert ([a, b] + rest)[1..] == [b] + rest;
  }

  predicate Ascii(b: Bytes) {
    forall i | 0 <= i < |b| :: b[i] < 0x80
  }

  /** ASCII text followed by anything at all decodes piece by piece. */
  lemma {:induction false} DecodeAsciiThen(a: Bytes, b: Bytes)
    requires Ascii(a)
    ensures Decode(a + b) == Decode(a) + Decode(b)
  {
    if a == [] {
      Plus(b);
    } else {
      AppendTail(a, b);
      DecodeAsciiThen(a[1..], b);
      Assoc([Step(a).1], Decode(a[1..]), Decode(b));
    }
  }

  /** However the bytes are cut, an ASCII head is decoded as it stands. */
  lemma {:induction false} DecodeEachAsciiHead(chunks: seq<Bytes>, head: Bytes, tail: Bytes) returns (more: string)
    requires Flatten(chunks) == head + tail && Ascii(head)
    ensures DecodeEach(chunks) == Decode(head) + more
    decreases |chunks|
  {
    if chunks == [] {
      more := "";
    } else {
      var first, later := chunks[0], chunks[1..];
      if |first| <= |head| {
        SplitHead(first, Flatten(later), head, tail);
        var left := head[|first|..];
        more := DecodeEachAsciiHead(later, left, tail);
        DecodeAsciiThen(first, left);
        Assoc(Decode(first), Decode(left), more);
      } else {
        SplitHead(head, tail, first, Flatten(later));
        var rest := first[|head|..];
        DecodeAsciiThen(head, rest);
        more := Decode(rest) + DecodeEach(later);
        Assoc(Decode(head), Decode(rest), DecodeEach(later));
      }
    }
  }

  /** Two ways of cutting one sequence, the first cut not later than the second. */
  lemma SplitHead(a: Bytes, b: Bytes, c: Bytes, d: Bytes)
    requires a + b == c + d && |a| <= |c|
    ensures c == a + c[|a|..] && b == c[|a|..] + d
  {
    assert a == (a + b)[..|a|] == (c + d)[..|a|] == c[..|a|];
    assert b == (a + b)[|a|..] == (c + d)[|a|..] == c[|a|..] + d;
  }

  lemma {:induction false} FlattenFirst(chunks: seq<Bytes>)
    requires CutsBetweenCharacters(chunks)
    ensures Flatten(chunks) != [] ==> !IsContinuation(Flatten(chunks)[0])
  {
    if chunks != [] {
      FlattenFirst(chunks[1..]);
    }
  }

  lemma {:induction false} DecodeEachIsDecode(chunks: seq<Bytes>)
    requires CutsBetweenCharacters(chunks)
    ensures DecodeEach(chunks) == Decode(Flatten(chunks))
  {
    if chunks != [] {
      FlattenFirst(chunks[1..]);
      DecodeAppend(chunks[0], Flatten(chunks[1..]));
      DecodeEachIsDecode(chunks[1..]);
    }
  }

  lemma {:induction false} FlattenAppend(a: seq<Bytes>, b: seq<Bytes>)
    ensures Flatten(a + b) == Flatten(a) + Flatten(b)
  {
    if a == [] {
      Plus(b);
    } else {
      AppendTail(a, b);
      FlattenAppend(a[1..], b);
      Assoc(a[0], Flatten(a[1..]), Flatten(b));
    }
  }

  lemma {:induction false} DecodeEachAppend(a: seq<Bytes>, b: seq<Bytes>)
    ensures DecodeEach(a + b) == DecodeEach(a) + DecodeEach(b)
  {
    if a == [] {
      Plus(b);
    } else {
      AppendTail(a, b);
      DecodeEachAppend(a[1..], b);
      Assoc(Decode(a[0]), DecodeEach(a[1..]), DecodeEach(b));
    }
  }

  lemma Digits(u: nat)
    ensures u == u / 0x1000 * 0x1000 + u / 0x40 % 0x40 * 0x40 + u % 0x40
    ensures u / 0x1000 == u / 0x40000 * 0x40 + u / 0x1000 % 0x40
  {
    assert u / 0x40 / 0x40 == u / 0x1000;
    assert u / 0x1000 / 0x40 == u / 0x40000;
  }

  lemma EncodeThree(c: char)
    requires 0x800 <= c as int < 0x10000
    ensures var b := EncodeChar(c);
            |b| == 3 && Width(b[0]) == 3 && SecondOk(b[0], b[1]) && IsContinuation(b[2])
            && (b[0] as int - 0xE0) * 0x1000 + (b[1] as int - 0x80) * 0x40 + (b[2] as int - 0x80) == c as int
  {
    Digits(c as int);
  }

  lemma EncodeFour(c: char)
    requires 0x10000 <= c as int
    ensures var b := EncodeChar(c);
            |b| == 4 && Width(b[0]) == 4 && SecondOk(b[0], b[1]) && IsContinuation(b[2]) && IsContinuation(b[3])
            && (b[0] as int - 0xF0) * 0x40000 + (b[1] as int - 0x80) * 0x1000 + (b[2] as int - 0x80) * 0x40 + (b[3] as int - 0x80) == c as int
  {
    Digits(c as int);
  }

  lemma EncodeCharStep(c: char, rest: Bytes)
    ensures Step(EncodeChar(c) + rest) == (|EncodeChar(c)|, c)
  {
    var u := c as int;
    var b := EncodeChar(c) + rest;
    if u < 0x80 {
    } else if u < 0x800 {
      assert b[0] == EncodeChar(c)[0] && b[1] == EncodeChar(c)[1];
    } else if u < 0x10000 {
      EncodeThree(c);
      assert b[..3] == EncodeChar(c);
      assert b[0] == b[..3][0] && b[1] == b[..3][1] && b[2] == b[..3][2];
    } else {
      EncodeFour(c);
      assert b[..4] == EncodeChar(c);
      assert b[0] == b[..4][0] && b[1] == b[..4][1] && b[2] == b[..4][2] && b[3] == b[..4][3];
    }
  }

  lemma {:induction false} EncodeAppend(a: string, b: string)
    ensures Encode(a + b) == Encode(a) + Encode(b)
  {
    if a == "" {
      Plus(b);
    } else {
      AppendTail(a, b);
      EncodeAppend(a[1..], b);
      Assoc(EncodeChar(a[0]), Encode(a[1..]), Encode(b));
    }
  }

  lemma {:induction false} DecodeEncode(s: string)
    ensures Decode(Encode(s)) == s
  {
    if s != "" {
      var head, rest := EncodeChar(s[0]), Encode(s[1..]);
      EncodeCharStep(s[0], rest);
      assert (head + rest)[|head|..] == rest;
      DecodeEncode(s[1..]);
    }
  }

  // ----- Which cuts show -----

  /** How many bytes start a character. */
  function Leads(b: Bytes): nat {
    if b == [] then 0 else (if IsContinuation(b[0]) then 0 else 1) + Leads(b[1..])
  }

  lemma {:induction false} LeadsAppend(a: Bytes, b: Bytes)
    ensures Leads(a + b) == Leads(a) + Leads(b)
  {
    if a == [] {
      Plus(b);
    } else {
      AppendTail(a, b);
      LeadsAppend(a[1..], b);
    }
  }

  lemma {:induction false} NoLeads(b: Bytes)
    requires forall i | 0 <= i < |b| :: IsContinuation(b[i])
    ensures Leads(b) == 0
  {
    if b != [] {
      NoLeads(b[1..]);
    }
  }

  lemma EncodeCharTail(c: char)
    ensures forall i | 0 < i < |EncodeChar(c)| :: IsContinuation(EncodeChar(c)[i])
  {
  }

  /** Well-formed text has one such byte for each character. */
  lemma {:induction false} LeadsEncode(s: string)
    ensures Leads(Encode(s)) == |s|
  {
    if s != "" {
      var head := EncodeChar(s[0]);
      EncodeCharTail(s[0]);
      NoLeads(head[1..]);
      LeadsAppend(head, Encode(s[1..]));
      LeadsEncode(s[1..]);
    }
  }

  lemma StepTail(b: Bytes)
    requires b != []
    ensures forall i | 0 < i < Step(b).0 :: IsContinuation(b[i])
    ensures IsContinuation(b[0]) ==> Step(b).0 == 1
  {
  }

  /** Decoding never merges characters, and a chunk that begins inside one costs an extra. */
  lemma {:induction false} DecodeLength(b: Bytes)
    ensures |Decode(b)| >= Leads(b) + (if b != [] && IsContinuation(b[0]) then 1 else 0)
  {
    if b != [] {
      var n := Step(b).0;
      StepTail(b);
      NoLeads(b[1..n]);
      assert b[..n][1..] == b[1..n];
      LeadsAppend(b[..n], b[n..]);
      TakeDrop(b, n);
      DecodeLength(b[n..]);
    }
  }

  lemma CutsSplit(chunks: seq<Bytes>)
    requires chunks != []
    ensures CutsBetweenCharacters(chunks)
         <==> ((chunks[0] != [] ==> !IsContinuation(chunks[0][0])) && CutsBetweenCharacters(chunks[1..]))
  {
    assert chunks == [chunks[0]] + chunks[1..];
  }

  lemma {:induction false} DecodeEachLength(chunks: seq<Bytes>)
    ensures |DecodeEach(chunks)| >= Leads(Flatten(chunks))
    ensures !CutsBetweenCharacters(chunks) ==> |DecodeEach(chunks)| > Leads(Flatten(chunks))
  {
    if chunks != [] {
      DecodeLength(chunks[0]);
      DecodeEachLength(chunks[1..]);
      LeadsAppend(chunks[0], Flatten(chunks[1..]));
      CutsSplit(chunks);
    }
  }

  /** Exactly the cuts inside characters show: decoding well-formed text chunk by chunk gives the
      text back if and only if no chunk begins with a continuation byte. */
  lemma CutsShowIff(chunks: seq<Bytes>, s: string)
    requires Flatten(chunks) == Encode(s)
    ensures DecodeEach(chunks) == s <==> CutsBetweenCharacters(chunks)
  {
    if CutsBetweenCharacters(chunks) {
      DecodeEachIsDecode(chunks);
      DecodeEncode(s);
    } else {
      DecodeEachLength(chunks);
      LeadsEncode(s);
    }
  }
}
