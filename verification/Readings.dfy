/** Two readings of the same bytes, cut differently: what they have in common, line by line and
    payload by payload. */
module Readings {
  import opened Wrappers
  import opened Text
  import opened Framing
  import opened Utf8

  predicate IsAscii(c: char) {
    c < '\U{0080}'
  }

  predicate AsciiText(s: string) {
    forall i | 0 <= i < |s| :: IsAscii(s[i])
  }

  // ----- Payloads -----

  function Same(payload: string): Option<string> {
    Some(payload)
  }

  /** The payloads of the complete `data: ` lines. */
  function Payloads(s: string): seq<string> {
    Events(Same, s)
  }

  function ParseAll<T>(parse: Parser<T>, payloads: seq<string>): seq<T> {
    if payloads == [] then []
    else
      (match parse(payloads[0]) case Some(e) => [e] case None => []) + ParseAll(parse, payloads[1..])
  }

  lemma {:induction false} ParsedPayloads<T>(parse: Parser<T>, lines: seq<string>)
    ensures EventsOf(parse, lines) == ParseAll(parse, EventsOf(Same, lines))
  {
    if lines != [] {
      ParsedPayloads(parse, lines[1..]);
      var rest := EventsOf(Same, lines[1..]);
      var here := EventOf(Same, lines[0]);
      if here.Some? {
        assert ([here.value] + rest)[1..] == rest;
        assert EventOf(parse, lines[0]) == parse(here.value);
      }
    }
  }

  // ----- Relations that leave ASCII characters where they are -----

  type Relation = (string, string) -> bool

  /** A text that relates to one with an ASCII character has that character too, between related parts. */
  ghost predicate SplitsAt(r: Relation, a: string, c: char, b: string, y: string) {
    r(a + [c] + b, y) ==> exists y1, y2 :: y == y1 + [c] + y2 && r(a, y1) && r(b, y2)
  }

  predicate EndsAlike(r: Relation, x: string, y: string) {
    r(x, y) ==>
      && (x == "" <==> y == "")
      && ('\n' !in x ==> '\n' !in y)
      && (x != "" && y != "" && !IsAscii(x[0]) ==> !IsAscii(y[0]))
      && (x != "" && y != "" && !IsAscii(x[|x| - 1]) ==> !IsAscii(y[|y| - 1]))
  }

  ghost predicate KeepsAscii(r: Relation) {
    && (forall a: string, c: char, b: string, y: string | IsAscii(c) :: SplitsAt(r, a, c, b, y))
    && (forall x: string, y: string :: EndsAlike(r, x, y))
  }

  lemma Split(r: Relation, a: string, c: char, b: string, y: string) returns (y1: string, y2: string)
    requires KeepsAscii(r) && IsAscii(c) && r(a + [c] + b, y)
    ensures y == y1 + [c] + y2 && r(a, y1) && r(b, y2)
  {
    assert SplitsAt(r, a, c, b, y);
    y1, y2 :| y == y1 + [c] + y2 && r(a, y1) && r(b, y2);
  }

  lemma FirstAscii(r: Relation, x: string, y: string)
    requires KeepsAscii(r) && r(x, y) && x != "" && IsAscii(x[0])
    ensures y != "" && y[0] == x[0] && r(x[1..], y[1..])
  {
    assert x == "" + [x[0]] + x[1..];
    var y1, y2 := Split(r, "", x[0], x[1..], y);
    assert EndsAlike(r, "", y1);
    assert y[1..] == y2;
  }

  lemma LastAscii(r: Relation, x: string, y: string)
    requires KeepsAscii(r) && r(x, y) && x != "" && IsAscii(x[|x| - 1])
    ensures y != "" && y[|y| - 1] == x[|x| - 1] && r(x[..|x| - 1], y[..|y| - 1])
  {
    var c := x[|x| - 1];
    assert x == x[..|x| - 1] + [c] + "";
    var y1, y2 := Split(r, x[..|x| - 1], c, "", y);
    assert EndsAlike(r, "", y2);
    assert y == y1 + [c] && y[..|y| - 1] == y1;
  }

  /** An ASCII prefix of the one is a prefix of the other, and what follows it is related. */
  lemma {:induction false} PrefixRelated(r: Relation, p: string, x: string, y: string)
    requires KeepsAscii(r) && r(x, y) && AsciiText(p)
    ensures p <= x <==> p <= y
    ensures p <= x ==> r(x[|p|..], y[|p|..])
  {
    if p != "" {
      assert EndsAlike(r, x, y);
      if x != "" && IsAscii(x[0]) {
        FirstAscii(r, x, y);
        PrefixRelated(r, p[1..], x[1..], y[1..]);
        PrefixTail(p, x);
        PrefixTail(p, y);
      }
    }
  }

  lemma PrefixTail(p: string, x: string)
    requires p != "" && x != ""
    ensures p <= x <==> p[0] == x[0] && p[1..] <= x[1..]
    ensures p <= x ==> x[1..][|p| - 1..] == x[|p|..]
  {
    assert p == [p[0]] + p[1..] && x == [x[0]] + x[1..];
  }

  lemma {:induction false} TrimEolRelated(r: Relation, x: string, y: string)
    requires KeepsAscii(r) && r(x, y)
    ensures r(TrimEol(x), TrimEol(y))
  {
    assert EndsAlike(r, x, y);
    if x != "" && IsAscii(x[|x| - 1]) {
      LastAscii(r, x, y);
      TrimEolRelated(r, x[..|x| - 1], y[..|y| - 1]);
    }
  }

  /** Lines related up to their ends. */
  predicate LinesAlike(r: Relation, xs: seq<string>, ys: seq<string>) {
    |xs| == |ys| && forall i | 0 <= i < |xs| :: r(TrimEol(xs[i]), TrimEol(ys[i]))
  }

  lemma SplitLine(x: string) returns (a: string, b: string)
    requires '\n' in x
    ensures x == a + ['\n'] + b && '\n' !in a
  {
    var i := IndexOf(x, '\n');
    IndexOfAbsent(x, '\n');
    a, b := x[..i], x[i + 1..];
  }

  lemma NoLines(x: string)
    requires '\n' !in x
    ensures Lines(x) == []
  {
    IndexOfAbsent(x, '\n');
  }

  lemma {:induction false} LinesRelated(r: Relation, x: string, y: string)
    requires KeepsAscii(r) && r(x, y)
    ensures LinesAlike(r, Lines(x), Lines(y))
    decreases |x|
  {
    if '\n' in x {
      var a, b := SplitLine(x);
      var y1, y2 := Split(r, a, '\n', b, y);
      assert EndsAlike(r, a, y1);
      FirstLine(a, b);
      FirstLine(y1, y2);
      LinesRelated(r, b, y2);
      OneMoreLine(r, a, Lines(b), y1, Lines(y2));
    } else {
      assert EndsAlike(r, x, y);
      NoLines(x);
      NoLines(y);
    }
  }

  lemma OneMoreLine(r: Relation, a: string, xs: seq<string>, b: string, ys: seq<string>)
    requires KeepsAscii(r) && r(a, b) && LinesAlike(r, xs, ys)
    ensures LinesAlike(r, [a + ['\n']] + xs, [b + ['\n']] + ys)
  {
    TrimEolRelated(r, a, b);
    TrimNewline(a);
    TrimNewline(b);
  }

  lemma TrimNewline(a: string)
    ensures TrimEol(a + ['\n']) == TrimEol(a)
  {
    assert (a + ['\n'])[..|a|] == a;
  }

  lemma FirstLine(a: string, b: string)
    requires '\n' !in a
    ensures Lines(a + ['\n'] + b) == [a + ['\n']] + Lines(b)
  {
    var s := a + ['\n'] + b;
    assert s[..|a|] == a && s[|a|] == '\n';
    IndexOfUnique(s, '\n', |a|);
    assert s[..|a| + 1] == a + ['\n'] && s[|a| + 1..] == b;
    LinesOnce(s);
  }

  predicate Pairwise(r: Relation, xs: seq<string>, ys: seq<string>) {
    |xs| == |ys| && forall i | 0 <= i < |xs| :: r(xs[i], ys[i])
  }

  lemma {:induction false} EventsRelated(r: Relation, xs: seq<string>, ys: seq<string>)
    requires KeepsAscii(r) && LinesAlike(r, xs, ys)
    ensures Pairwise(r, EventsOf(Same, xs), EventsOf(Same, ys))
  {
    if xs != [] {
      EventsRelated(r, xs[1..], ys[1..]);
      assert AsciiText(DATA_PREFIX);
      PrefixRelated(r, DATA_PREFIX, TrimEol(xs[0]), TrimEol(ys[0]));
    }
  }

  /** Related texts have related payloads, one for one: nothing changes about which lines carry one. */
  lemma PayloadsRelated(r: Relation, x: string, y: string)
    requires KeepsAscii(r) && r(x, y)
    ensures Pairwise(r, Payloads(x), Payloads(y))
  {
    LinesRelated(r, x, y);
    EventsRelated(r, Lines(x), Lines(y));
  }

  // ----- Two readings of the same bytes -----

  lemma StepHigh(b: Bytes)
    requires b != []
    ensures forall i | 0 <= i < Step(b).0 :: (b[i] < 0x80) == (b[0] < 0x80)
    ensures IsAscii(Step(b).1) <==> b[0] < 0x80
    ensures b[0] < 0x80 ==> Step(b) == (1, b[0] as char)
  {
  }

  /** A text that shows the ASCII characters of these bytes, and something else for other bytes. */
  predicate Shows(b: Bytes, s: string) {
    && (b == [] <==> s == "")
    && (b != [] && s != "" ==>
          && (IsAscii(s[0]) <==> b[0] < 0x80)
          && (IsAscii(s[|s| - 1]) <==> b[|b| - 1] < 0x80))
    && ('\n' in s <==> 0x0A in b)
  }

  lemma ShowsAppend(a: Bytes, x: string, b: Bytes, y: string)
    requires Shows(a, x) && Shows(b, y)
    ensures Shows(a + b, x + y)
  {
    Plus(a);
    Plus(b);
    Plus(x);
    Plus(y);
  }

  lemma StepShows(b: Bytes)
    requires b != []
    ensures Shows(b[..Step(b).0], [Step(b).1])
  {
    var n := Step(b).0;
    StepHigh(b);
    assert forall i | 0 <= i < n :: b[..n][i] == b[i];
    assert b[0] in b[..n];
  }

  lemma {:induction false} DecodeShows(b: Bytes)
    ensures Shows(b, Decode(b))
  {
    if b != [] {
      var n := Step(b).0;
      StepShows(b);
      DecodeShows(b[n..]);
      ShowsAppend(b[..n], [Step(b).1], b[n..], Decode(b[n..]));
      TakeDrop(b, n);
    }
  }

  lemma {:induction false} DecodeEachShows(chunks: seq<Bytes>)
    ensures Shows(Flatten(chunks), DecodeEach(chunks))
  {
    if chunks != [] {
      DecodeShows(chunks[0]);
      DecodeEachShows(chunks[1..]);
      ShowsAppend(chunks[0], Decode(chunks[0]), Flatten(chunks[1..]), DecodeEach(chunks[1..]));
    }
  }

  /** An ASCII byte is decoded as itself, and what surrounds it on its own. */
  lemma DecodeAround(u: Bytes, c: byte, v: Bytes)
    requires c < 0x80
    ensures Decode(u + [c] + v) == Decode(u) + [c as char] + Decode(v)
  {
    DecodeOne(c);
    Assoc(u, [c], v);
    DecodeAppend(u, [c] + v);
    DecodeAsciiThen([c], v);
    Assoc(Decode(u), [c as char], Decode(v));
  }

  lemma DecodeOne(x: byte)
    ensures Decode([x]) == [if x < 0x80 then x as char else REPLACEMENT]
  {
    var none: Bytes := [];
    assert [x][1..] == none && Decode(none) == "";
  }

  /** Any cutting of bytes around an ASCII byte can be taken apart there. */
  lemma {:induction false} CutAround(chunks: seq<Bytes>, u: Bytes, c: byte, v: Bytes)
    returns (before: seq<Bytes>, after: seq<Bytes>)
    requires Flatten(chunks) == u + [c] + v && c < 0x80
    ensures Flatten(before) == u && Flatten(after) == v
    ensures DecodeEach(chunks) == DecodeEach(before) + [c as char] + DecodeEach(after)
    decreases |chunks|
  {
    var k, rest := chunks[0], chunks[1..];
    assert k + Flatten(rest) == u + ([c] + v);
    if |k| <= |u| {
      SplitHead(k, Flatten(rest), u, [c] + v);
      Assoc(u[|k|..], [c], v);
      before, after := CutAround(rest, u[|k|..], c, v);
      FirstChunk(k, before);
      Regrouped(Decode(k), DecodeEach(before), [c as char], DecodeEach(after));
      before := [k] + before;
    } else {
      SplitHead(u, [c] + v, k, Flatten(rest));
      var t := k[|u|..];
      assert t[0] == ([c] + v)[0] == c;
      var w := t[1..];
      assert t == [c] + w && k == u + [c] + w;
      AppendTail([c] + w, Flatten(rest));
      assert v == ([c] + v)[1..] == w + Flatten(rest);
      DecodeAround(u, c, w);
      before, after := [u], [w] + rest;
      FirstChunk(u, []);
      FirstChunk(w, rest);
      Plus(u);
      Plus(Decode(u));
      Assoc(Decode(u) + [c as char], Decode(w), DecodeEach(rest));
    }
  }

  lemma FirstChunk(c: Bytes, rest: seq<Bytes>)
    ensures Flatten([c] + rest) == c + Flatten(rest)
    ensures DecodeEach([c] + rest) == Decode(c) + DecodeEach(rest)
  {
    assert ([c] + rest)[1..] == rest;
  }

  lemma StepPrefix(b: Bytes, m: nat)
    requires b != [] && Step(b).0 <= m <= |b|
    ensures m > 0 && Step(b[..m]) == Step(b)
  {
  }

  /** The first step on a shortened input that still holds all its bytes. */
  lemma StepThen(b: Bytes, t: Bytes)
    requires b != [] && t <= b[Step(b).0..]
    ensures Decode(b[..Step(b).0] + t) == [Step(b).1] + Decode(t)
  {
    var n := Step(b).0;
    var s := b[..n] + t;
    assert s == b[..n + |t|];
    StepPrefix(b, n + |t|);
    assert s[n..] == t;
  }

  /** An ASCII character stands for an ASCII byte, even among malformed ones. */
  lemma {:induction false} FindByte(b: Bytes, x: string, c: char, y: string) returns (u: Bytes, v: Bytes)
    requires Decode(b) == x + [c] + y && IsAscii(c)
    ensures b == u + [c as int] + v
    ensures Decode(u) == x && Decode(v) == y
    decreases |b|
  {
    var n := Step(b).0;
    StepHigh(b);
    if x == "" {
      assert Decode(b)[0] == c && Decode(b)[1..] == y;
      u, v := [], b[1..];
    } else {
      HeadAndTail(x, c, y);
      assert Decode(b)[0] == x[0] && Decode(b)[1..] == x[1..] + [c] + y;
      u, v := FindByte(b[n..], x[1..], c, y);
      TakeDrop(b, n);
      StepThen(b, u);
      Regrouped(b[..n], u, [c as int], v);
      u := b[..n] + u;
    }
  }

  lemma HeadAndTail(x: string, c: char, y: string)
    requires x != ""
    ensures (x + [c] + y)[0] == x[0] && (x + [c] + y)[1..] == x[1..] + [c] + y
    ensures [x[0]] + x[1..] == x
  {
  }

  lemma Regrouped<T>(a: seq<T>, x: seq<T>, c: seq<T>, y: seq<T>)
    ensures a + (x + c + y) == (a + x) + c + y
  {
  }

  /** Two texts that are readings of the same bytes, the second cut somehow. */
  ghost predicate Recut(x: string, y: string) {
    exists chunks :: Decode(Flatten(chunks)) == x && DecodeEach(chunks) == y
  }

  /** The same for well-formed bytes. */
  ghost predicate CutOf(x: string, y: string) {
    exists chunks :: Flatten(chunks) == Encode(x) && DecodeEach(chunks) == y
  }

  lemma RecutSplits(a: string, c: char, b: string, y: string) returns (y1: string, y2: string)
    requires IsAscii(c) && Recut(a + [c] + b, y)
    ensures y == y1 + [c] + y2 && Recut(a, y1) && Recut(b, y2)
  {
    var chunks :| Decode(Flatten(chunks)) == a + [c] + b && DecodeEach(chunks) == y;
    var u, v := FindByte(Flatten(chunks), a, c, b);
    var before, after := CutAround(chunks, u, c as int, v);
    y1, y2 := DecodeEach(before), DecodeEach(after);
  }

  lemma RecutEnds(x: string, y: string)
    ensures EndsAlike(Recut, x, y)
  {
    if Recut(x, y) {
      var chunks :| Decode(Flatten(chunks)) == x && DecodeEach(chunks) == y;
      DecodeShows(Flatten(chunks));
      DecodeEachShows(chunks);
    }
  }

  lemma RecutKeepsAscii()
    ensures KeepsAscii(Recut)
  {
    forall a: string, c: char, b: string, y: string | IsAscii(c)
      ensures SplitsAt(Recut, a, c, b, y)
    {
      if Recut(a + [c] + b, y) {
        var y1, y2 := RecutSplits(a, c, b, y);
      }
    }
    forall x: string, y: string
      ensures EndsAlike(Recut, x, y)
    {
      RecutEnds(x, y);
    }
  }

  lemma CutOfIsRecut(x: string, y: string)
    requires CutOf(x, y)
    ensures Recut(x, y)
  {
    var chunks :| Flatten(chunks) == Encode(x) && DecodeEach(chunks) == y;
    DecodeEncode(x);
  }

  lemma EncodeAround(a: string, c: char, b: string)
    requires IsAscii(c)
    ensures Encode(a + [c] + b) == Encode(a) + [c as int] + Encode(b)
  {
    EncodeAppend(a + [c], b);
    EncodeAppend(a, [c]);
    EncodeOne(c);
  }

  lemma EncodeOne(c: char)
    ensures Encode([c]) == EncodeChar(c)
  {
    assert [c][1..] == "";
    Plus(EncodeChar(c));
  }

  lemma CutOfSplits(a: string, c: char, b: string, y: string) returns (y1: string, y2: string)
    requires IsAscii(c) && CutOf(a + [c] + b, y)
    ensures y == y1 + [c] + y2 && CutOf(a, y1) && CutOf(b, y2)
  {
    var chunks :| Flatten(chunks) == Encode(a + [c] + b) && DecodeEach(chunks) == y;
    EncodeAround(a, c, b);
    var before, after := CutAround(chunks, Encode(a), c as int, Encode(b));
    y1, y2 := DecodeEach(before), DecodeEach(after);
  }

  lemma CutOfKeepsAscii()
    ensures KeepsAscii(CutOf)
  {
    forall a: string, c: char, b: string, y: string | IsAscii(c)
      ensures SplitsAt(CutOf, a, c, b, y)
    {
      if CutOf(a + [c] + b, y) {
        var y1, y2 := CutOfSplits(a, c, b, y);
      }
    }
    forall x: string, y: string
      ensures EndsAlike(CutOf, x, y)
    {
      if CutOf(x, y) {
        CutOfIsRecut(x, y);
        RecutEnds(x, y);
      }
    }
  }

  /** ASCII text has no other reading. */
  lemma {:induction false} AsciiStays(r: Relation, x: string, y: string)
    requires KeepsAscii(r) && r(x, y) && AsciiText(x)
    ensures x == y
  {
    assert EndsAlike(r, x, y);
    if x != "" {
      FirstAscii(r, x, y);
      AsciiStays(r, x[1..], y[1..]);
      assert x == [x[0]] + x[1..] && y == [y[0]] + y[1..];
    }
  }

  lemma AsciiAllStay(r: Relation, xs: seq<string>, ys: seq<string>)
    requires KeepsAscii(r) && Pairwise(r, xs, ys)
    requires forall i | 0 <= i < |xs| :: AsciiText(xs[i])
    ensures xs == ys
  {
    forall i | 0 <= i < |xs|
      ensures xs[i] == ys[i]
    {
      AsciiStays(r, xs[i], ys[i]);
    }
  }

  predicate AsciiPayloads(s: string) {
    forall i | 0 <= i < |Payloads(s)| :: AsciiText(Payloads(s)[i])
  }

  /** If every payload of the whole is ASCII, no cut anywhere - inside a character of a comment or of
      an event name, say - changes the events either machine reads. The bytes may be malformed. */
  lemma AsciiPayloadsSurvive<T>(parse: Parser<T>, chunks: seq<Bytes>)
    requires AsciiPayloads(Decode(Flatten(chunks)))
    ensures Events(parse, DecodeEach(chunks)) == Events(parse, Decode(Flatten(chunks)))
  {
    var x, y := Decode(Flatten(chunks)), DecodeEach(chunks);
    assert Recut(x, y);
    RecutKeepsAscii();
    PayloadsRelated(Recut, x, y);
    AsciiAllStay(Recut, Payloads(x), Payloads(y));
    ParsedPayloads(parse, Lines(x));
    ParsedPayloads(parse, Lines(y));
  }

  // ----- What the worst cut does -----

  /** Each byte decoded on its own. */
  function Bytewise(b: Bytes): string {
    if b == [] then "" else [if b[0] < 0x80 then b[0] as char else REPLACEMENT] + Bytewise(b[1..])
  }

  function Singles(b: Bytes): seq<Bytes> {
    if b == [] then [] else [[b[0]]] + Singles(b[1..])
  }

  lemma {:induction false} SinglesDecode(b: Bytes)
    ensures Flatten(Singles(b)) == b
    ensures DecodeEach(Singles(b)) == Bytewise(b)
  {
    if b != [] {
      SinglesDecode(b[1..]);
      DecodeOne(b[0]);
      FirstChunk([b[0]], Singles(b[1..]));
      assert [b[0]] + b[1..] == b;
    }
  }

  lemma {:induction false} BytewiseAppend(a: Bytes, b: Bytes)
    ensures Bytewise(a + b) == Bytewise(a) + Bytewise(b)
    ensures |Bytewise(a)| == |a|
  {
    if a == [] {
      Plus(b);
    } else {
      AppendTail(a, b);
      BytewiseAppend(a[1..], b);
    }
  }

  /** A text whose encoding was cut apart byte by byte. */
  function Shredded(s: string): string {
    Bytewise(Encode(s))
  }

  predicate ShredsTo(x: string, y: string) {
    y == Shredded(x)
  }

  lemma ShreddedAppend(a: string, b: string)
    ensures Shredded(a + b) == Shredded(a) + Shredded(b)
  {
    EncodeAppend(a, b);
    BytewiseAppend(Encode(a), Encode(b));
  }

  lemma ShreddedOne(c: char)
    ensures IsAscii(c) ==> Shredded([c]) == [c]
    ensures |Shredded([c])| >= 1 && (!IsAscii(c) ==> |Shredded([c])| > 1)
  {
    EncodeOne(c);
    BytewiseAppend(EncodeChar(c), []);
    if IsAscii(c) {
      SinglesDecode([c as int]);
      DecodeOne(c as int);
      assert Bytewise([]) == "";
    }
  }

  lemma {:induction false} ShreddedLength(s: string)
    ensures |Shredded(s)| >= |s| && (!AsciiText(s) ==> |Shredded(s)| > |s|)
  {
    if s != "" {
      var init, c := s[..|s| - 1], s[|s| - 1];
      assert s == init + [c];
      ShreddedLength(init);
      ShreddedAppend(init, [c]);
      ShreddedOne(c);
    }
  }

  lemma ShreddedIsCut(s: string)
    ensures CutOf(s, Shredded(s))
  {
    SinglesDecode(Encode(s));
  }

  lemma ShredsKeepAscii()
    ensures KeepsAscii(ShredsTo)
  {
    forall a: string, c: char, b: string, y: string | IsAscii(c)
      ensures SplitsAt(ShredsTo, a, c, b, y)
    {
      ShreddedAppend(a + [c], b);
      ShreddedAppend(a, [c]);
      ShreddedOne(c);
      assert Shredded(a + [c] + b) == Shredded(a) + [c] + Shredded(b);
      assert ShredsTo(a, Shredded(a)) && ShredsTo(b, Shredded(b));
    }
    CutOfKeepsAscii();
    forall x: string, y: string
      ensures EndsAlike(ShredsTo, x, y)
    {
      ShreddedIsCut(x);
      assert EndsAlike(CutOf, x, Shredded(x));
    }
  }

  lemma {:induction false} ShortestNonAscii(payloads: seq<string>, k: nat) returns (p: string)
    requires k < |payloads| && !AsciiText(payloads[k])
    ensures p in payloads && !AsciiText(p)
    ensures forall i | 0 <= i < |payloads| && !AsciiText(payloads[i]) :: |p| <= |payloads[i]|
    decreases |payloads[k]|
  {
    if j :| 0 <= j < |payloads| && !AsciiText(payloads[j]) && |payloads[j]| < |payloads[k]| {
      p := ShortestNonAscii(payloads, j);
    } else {
      p := payloads[k];
    }
  }

  /** The shortest non-ASCII payload is not among the shredded ones. */
  lemma NotShredded(payloads: seq<string>, shreds: seq<string>, p: string)
    requires Pairwise(ShredsTo, payloads, shreds) && !AsciiText(p)
    requires forall i | 0 <= i < |payloads| && !AsciiText(payloads[i]) :: |p| <= |payloads[i]|
    ensures p !in shreds
  {
    ShredsKeepAscii();
    forall i | 0 <= i < |shreds|
      ensures shreds[i] != p
    {
      assert ShredsTo(payloads[i], shreds[i]);
      ShreddedLength(payloads[i]);
      if AsciiText(payloads[i]) {
        AsciiStays(ShredsTo, payloads[i], shreds[i]);
      }
    }
  }
}
