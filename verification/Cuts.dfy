/** Exactly when network cuts inside characters are harmless to what the stream machines read. */
module Cuts {
  import opened Wrappers
  import opened Text
  import opened Framing
  import opened Utf8
  import opened Readings
  import opened LocalAttempt
  import Stream
  import Json

  // ----- Exactly when cuts are harmless -----

  predicate Alike(a: LocalOutcome, b: LocalOutcome) {
    (a.Escalate? <==> b.Escalate?) && (a.Error? <==> b.Error?) && (a.Release? <==> b.Release?)
  }

  /** No way of cutting the bytes of `s` changes what becomes of them, for any reader and any
      sentinel. */
  ghost predicate CutsHarmless(s: string) {
    forall parse: Stream.JsonParser, sentinel: string, stream: ByteStream
      | sentinel != "" && Flatten(stream.chunks) == Encode(s) ::
      Alike(LoopFrom(parse, sentinel, stream, 0), LoopFrom(parse, sentinel, ByteStream([Encode(s)], stream.broken), 0))
  }

  /** No way of cutting the bytes of `s` changes the events the scanner and the translator read. */
  ghost predicate EventsUnchanged(s: string) {
    forall parse: Stream.JsonParser, chunks: seq<Bytes> | Flatten(chunks) == Encode(s) ::
      Events(parse, DecodeEach(chunks)) == Events(parse, s)
  }

  /** No released body of these bytes escalates when its client reads it uncut. */
  ghost predicate NothingLeaks(s: string) {
    forall parse: Stream.JsonParser, sentinel: string, stream: ByteStream
      | sentinel != "" && Flatten(stream.chunks) == Encode(s) && LoopFrom(parse, sentinel, stream, 0).Release? ::
      !Stream.Escalates(Events(parse, s), sentinel)
  }

  /** Cuts are harmless to a text, for every reader and sentinel at once, if and only if every payload
      on a complete `data: ` line of it is ASCII: for the events both machines read, for the decision
      on them, and for the client of a released body, who reads it uncut. */
  lemma CutsHarmlessIff(s: string)
    ensures CutsHarmless(s) <==> AsciiPayloads(s)
    ensures EventsUnchanged(s) <==> AsciiPayloads(s)
    ensures NothingLeaks(s) <==> AsciiPayloads(s)
  {
    if AsciiPayloads(s) {
      forall parse: Stream.JsonParser, chunks: seq<Bytes> | Flatten(chunks) == Encode(s)
        ensures Events(parse, DecodeEach(chunks)) == Events(parse, s)
      {
        DecodeEncode(s);
        AsciiPayloadsSurvive(parse, chunks);
      }
    } else {
      var k :| 0 <= k < |Payloads(s)| && !AsciiText(Payloads(s)[k]);
      var p := ShortestNonAscii(Payloads(s), k);
      ShreddingShows(s, p);
    }
    if EventsUnchanged(s) {
      UnchangedIsHarmless(s);
    }
  }

  lemma UnchangedIsHarmless(s: string)
    requires EventsUnchanged(s)
    ensures CutsHarmless(s) && NothingLeaks(s)
  {
    forall parse: Stream.JsonParser, sentinel: string, stream: ByteStream
      | sentinel != "" && Flatten(stream.chunks) == Encode(s)
      ensures Alike(LoopFrom(parse, sentinel, stream, 0), LoopFrom(parse, sentinel, ByteStream([Encode(s)], stream.broken), 0))
    {
      SameFate(parse, sentinel, stream, s);
    }
    forall parse: Stream.JsonParser, sentinel: string, stream: ByteStream
      | sentinel != "" && Flatten(stream.chunks) == Encode(s) && LoopFrom(parse, sentinel, stream, 0).Release?
      ensures !Stream.Escalates(Events(parse, s), sentinel)
    {
      EarlyExitIsSound(parse, sentinel, stream, 0);
    }
  }

  lemma SameFate(parse: Stream.JsonParser, sentinel: string, stream: ByteStream, s: string)
    requires sentinel != "" && Events(parse, DecodeEach(stream.chunks)) == Events(parse, s)
    ensures Alike(LoopFrom(parse, sentinel, stream, 0), LoopFrom(parse, sentinel, ByteStream([Encode(s)], stream.broken), 0))
  {
    DecodeEncode(s);
    OneChunk(Encode(s));
    EarlyExitIsSound(parse, sentinel, stream, 0);
    EarlyExitIsSound(parse, sentinel, ByteStream([Encode(s)], stream.broken), 0);
  }

  /** A reader that knows only the shortest non-ASCII payload tells the whole from the shreds. */
  lemma ShreddingShows(s: string, p: string)
    requires p in Payloads(s) && !AsciiText(p)
    requires forall i | 0 <= i < |Payloads(s)| && !AsciiText(Payloads(s)[i]) :: |p| <= |Payloads(s)[i]|
    ensures !CutsHarmless(s) && !NothingLeaks(s)
  {
    var parse: Stream.JsonParser := (x: string) => if x == p then Some(TextDelta("E")) else None;
    ParsedPayloads(parse, Lines(s));
    ParsedPayloads(parse, Lines(Shredded(s)));
    ShredsKeepAscii();
    PayloadsRelated(ShredsTo, s, Shredded(s));
    NotShredded(Payloads(s), Payloads(Shredded(s)), p);
    ParseOnly(p, TextDelta("E"), Payloads(s));
    ParseOnly(p, TextDelta("E"), Payloads(Shredded(s)));
    ReadersDiffer(parse, s);
  }

  lemma ReadersDiffer(parse: Stream.JsonParser, s: string)
    requires Events(parse, s) != [] && Events(parse, s)[0] == TextDelta("E")
    requires Events(parse, Shredded(s)) == []
    ensures !CutsHarmless(s) && !NothingLeaks(s)
  {
    var shreds := ByteStream(Singles(Encode(s)), false);
    SinglesDecode(Encode(s));
    WholeEscalates(parse, s);
    NothingRead(parse, shreds);
    assert !Alike(LoopFrom(parse, "E", shreds, 0), LoopFrom(parse, "E", ByteStream([Encode(s)], shreds.broken), 0));
  }

  lemma {:induction false} ParseOnly<T>(p: string, e: T, payloads: seq<string>)
    ensures var events := ParseAll((x: string) => if x == p then Some(e) else None, payloads);
            && (p !in payloads ==> events == [])
            && (p in payloads ==> events != [] && events[0] == e)
  {
    if payloads != [] {
      ParseOnly(p, e, payloads[1..]);
    }
  }

  lemma WholeEscalates(parse: Stream.JsonParser, s: string)
    requires Events(parse, s) != [] && Events(parse, s)[0] == TextDelta("E")
    ensures LoopFrom(parse, "E", ByteStream([Encode(s)], false), 0).Escalate?
    ensures Stream.Escalates(Events(parse, s), "E")
  {
    DecodeEncode(s);
    OneChunk(Encode(s));
    EarlyExitIsSound(parse, "E", ByteStream([Encode(s)], false), 0);
    FirstEventEscalates(Events(parse, s));
  }

  lemma FirstEventEscalates(events: seq<Json.Value>)
    requires events != [] && events[0] == TextDelta("E")
    ensures Stream.Escalates(events, "E")
  {
    var head := events[..1];
    assert head == [TextDelta("E")] && head[1..] == [];
    assert Stream.TextOf(head) == "E" + "" == "E";
    assert Stream.OnlyText(head) && Stream.BeginsWithSentinel(head, "E");
  }

  lemma NothingRead(parse: Stream.JsonParser, stream: ByteStream)
    requires Events(parse, DecodeEach(stream.chunks)) == [] && !stream.broken
    ensures LoopFrom(parse, "E", stream, 0).Release?
  {
    EarlyExitIsSound(parse, "E", stream, 0);
    assert Stream.TextOf([]) == "";
  }

  /** The bytes of a released stream whose payloads are ASCII do not begin with the sentinel for their
      client, wherever the cuts fell and whether or not the rest is well-formed. */
  lemma AsciiReleasedWithoutLeak(parse: Stream.JsonParser, sentinel: string, stream: ByteStream, k: nat)
    requires sentinel != "" && AsciiPayloads(Decode(Flatten(stream.chunks)))
    requires LoopFrom(parse, sentinel, stream, 0).Release?
    ensures var events := Events(parse, Decode(Flatten(stream.chunks)));
            k <= |events| && Stream.OnlyText(events[..k]) ==> !Stream.BeginsWithSentinel(events[..k], sentinel)
  {
    AsciiPayloadsSurvive(parse, stream.chunks);
    VerbatimWithoutLeak(parse, sentinel, stream, k);
  }

  // ----- One reader -----

  /** However the bytes of a payload are cut, this reader makes the same of them. */
  ghost predicate ReadsAlike<T>(parse: Parser<T>, p: string) {
    forall q: string | CutOf(p, q) :: parse(q) == parse(p)
  }

  ghost predicate UnchangedFor<T>(parse: Parser<T>, s: string) {
    forall chunks: seq<Bytes> | Flatten(chunks) == Encode(s) ::
      Events(parse, DecodeEach(chunks)) == Events(parse, s)
  }

  /** For one given reader the condition is local: no cut of the stream changes the events if and only
      if no cut of a single payload changes what the reader makes of that payload. */
  lemma UnchangedForIff<T>(parse: Parser<T>, s: string)
    ensures UnchangedFor(parse, s) <==> forall i | 0 <= i < |Payloads(s)| :: ReadsAlike(parse, Payloads(s)[i])
  {
    if forall i | 0 <= i < |Payloads(s)| :: ReadsAlike(parse, Payloads(s)[i]) {
      forall chunks: seq<Bytes> | Flatten(chunks) == Encode(s)
        ensures Events(parse, DecodeEach(chunks)) == Events(parse, s)
      {
        AllReadAlike(parse, s, chunks);
      }
    } else {
      var i :| 0 <= i < |Payloads(s)| && !ReadsAlike(parse, Payloads(s)[i]);
      var q :| CutOf(Payloads(s)[i], q) && parse(q) != parse(Payloads(s)[i]);
      var chunks := OnePayloadCut(parse, s, i, q);
    }
  }

  lemma AllReadAlike<T>(parse: Parser<T>, s: string, chunks: seq<Bytes>)
    requires Flatten(chunks) == Encode(s)
    requires forall i | 0 <= i < |Payloads(s)| :: ReadsAlike(parse, Payloads(s)[i])
    ensures Events(parse, DecodeEach(chunks)) == Events(parse, s)
  {
    var y := DecodeEach(chunks);
    assert CutOf(s, y);
    CutOfKeepsAscii();
    PayloadsRelated(CutOf, s, y);
    ParsedPayloads(parse, Lines(s));
    ParsedPayloads(parse, Lines(y));
    forall i | 0 <= i < |Payloads(s)|
      ensures parse(Payloads(s)[i]) == parse(Payloads(y)[i])
    {
      assert CutOf(Payloads(s)[i], Payloads(y)[i]) && ReadsAlike(parse, Payloads(s)[i]);
    }
    ParseAllSame(parse, Payloads(s), Payloads(y));
  }

  lemma {:induction false} ParseAllSame<T>(parse: Parser<T>, xs: seq<string>, ys: seq<string>)
    requires |xs| == |ys| && forall i | 0 <= i < |xs| :: parse(xs[i]) == parse(ys[i])
    ensures ParseAll(parse, xs) == ParseAll(parse, ys)
  {
    if xs != [] {
      ParseAllSame(parse, xs[1..], ys[1..]);
    }
  }

  lemma {:induction false} ParseAllDiffers<T>(parse: Parser<T>, xs: seq<string>, i: nat, q: string)
    requires i < |xs| && parse(q) != parse(xs[i])
    ensures ParseAll(parse, xs[i := q]) != ParseAll(parse, xs)
  {
    var ys := xs[i := q];
    if i == 0 {
      assert ys[1..] == xs[1..];
      HeadsDiffer(parse(q), parse(xs[0]), ParseAll(parse, xs[1..]));
    } else {
      assert ys[1..] == xs[1..][i - 1 := q];
      ParseAllDiffers(parse, xs[1..], i - 1, q);
      SameHead(parse(xs[0]), ParseAll(parse, ys[1..]), ParseAll(parse, xs[1..]));
    }
  }

  function Listed<T>(o: Option<T>): seq<T> {
    match o case Some(e) => [e] case None => []
  }

  lemma HeadsDiffer<T>(a: Option<T>, b: Option<T>, rest: seq<T>)
    requires a != b
    ensures Listed(a) + rest != Listed(b) + rest
  {
    var x, y := Listed(a) + rest, Listed(b) + rest;
    if a.Some? && b.Some? {
      assert x[0] != y[0];
    } else {
      assert |x| != |y|;
    }
  }

  lemma SameHead<T>(o: Option<T>, x: seq<T>, y: seq<T>)
    requires x != y
    ensures Listed(o) + x != Listed(o) + y
  {
    var n := |Listed(o)|;
    assert (Listed(o) + x)[n..] == x && (Listed(o) + y)[n..] == y;
  }

  /** A text that can stand in for a payload: it stays on its line and is not trimmed. */
  predicate StandsIn(q: string) {
    '\n' !in q && TrimEol(q) == q
  }

  lemma PayloadsFirst(a: string, t: string)
    requires '\n' !in a
    ensures Payloads(a + ['\n'] + t) == Listed(EventOf(Same, a + ['\n'])) + Payloads(t)
  {
    FirstLine(a, t);
    assert ([a + ['\n']] + Lines(t))[1..] == Lines(t);
    Plus(Payloads(t));
  }

  lemma {:induction false} TrimEolSplit(a: string) returns (eols: string)
    ensures a == TrimEol(a) + eols && forall c | c in eols :: c == '\r' || c == '\n'
  {
    if a != "" && (a[|a| - 1] == '\r' || a[|a| - 1] == '\n') {
      eols := TrimEolSplit(a[..|a| - 1]);
      Assoc(TrimEol(a), eols, [a[|a| - 1]]);
      eols := eols + [a[|a| - 1]];
    } else {
      eols := "";
    }
  }

  lemma {:induction false} TrimEolDrops(x: string, eols: string)
    requires forall c | c in eols :: c == '\r' || c == '\n'
    ensures TrimEol(x + eols) == TrimEol(x)
    decreases |eols|
  {
    if eols == "" {
      Plus(x);
    } else {
      var init, last := eols[..|eols| - 1], eols[|eols| - 1];
      assert last in eols && (x + eols)[..|x + eols| - 1] == x + init;
      assert forall c | c in init :: c in eols;
      TrimEolDrops(x, init);
    }
  }

  lemma {:induction false} TrimEolTwice(x: string)
    ensures TrimEol(TrimEol(x)) == TrimEol(x)
  {
    if x != "" && (x[|x| - 1] == '\r' || x[|x| - 1] == '\n') {
      TrimEolTwice(x[..|x| - 1]);
    }
  }

  /** The line `data: q` with these line ends carries `q`. */
  lemma DataLineCarries(q: string, eols: string)
    requires StandsIn(q) && forall c | c in eols :: c == '\r' || c == '\n'
    ensures EventOf(Same, DATA_PREFIX + q + eols + ['\n']) == Some(q)
  {
    var line := DATA_PREFIX + q;
    TrimNewline(line + eols);
    TrimEolDrops(line, eols);
    if q == "" {
      Plus(DATA_PREFIX);
      assert TrimEol(DATA_PREFIX) == DATA_PREFIX;
    } else {
      assert line[|line| - 1] == q[|q| - 1];
      TrimEolShorter(q);
    }
    assert DATA_PREFIX <= line && line[|DATA_PREFIX|..] == q;
  }

  lemma TrimEolShorter(q: string)
    requires q != "" && TrimEol(q) == q
    ensures q[|q| - 1] != '\r' && q[|q| - 1] != '\n'
  {
    TrimEolPrefix(q[..|q| - 1]);
  }

  /** A line that carries a payload is the prefix, the payload and the line ends. */
  lemma CarriedShape(a: string, p: string) returns (eols: string)
    requires '\n' !in a && EventOf(Same, a + ['\n']) == Some(p)
    ensures a == DATA_PREFIX + p + eols && '\n' !in eols && forall c | c in eols :: c == '\r' || c == '\n'
    ensures StandsIn(p)
  {
    eols := TrimEolSplit(a);
    TrimNewline(a);
    var l := TrimEol(a);
    assert l == DATA_PREFIX + p;
    assert forall c | c in p :: c in l && c in a;
    assert forall c | c in eols :: c in a;
    TrimEolTwice(a);
    TrimEolTail(p);
  }

  lemma TrimEolTail(p: string)
    requires TrimEol(DATA_PREFIX + p) == DATA_PREFIX + p
    ensures TrimEol(p) == p
  {
    if p != "" {
      TrimEolShorter(DATA_PREFIX + p);
      assert (DATA_PREFIX + p)[|DATA_PREFIX + p| - 1] == p[|p| - 1];
    }
  }

  /** Any payload can be exchanged without touching the others. */
  lemma {:induction false} PayloadAt(s: string, i: nat, q: string) returns (before: string, after: string)
    requires i < |Payloads(s)| && StandsIn(q)
    ensures s == before + Payloads(s)[i] + after && StandsIn(Payloads(s)[i])
    ensures Payloads(before + q + after) == Payloads(s)[i := q]
    decreases |s|
  {
    var a, t := FirstLineOf(s);
    var here := Listed(EventOf(Same, a + ['\n']));
    PayloadsFirst(a, t);
    if i < |here| {
      before, after := PayloadHere(a, t, here[0], q);
    } else {
      before, after := PayloadAt(t, i - |here|, q);
      PayloadLater(a, t, before, after, i - |here|, q);
      before := a + ['\n'] + before;
    }
  }

  lemma FirstLineOf(s: string) returns (a: string, t: string)
    requires Payloads(s) != []
    ensures s == a + ['\n'] + t && '\n' !in a
  {
    if '\n' !in s {
      NoLines(s);
    }
    a, t := SplitLine(s);
  }

  lemma PayloadLater(a: string, t: string, before: string, after: string, j: nat, q: string)
    requires '\n' !in a && j < |Payloads(t)|
    requires t == before + Payloads(t)[j] + after
    requires Payloads(before + q + after) == Payloads(t)[j := q]
    ensures var s, i := a + ['\n'] + t, |Listed(EventOf(Same, a + ['\n']))| + j;
            && i < |Payloads(s)| && Payloads(s)[i] == Payloads(t)[j]
            && s == a + ['\n'] + before + Payloads(s)[i] + after
            && Payloads(a + ['\n'] + before + q + after) == Payloads(s)[i := q]
  {
    PayloadsFirst(a, t);
    PayloadsFirst(a, before + q + after);
    Exchanged(Listed(EventOf(Same, a + ['\n'])), Payloads(t), j, q);
    FourParts(a + ['\n'], before, q, after);
    FourParts(a + ['\n'], before, Payloads(t)[j], after);
  }

  lemma FourParts(a: string, b: string, c: string, d: string)
    ensures a + (b + c + d) == a + b + c + d
  {
  }

  lemma Exchanged<T>(head: seq<T>, rest: seq<T>, j: nat, q: T)
    requires j < |rest|
    ensures (head + rest)[|head| + j] == rest[j]
    ensures (head + rest)[|head| + j := q] == head + rest[j := q]
  {
  }

  lemma PayloadHere(a: string, t: string, p: string, q: string) returns (before: string, after: string)
    requires '\n' !in a && EventOf(Same, a + ['\n']) == Some(p) && StandsIn(q)
    ensures a + ['\n'] + t == before + p + after && StandsIn(p)
    ensures Payloads(a + ['\n'] + t) == [p] + Payloads(t)
    ensures Payloads(before + q + after) == Payloads(a + ['\n'] + t)[0 := q]
  {
    var eols := CarriedShape(a, p);
    before, after := DATA_PREFIX, eols + ['\n'] + t;
    LineOf(p, eols, t);
    LineOf(q, eols, t);
    PayloadsFirst(a, t);
    PayloadOfLine(q, eols, t);
    assert ([p] + Payloads(t))[0 := q] == [q] + Payloads(t);
  }

  lemma PayloadOfLine(q: string, eols: string, t: string)
    requires StandsIn(q) && '\n' !in eols && forall c | c in eols :: c == '\r' || c == '\n'
    ensures Payloads(DATA_PREFIX + q + eols + ['\n'] + t) == [q] + Payloads(t)
  {
    DataLineCarries(q, eols);
    assert '\n' !in DATA_PREFIX;
    PayloadsFirst(DATA_PREFIX + q + eols, t);
  }

  lemma LineOf(p: string, eols: string, t: string)
    ensures DATA_PREFIX + p + (eols + ['\n'] + t) == DATA_PREFIX + p + eols + ['\n'] + t
  {
  }

  /** Cutting one payload only, so that the reader tells the difference. */
  lemma OnePayloadCut<T>(parse: Parser<T>, s: string, i: nat, q: string) returns (chunks: seq<Bytes>)
    requires i < |Payloads(s)| && CutOf(Payloads(s)[i], q) && parse(q) != parse(Payloads(s)[i])
    ensures Flatten(chunks) == Encode(s)
    ensures Events(parse, DecodeEach(chunks)) != Events(parse, s)
  {
    var p := Payloads(s)[i];
    var b0, a0 := PayloadAt(s, i, "");
    StandsInToo(p, q);
    var before, after := PayloadAt(s, i, q);
    var cuts :| Flatten(cuts) == Encode(p) && DecodeEach(cuts) == q;
    chunks := CutInside(before, cuts, after, p);
    ParseAllDiffers(parse, Payloads(s), i, q);
    ParsedPayloads(parse, Lines(s));
    ParsedPayloads(parse, Lines(before + q + after));
  }

  lemma StandsInToo(p: string, q: string)
    requires StandsIn(p) && CutOf(p, q)
    ensures StandsIn(q)
  {
    CutOfKeepsAscii();
    assert EndsAlike(CutOf, p, q);
    if q != "" {
      TrimEolShorter(p);
      if IsAscii(p[|p| - 1]) {
        LastAscii(CutOf, p, q);
      }
    }
  }

  lemma CutInside(before: string, cuts: seq<Bytes>, after: string, p: string) returns (chunks: seq<Bytes>)
    requires Flatten(cuts) == Encode(p)
    ensures Flatten(chunks) == Encode(before + p + after)
    ensures DecodeEach(chunks) == before + DecodeEach(cuts) + after
  {
    chunks := [Encode(before)] + (cuts + [Encode(after)]);
    EncodeAppend(before + p, after);
    EncodeAppend(before, p);
    FirstChunk(Encode(before), cuts + [Encode(after)]);
    FlattenAppend(cuts, [Encode(after)]);
    DecodeEachAppend(cuts, [Encode(after)]);
    FirstChunk(Encode(after), []);
    DecodeEncode(before);
    DecodeEncode(after);
    Plus(after);
    Plus(Encode(after));
    Plus([Encode(after)]);
    Assoc(Encode(before), Encode(p), Encode(after));
    Assoc(before, DecodeEach(cuts), after);
  }
}
