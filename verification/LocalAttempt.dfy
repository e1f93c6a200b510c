/** The local-tier attempt: reading the verdict off the reply while holding it back
    (src/proxy.rs, local_attempt). */
module LocalAttempt {
  import opened Wrappers
  import opened Text
  import opened Framing
  import opened Stream
  import Utf8
  import Json

  /** A response body as the network delivers it: chunks, then the end or a transport error. */
  datatype ByteStream = ByteStream(chunks: seq<Utf8.Bytes>, broken: bool)

  /** What became of the request to the local tier. The configuration may lack the provider or
      its key, in which case nothing is sent. */
  datatype Reply =
    | NotConfigured
    | Unreachable
    | ErrorStatus(body: Utf8.Bytes)
    | EventStream(stream: ByteStream)
    | Buffered(bytes: Utf8.Bytes, broken: bool)

  datatype LocalOutcome =
    | Release(body: ByteStream)
    | Escalate
    | Failed(error: Utf8.Bytes)
    | Error

  type BodyParser = Utf8.Bytes -> Option<Json.Value>

  /** The scanner's verdict after the first `k` chunks. */
  function VerdictAfter(parse: JsonParser, sentinel: string, chunks: seq<Utf8.Bytes>): Verdict {
    VerdictOf(ScanAll(START, Events(parse, Utf8.DecodeEach(chunks)), sentinel), sentinel)
  }

  /** What the chunk loop does from chunk `k` on: stop at the first verdict. */
  function LoopFrom(parse: JsonParser, sentinel: string, stream: ByteStream, k: nat): LocalOutcome
    requires k <= |stream.chunks|
    decreases |stream.chunks| - k
  {
    if k == |stream.chunks| then
      if stream.broken then Error else Release(stream)
    else
      match VerdictAfter(parse, sentinel, stream.chunks[..k + 1])
      case Sentinel => Escalate
      case Clean => Release(stream)
      case Undetermined => LoopFrom(parse, sentinel, stream, k + 1)
  }

  /** The outcome as a property of the whole event list. A transport error counts only while
      the verdict is open: after release it is the client's to see. */
  function StreamOutcome(events: seq<Json.Value>, sentinel: string, stream: ByteStream): LocalOutcome {
    if Escalates(events, sentinel) then Escalate
    else if StillOpen(events, sentinel) && stream.broken then Error
    else Release(stream)
  }

  method ScanStream(parse: JsonParser, sentinel: string, stream: ByteStream) returns (outcome: LocalOutcome)
    ensures outcome == LoopFrom(parse, sentinel, stream, 0)
    ensures outcome.Release? ==> outcome.body == stream
    ensures sentinel != "" ==>
              outcome == StreamOutcome(Events(parse, Utf8.DecodeEach(stream.chunks)), sentinel, stream)
  {
    assert sentinel != "" ==>
        LoopFrom(parse, sentinel, stream, 0)
        == StreamOutcome(Events(parse, Utf8.DecodeEach(stream.chunks)), sentinel, stream) by {
      if sentinel != "" {
        EarlyExitIsSound(parse, sentinel, stream, 0);
      }
    }
    var chunks := stream.chunks;
    var scanner := new SseTextScanner(sentinel, parse);
    var i := 0;
    while i < |chunks|
      invariant 0 <= i <= |chunks|
      invariant scanner.Valid() && scanner.sentinel == sentinel && scanner.parse == parse
      invariant scanner.raw == chunks[..i]
      invariant LoopFrom(parse, sentinel, stream, 0) == LoopFrom(parse, sentinel, stream, i)
    {
      LoopStep(parse, sentinel, stream, i);
      TakeNext(chunks, i);
      var verdict := Feed(scanner, chunks[i]);
      i := i + 1;
      match verdict {
        case Sentinel =>
          return Escalate;
        case Clean =>
          var head := scanner.IntoBuffered();
          return Release(ByteStream(head + chunks[i..], stream.broken));
        case Undetermined =>
      }
    }
    TakeDrop(chunks, i);
    if stream.broken {
      return Error;
    }
    var all := scanner.IntoBuffered();
    return Release(ByteStream(all, false));
  }

  lemma LoopStep(parse: JsonParser, sentinel: string, stream: ByteStream, k: nat)
    requires k < |stream.chunks|
    ensures LoopFrom(parse, sentinel, stream, k)
         == match VerdictAfter(parse, sentinel, stream.chunks[..k + 1])
            case Sentinel => Escalate
            case Clean => Release(stream)
            case Undetermined => LoopFrom(parse, sentinel, stream, k + 1)
  {
  }

  /** One turn of the loop: the verdict is a function of what has been buffered. */
  method Feed(scanner: SseTextScanner, chunk: Utf8.Bytes) returns (verdict: Verdict)
    requires scanner.Valid()
    modifies scanner
    ensures scanner.Valid() && scanner.raw == old(scanner.raw) + [chunk]
    ensures verdict == VerdictAfter(scanner.parse, scanner.sentinel, scanner.raw)
  {
    verdict := scanner.Push(chunk);
  }

  /** Stopping at the first verdict gives the decision on the whole stream. */
  lemma {:induction false} EarlyExitIsSound(parse: JsonParser, sentinel: string, stream: ByteStream, k: nat)
    requires sentinel != "" && k <= |stream.chunks|
    requires k > 0 ==> VerdictAfter(parse, sentinel, stream.chunks[..k]) == Undetermined
    ensures LoopFrom(parse, sentinel, stream, k)
         == StreamOutcome(Events(parse, Utf8.DecodeEach(stream.chunks)), sentinel, stream)
    decreases |stream.chunks| - k
  {
    var chunks := stream.chunks;
    if k == |chunks| {
      TakeDrop(chunks, k);
      OpenAtEnd(parse, sentinel, chunks);
    } else {
      LoopStep(parse, sentinel, stream, k);
      if VerdictAfter(parse, sentinel, chunks[..k + 1]) == Undetermined {
        EarlyExitIsSound(parse, sentinel, stream, k + 1);
      } else {
        DecidedForGood(parse, sentinel, chunks, k + 1);
      }
    }
  }

  lemma OpenAtEnd(parse: JsonParser, sentinel: string, chunks: seq<Utf8.Bytes>)
    requires sentinel != ""
    requires chunks != [] ==> VerdictAfter(parse, sentinel, chunks) == Undetermined
    ensures Decision(Events(parse, Utf8.DecodeEach(chunks)), sentinel) == Undetermined
  {
    VerdictMeaning(Events(parse, Utf8.DecodeEach(chunks)), sentinel);
    if chunks == [] {
      assert Events(parse, "") == [] && Decision([], sentinel) == Undetermined;
    }
  }

  /** A verdict reached on the first chunks is the decision on all of them. */
  lemma DecidedForGood(parse: JsonParser, sentinel: string, chunks: seq<Utf8.Bytes>, k: nat)
    requires sentinel != "" && k <= |chunks|
    requires VerdictAfter(parse, sentinel, chunks[..k]) != Undetermined
    ensures Decision(Events(parse, Utf8.DecodeEach(chunks)), sentinel) == VerdictAfter(parse, sentinel, chunks[..k])
  {
    var seen, later := Utf8.DecodeEach(chunks[..k]), Utf8.DecodeEach(chunks[k..]);
    VerdictMeaning(Events(parse, seen), sentinel);
    TakeDrop(chunks, k);
    Utf8.DecodeEachAppend(chunks[..k], chunks[k..]);
    EventsAppend(parse, seen, later);
    DecisionFinal(Events(parse, seen), Events(parse, Rest(seen) + later), sentinel);
  }

  /** The network's cuts do not matter, as long as none falls inside a character: the outcome is
      fixed by the bytes alone, and a released body carries exactly those bytes. */
  lemma ChunkingIndependence(parse: JsonParser, sentinel: string, stream: ByteStream)
    requires sentinel != ""
    requires Utf8.CutsBetweenCharacters(stream.chunks)
    ensures LoopFrom(parse, sentinel, stream, 0)
         == StreamOutcome(Events(parse, Utf8.Decode(Utf8.Flatten(stream.chunks))), sentinel, stream)
  {
    EarlyExitIsSound(parse, sentinel, stream, 0);
    Utf8.DecodeEachIsDecode(stream.chunks);
  }

  /** A released stream is the upstream's, chunk for chunk, and what the scanner read of it, chunk by
      chunk, never begins with the sentinel at any point before a non-text block. */
  lemma VerbatimWithoutLeak(parse: JsonParser, sentinel: string, stream: ByteStream, k: nat)
    requires sentinel != ""
    requires LoopFrom(parse, sentinel, stream, 0).Release?
    ensures LoopFrom(parse, sentinel, stream, 0).body == stream
    ensures var events := Events(parse, Utf8.DecodeEach(stream.chunks));
            k <= |events| && OnlyText(events[..k]) ==> !BeginsWithSentinel(events[..k], sentinel)
  {
    EarlyExitIsSound(parse, sentinel, stream, 0);
  }

  /** What the client reads is the bytes as a whole. If no cut fell inside a character, that does not
      begin with the sentinel either. */
  lemma ReleasedWithoutLeak(parse: JsonParser, sentinel: string, stream: ByteStream, k: nat)
    requires sentinel != ""
    requires Utf8.CutsBetweenCharacters(stream.chunks)
    requires LoopFrom(parse, sentinel, stream, 0).Release?
    ensures var events := Events(parse, Utf8.Decode(Utf8.Flatten(stream.chunks)));
            k <= |events| && OnlyText(events[..k]) ==> !BeginsWithSentinel(events[..k], sentinel)
  {
    ChunkingIndependence(parse, sentinel, stream);
  }

  /** Two deliveries of the same bytes are treated alike. */
  lemma SameBytesSameOutcome(parse: JsonParser, sentinel: string, a: ByteStream, b: ByteStream)
    requires sentinel != ""
    requires Utf8.CutsBetweenCharacters(a.chunks) && Utf8.CutsBetweenCharacters(b.chunks)
    requires Utf8.Flatten(a.chunks) == Utf8.Flatten(b.chunks) && a.broken == b.broken
    ensures var oa := LoopFrom(parse, sentinel, a, 0);
            var ob := LoopFrom(parse, sentinel, b, 0);
            && (oa.Escalate? <==> ob.Escalate?) && (oa.Error? <==> ob.Error?)
            && (oa.Release? ==> ob.Release? && Utf8.Flatten(oa.body.chunks) == Utf8.Flatten(ob.body.chunks))
  {
    ChunkingIndependence(parse, sentinel, a);
    ChunkingIndependence(parse, sentinel, b);
  }

  /** Cuts anywhere, even inside characters: if the bytes that settle the verdict are ASCII,
      everything after them is irrelevant to it. */
  lemma AsciiHeadSettles(parse: JsonParser, sentinel: string, stream: ByteStream, head: Utf8.Bytes, tail: Utf8.Bytes)
    requires sentinel != ""
    requires Utf8.Flatten(stream.chunks) == head + tail && Utf8.Ascii(head)
    requires Decision(Events(parse, Utf8.Decode(head)), sentinel) != Undetermined
    ensures LoopFrom(parse, sentinel, stream, 0)
         == if Decision(Events(parse, Utf8.Decode(head)), sentinel) == Sentinel then Escalate else Release(stream)
  {
    EarlyExitIsSound(parse, sentinel, stream, 0);
    var more := Utf8.DecodeEachAsciiHead(stream.chunks, head, tail);
    var seen := Utf8.Decode(head);
    EventsAppend(parse, seen, more);
    DecisionFinal(Events(parse, seen), Events(parse, Rest(seen) + more), sentinel);
  }

  // ----- Where independence ends -----

  function TextDelta(t: string): Json.Value {
    Json.Obj(map["type" := Json.Str("content_block_delta"), "delta" := Json.Obj(map["text" := Json.Str(t)])])
  }

  function ToolUseStart(): Json.Value {
    Json.Obj(map["type" := Json.Str("content_block_start"),
                 "content_block" := Json.Obj(map["type" := Json.Str("tool_use")])])
  }

  lemma OneChunk(chunk: Utf8.Bytes)
    ensures Utf8.DecodeEach([chunk]) == Utf8.Decode(chunk)
  {
    var rest: seq<Utf8.Bytes> := [];
    assert [chunk][1..] == rest;
  }

  lemma OneEvent(e: Json.Value, sentinel: string)
    requires sentinel != "" && !IsNonTextStart(e)
    ensures Decision([e], sentinel) == CheckSentinel(EventText(e), sentinel)
  {
    VerdictMeaning([e], sentinel);
    assert [e][1..] == [] && "" + EventText(e) == EventText(e);
  }

  lemma OneLineOutcome(parse: JsonParser, sentinel: string, chunks: seq<Utf8.Bytes>, payload: string, e: Json.Value)
    requires sentinel != "" && parse(payload) == Some(e) && !IsNonTextStart(e)
    requires '\n' !in payload && '\r' !in payload
    requires Utf8.DecodeEach(chunks) == DATA_PREFIX + payload + "\n"
    ensures LoopFrom(parse, sentinel, ByteStream(chunks, false), 0)
         == if CheckSentinel(EventText(e), sentinel) == Sentinel then Escalate else Release(ByteStream(chunks, false))
  {
    DataLine(parse, payload);
    OneEvent(e, sentinel);
    EarlyExitIsSound(parse, sentinel, ByteStream(chunks, false), 0);
  }

  const WIDE_SPACE := "\U{3000}"
  const DAMAGE := "\U{FFFD}\U{FFFD}\U{FFFD}"

  lemma {:induction false} WideSpaceEncodes(before: string, after: string)
    ensures Utf8.Encode(before + WIDE_SPACE + after)
         == (Utf8.Encode(before) + [0xE3]) + ([0x80, 0x80] + Utf8.Encode(after))
  {
    Utf8.EncodeAppend(before + WIDE_SPACE, after);
    Utf8.EncodeAppend(before, WIDE_SPACE);
    WideSpaceBytes();
    Regroup(Utf8.Encode(before), [0xE3], [0x80, 0x80], Utf8.Encode(after));
  }

  lemma WideSpaceBytes()
    ensures Utf8.Encode(WIDE_SPACE) == [0xE3] + [0x80, 0x80]
  {
    assert WIDE_SPACE[1..] == "" && Utf8.EncodeChar('\U{3000}') == [0xE3, 0x80, 0x80];
    Plus(Utf8.EncodeChar('\U{3000}'));
  }

  lemma Regroup<T>(a: seq<T>, x: seq<T>, y: seq<T>, b: seq<T>)
    ensures (a + (x + y)) + b == (a + x) + (y + b)
  {
    Assoc(a, x, y);
    Assoc(a + x, y, b);
  }

  lemma {:induction false} WideSpaceSplit(before: string, after: string)
    ensures Utf8.DecodeEach([Utf8.Encode(before) + [0xE3], [0x80, 0x80] + Utf8.Encode(after)])
         == before + DAMAGE + after
  {
    var head, tail := Utf8.Encode(before) + [0xE3], [0x80, 0x80] + Utf8.Encode(after);
    Utf8.DecodeEncode(before);
    Utf8.DecodeAppend(Utf8.Encode(before), [0xE3]);
    StrayByte([]);
    StrayBytes(after);
    OneChunk(tail);
    assert [head, tail][1..] == [tail];
  }

  lemma StrayBytes(after: string)
    ensures Utf8.Decode([0x80, 0x80] + Utf8.Encode(after)) == "\U{FFFD}\U{FFFD}" + after
  {
    Utf8.DecodeEncode(after);
    StrayByte(Utf8.Encode(after));
    StrayByte([0x80] + Utf8.Encode(after));
    assert [0x80, 0x80] + Utf8.Encode(after) == [0x80] + ([0x80] + Utf8.Encode(after));
  }

  lemma StrayByte(b: Utf8.Bytes)
    ensures Utf8.Decode([0x80] + b) == "\U{FFFD}" + Utf8.Decode(b)
    ensures Utf8.Decode([0xE3]) == "\U{FFFD}"
  {
    assert ([0x80] + b)[1..] == b;
    assert [0xE3][1..] == [];
  }

  /** A cut inside a multi-byte white-space character in front of the sentinel hides it, although the
      comment on the scanner says such cuts cannot affect detection. `pre` and `post` are the JSON
      around the space, for instance the head of a text delta and `sentinel` with the closing braces. */
  lemma {:induction false} SplitSpaceHidesSentinel(parse: JsonParser, sentinel: string, pre: string, post: string, rest: string,
                                intact: Json.Value, damaged: Json.Value)
    requires sentinel != "" && !IsWhitespace(sentinel[0]) && sentinel[0] != Utf8.REPLACEMENT
    requires '\n' !in pre && '\r' !in pre && '\n' !in post && '\r' !in post
    requires parse(pre + WIDE_SPACE + post) == Some(intact) && parse(pre + DAMAGE + post) == Some(damaged)
    requires !IsNonTextStart(intact) && EventText(intact) == WIDE_SPACE + sentinel + rest
    requires !IsNonTextStart(damaged) && EventText(damaged) == DAMAGE + sentinel + rest
    ensures var head := Utf8.Encode(DATA_PREFIX + pre) + [0xE3];
            var tail := [0x80, 0x80] + Utf8.Encode(post + "\n");
            && head + tail == Utf8.Encode(DATA_PREFIX + pre + WIDE_SPACE + (post + "\n"))
            && LoopFrom(parse, sentinel, ByteStream([head + tail], false), 0).Escalate?
            && LoopFrom(parse, sentinel, ByteStream([head, tail], false), 0).Release?
  {
    var head := Utf8.Encode(DATA_PREFIX + pre) + [0xE3];
    var tail := [0x80, 0x80] + Utf8.Encode(post + "\n");
    var text := DATA_PREFIX + pre + WIDE_SPACE + (post + "\n");
    WideSpaceEncodes(DATA_PREFIX + pre, post + "\n");
    WideSpaceSplit(DATA_PREFIX + pre, post + "\n");
    Utf8.DecodeEncode(text);
    OneChunk(head + tail);
    LineShape(pre, WIDE_SPACE, post);
    LineShape(pre, DAMAGE, post);
    SpacesAndReplacements(sentinel, rest);
    OneLineOutcome(parse, sentinel, [head + tail], pre + WIDE_SPACE + post, intact);
    OneLineOutcome(parse, sentinel, [head, tail], pre + DAMAGE + post, damaged);
  }

  /** The client of the stream released by that cut reads a reply that begins with the sentinel. */
  lemma SplitSpaceLeaks(parse: JsonParser, sentinel: string, pre: string, post: string, rest: string,
                        intact: Json.Value, damaged: Json.Value) returns (stream: ByteStream)
    requires sentinel != "" && !IsWhitespace(sentinel[0]) && sentinel[0] != Utf8.REPLACEMENT
    requires '\n' !in pre && '\r' !in pre && '\n' !in post && '\r' !in post
    requires parse(pre + WIDE_SPACE + post) == Some(intact) && parse(pre + DAMAGE + post) == Some(damaged)
    requires !IsNonTextStart(intact) && EventText(intact) == WIDE_SPACE + sentinel + rest
    requires !IsNonTextStart(damaged) && EventText(damaged) == DAMAGE + sentinel + rest
    ensures LoopFrom(parse, sentinel, stream, 0).Release?
    ensures Escalates(Events(parse, Utf8.Decode(Utf8.Flatten(stream.chunks))), sentinel)
  {
    var head := Utf8.Encode(DATA_PREFIX + pre) + [0xE3];
    var tail := [0x80, 0x80] + Utf8.Encode(post + "\n");
    SplitSpaceHidesSentinel(parse, sentinel, pre, post, rest, intact, damaged);
    stream := ByteStream([head, tail], false);
    OneChunk(head + tail);
    EarlyExitIsSound(parse, sentinel, ByteStream([head + tail], false), 0);
    TwoChunks(head, tail);
  }

  lemma TwoChunks(head: Utf8.Bytes, tail: Utf8.Bytes)
    ensures Utf8.Flatten([head, tail]) == head + tail
  {
    var none: seq<Utf8.Bytes> := [];
    assert [head, tail][1..] == [tail] && [tail][1..] == none;
    assert Utf8.Flatten([tail]) == tail + [] == tail;
  }

  lemma LineShape(pre: string, mid: string, post: string)
    ensures DATA_PREFIX + pre + mid + (post + "\n") == DATA_PREFIX + (pre + mid + post) + "\n"
  {
  }

  lemma SpacesAndReplacements(sentinel: string, rest: string)
    requires sentinel != "" && !IsWhitespace(sentinel[0]) && sentinel[0] != Utf8.REPLACEMENT
    ensures CheckSentinel(WIDE_SPACE + sentinel + rest, sentinel) == Sentinel
    ensures CheckSentinel(DAMAGE + sentinel + rest, sentinel) == Clean
  {
    assert WIDE_SPACE + sentinel + rest == WIDE_SPACE + (sentinel + rest);
    TrimStartAppend(WIDE_SPACE, sentinel + rest);
    assert TrimStart(WIDE_SPACE) == "" by {
      assert WIDE_SPACE[1..] == "";
    }
    var damaged := DAMAGE + sentinel + rest;
    assert damaged[0] == Utf8.REPLACEMENT && TrimStart(damaged) == damaged;
  }

  /** With an empty sentinel even an empty first chunk changes the outcome. */
  lemma EmptySentinelDependsOnCuts(parse: JsonParser, data: string)
    requires '\n' !in data && '\r' !in data
    requires parse(data).Some? && IsNonTextStart(parse(data).value)
    ensures var line := Utf8.Encode(DATA_PREFIX + data + "\n");
            && LoopFrom(parse, "", ByteStream([line], false), 0).Release?
            && LoopFrom(parse, "", ByteStream([[], line], false), 0).Escalate?
  {
    var line := Utf8.Encode(DATA_PREFIX + data + "\n");
    Utf8.DecodeEncode(DATA_PREFIX + data + "\n");
    DataLine(parse, data);
    OneChunk(line);
    OneChunk([]);
    NonTextIsClean(parse(data).value);
    FirstChunkDecides(parse, "", ByteStream([line], false), line);
    FirstChunkDecides(parse, "", ByteStream([[], line], false), []);
  }

  /** Whether the same bytes, cut between characters, always lead to the same decision. */
  ghost predicate CutsImmaterial(sentinel: string) {
    forall parse: JsonParser, a: ByteStream, b: ByteStream
      | Utf8.CutsBetweenCharacters(a.chunks) && Utf8.CutsBetweenCharacters(b.chunks)
        && Utf8.Flatten(a.chunks) == Utf8.Flatten(b.chunks) && a.broken == b.broken ::
      LoopFrom(parse, sentinel, a, 0).Escalate? <==> LoopFrom(parse, sentinel, b, 0).Escalate?
  }

  /** Independence of the cuts holds for exactly the non-empty sentinels. */
  lemma CutsImmaterialIff(sentinel: string)
    ensures CutsImmaterial(sentinel) <==> sentinel != ""
  {
    if sentinel != "" {
      forall parse: JsonParser, a: ByteStream, b: ByteStream
        | Utf8.CutsBetweenCharacters(a.chunks) && Utf8.CutsBetweenCharacters(b.chunks)
          && Utf8.Flatten(a.chunks) == Utf8.Flatten(b.chunks) && a.broken == b.broken
        ensures LoopFrom(parse, sentinel, a, 0).Escalate? <==> LoopFrom(parse, sentinel, b, 0).Escalate?
      {
        SameBytesSameOutcome(parse, sentinel, a, b);
      }
    } else {
      EmptySentinelCut();
    }
  }

  lemma EmptySentinelCut()
    ensures !CutsImmaterial("")
  {
    var parse: JsonParser := (s: string) => Some(ToolUseStart());
    EmptySentinelDependsOnCuts(parse, "");
    var line := Utf8.Encode(DATA_PREFIX + "" + "\n");
    CutsMatter(parse, line);
  }

  lemma CutsMatter(parse: JsonParser, line: Utf8.Bytes)
    requires line != [] && !Utf8.IsContinuation(line[0])
    requires LoopFrom(parse, "", ByteStream([line], false), 0).Release?
    requires LoopFrom(parse, "", ByteStream([[], line], false), 0).Escalate?
    ensures !CutsImmaterial("")
  {
    TwoCuts(line);
  }

  lemma TwoCuts(line: Utf8.Bytes)
    requires line != [] && !Utf8.IsContinuation(line[0])
    ensures Utf8.CutsBetweenCharacters([line]) && Utf8.CutsBetweenCharacters([[], line])
    ensures Utf8.Flatten([line]) == Utf8.Flatten([[], line])
  {
    assert [[], line][1..] == [line];
  }

  lemma FirstChunkDecides(parse: JsonParser, sentinel: string, stream: ByteStream, chunk: Utf8.Bytes)
    requires stream.chunks != [] && stream.chunks[0] == chunk
    requires VerdictAfter(parse, sentinel, [chunk]) != Undetermined
    ensures LoopFrom(parse, sentinel, stream, 0)
         == if VerdictAfter(parse, sentinel, [chunk]) == Sentinel then Escalate else Release(stream)
  {
    assert stream.chunks[..1] == [chunk];
  }

  lemma NonTextIsClean(e: Json.Value)
    requires IsNonTextStart(e)
    ensures VerdictOf(ScanAll(START, [e], ""), "") == Clean
  {
    assert [e][1..] == [];
  }

  // ----- Replies of every kind -----

  /** A buffered body is judged by its first text block, an absent one counting as empty. */
  function JsonOutcome(parseBody: BodyParser, sentinel: string, bytes: Utf8.Bytes): LocalOutcome {
    var body := parseBody(bytes).GetOr(Json.Null);
    if sentinel <= TrimStart(JsonFirstText(body).GetOr("")) then Escalate
    else Release(ByteStream([bytes], false))
  }

  function OutcomeOf(parse: JsonParser, parseBody: BodyParser, sentinel: string, reply: Reply): LocalOutcome {
    match reply
    case NotConfigured => Error
    case Unreachable => Error
    case ErrorStatus(body) => Failed(body)
    case EventStream(stream) => LoopFrom(parse, sentinel, stream, 0)
    case Buffered(bytes, broken) => if broken then Error else JsonOutcome(parseBody, sentinel, bytes)
  }

  /** What each kind of reply comes to. Only a successful body is looked into; one that is not JSON, or
      has no text, is judged as empty text. */
  lemma OutcomeIs(parse: JsonParser, parseBody: BodyParser, sentinel: string, stream: ByteStream,
                  bytes: Utf8.Bytes, error: Utf8.Bytes)
    ensures OutcomeOf(parse, parseBody, sentinel, NotConfigured) == Error
    ensures OutcomeOf(parse, parseBody, sentinel, Unreachable) == Error
    ensures OutcomeOf(parse, parseBody, sentinel, ErrorStatus(error)) == Failed(error)
    ensures OutcomeOf(parse, parseBody, sentinel, Buffered(bytes, true)) == Error
    ensures sentinel != "" && parseBody(bytes).None? ==>
              OutcomeOf(parse, parseBody, sentinel, Buffered(bytes, false)) == Release(ByteStream([bytes], false))
    ensures parseBody(bytes).Some? ==>
              OutcomeOf(parse, parseBody, sentinel, Buffered(bytes, false))
              == if CheckSentinel(JsonFirstText(parseBody(bytes).value).GetOr(""), sentinel) == Sentinel
                 then Escalate else Release(ByteStream([bytes], false))
    ensures sentinel != "" ==>
              OutcomeOf(parse, parseBody, sentinel, EventStream(stream))
              == StreamOutcome(Events(parse, Utf8.DecodeEach(stream.chunks)), sentinel, stream)
  {
    if sentinel != "" {
      EarlyExitIsSound(parse, sentinel, stream, 0);
    }
  }

  method LocalAttempt(parse: JsonParser, parseBody: BodyParser, sentinel: string, reply: Reply)
    returns (outcome: LocalOutcome)
    ensures outcome == OutcomeOf(parse, parseBody, sentinel, reply)
    ensures outcome.Release? ==> reply == EventStream(outcome.body)
                                 || (reply.Buffered? && !reply.broken && outcome.body == ByteStream([reply.bytes], false))
  {
    match reply {
      case NotConfigured => return Error;
      case Unreachable => return Error;
      case ErrorStatus(body) => return Failed(body);
      case EventStream(stream) =>
        outcome := ScanStream(parse, sentinel, stream);
      case Buffered(bytes, broken) =>
        if broken {
          return Error;
        }
        var body := parseBody(bytes).GetOr(Json.Null);
        var text := JsonFirstText(body).GetOr("");
        if CheckSentinel(text, sentinel) == Sentinel {
          return Escalate;
        }
        return Release(ByteStream([bytes], false));
    }
  }
}
