/** Sentinel detection over model responses (src/stream.rs). */
module Stream {
  import opened Wrappers
  import opened Text
  import opened Framing
  import Utf8
  import Json

  type JsonParser = Parser<Json.Value>

  datatype Verdict = Sentinel | Clean | Undetermined

  function CheckSentinel(accumulated: string, sentinel: string): Verdict {
    var text := TrimStart(accumulated);
    if sentinel <= text then Sentinel
    else if text <= sentinel then Undetermined
    else Clean
  }

  /** A block start whose type is present and is not `text`. */
  predicate IsNonTextStart(e: Json.Value) {
    && Json.GetStr(e, "type") == Some("content_block_start")
    && var t := Json.PointerStr(e, "content_block", "type");
       t.Some? && t != Some("text")
  }

  /** The text an event contributes. */
  function EventText(e: Json.Value): string {
    var t := match Json.GetStr(e, "type")
             case Some(kind) =>
               if kind == "content_block_start" then Json.PointerStr(e, "content_block", "text")
               else if kind == "content_block_delta" then Json.PointerStr(e, "delta", "text")
               else None
             case None => None;
    t.GetOr("")
  }

  function TextOf(events: seq<Json.Value>): string {
    if events == [] then "" else EventText(events[0]) + TextOf(events[1..])
  }

  // ----- What a verdict means, over the whole event list -----

  predicate OnlyText(events: seq<Json.Value>) {
    forall e | e in events :: !IsNonTextStart(e)
  }

  predicate BeginsWithSentinel(events: seq<Json.Value>, sentinel: string) {
    sentinel <= TrimStart(TextOf(events))
  }

  /** At some point, before any non-text block, the response so far began with the sentinel. */
  predicate Escalates(events: seq<Json.Value>, sentinel: string) {
    exists k :: 0 <= k <= |events| && OnlyText(events[..k]) && BeginsWithSentinel(events[..k], sentinel)
  }

  /** Nothing speaks against the sentinel yet, and it is still incomplete. */
  predicate StillOpen(events: seq<Json.Value>, sentinel: string) {
    OnlyText(events) && TrimStart(TextOf(events)) <= sentinel && TrimStart(TextOf(events)) != sentinel
  }

  function Decision(events: seq<Json.Value>, sentinel: string): Verdict {
    if Escalates(events, sentinel) then Sentinel
    else if StillOpen(events, sentinel) then Undetermined
    else Clean
  }

  // ----- What the scanner keeps -----

  datatype Scan = Scan(text: string, resolved: Option<Verdict>)

  const START := Scan("", None)

  function Absorb(st: Scan, e: Json.Value, sentinel: string): Scan {
    var text := st.text + EventText(e);
    var resolved :=
      if st.resolved.Some? then st.resolved
      else if IsNonTextStart(e) then Some(Clean)
      else if CheckSentinel(text, sentinel) == Sentinel then Some(Sentinel)
      else None;
    Scan(text, resolved)
  }

  function ScanAll(st: Scan, events: seq<Json.Value>, sentinel: string): Scan
    decreases |events|
  {
    if events == [] then st else ScanAll(Absorb(st, events[0], sentinel), events[1..], sentinel)
  }

  function VerdictOf(st: Scan, sentinel: string): Verdict {
    st.resolved.GetOr(CheckSentinel(st.text, sentinel))
  }

  lemma {:induction false} ScanAppend(st: Scan, a: seq<Json.Value>, b: seq<Json.Value>, sentinel: string)
    ensures ScanAll(st, a + b, sentinel) == ScanAll(ScanAll(st, a, sentinel), b, sentinel)
    decreases |a|
  {
    if a == [] {
      Plus(b);
    } else {
      AppendTail(a, b);
      ScanAppend(Absorb(st, a[0], sentinel), a[1..], b, sentinel);
    }
  }

  lemma {:induction false} TextAppend(a: seq<Json.Value>, b: seq<Json.Value>)
    ensures TextOf(a + b) == TextOf(a) + TextOf(b)
  {
    if a == [] {
      Plus(b);
    } else {
      AppendTail(a, b);
      TextAppend(a[1..], b);
      Assoc(EventText(a[0]), TextOf(a[1..]), TextOf(b));
    }
  }

  lemma {:induction false} ScanText(st: Scan, events: seq<Json.Value>, sentinel: string)
    ensures ScanAll(st, events, sentinel).text == st.text + TextOf(events)
    decreases |events|
  {
    if events == [] {
      Plus(st.text);
    } else {
      ScanText(Absorb(st, events[0], sentinel), events[1..], sentinel);
      Assoc(st.text, EventText(events[0]), TextOf(events[1..]));
    }
  }

  /** A witness for one list is a witness for any extension of it. */
  lemma EscalatesGrows(a: seq<Json.Value>, b: seq<Json.Value>, sentinel: string)
    requires Escalates(a, sentinel)
    ensures Escalates(a + b, sentinel)
  {
    var k :| 0 <= k <= |a| && OnlyText(a[..k]) && BeginsWithSentinel(a[..k], sentinel);
    assert (a + b)[..k] == a[..k];
  }

  /** After a non-text block nothing can start an escalation. */
  lemma RuledOutForGood(a: seq<Json.Value>, b: seq<Json.Value>, sentinel: string)
    requires !OnlyText(a) && !Escalates(a, sentinel)
    ensures !Escalates(a + b, sentinel)
  {
    var ab := a + b;
    var i :| 0 <= i < |a| && IsNonTextStart(a[i]);
    forall k | 0 <= k <= |ab|
      ensures !(OnlyText(ab[..k]) && BeginsWithSentinel(ab[..k], sentinel))
    {
      if k > i {
        assert ab[..k][i] == a[i];
      } else {
        assert ab[..k] == a[..k];
      }
    }
  }

  /** The latch holds exactly the first decisive fact about the event list. */
  lemma {:induction false} LatchMeaning(events: seq<Json.Value>, sentinel: string)
    requires sentinel != ""
    ensures ScanAll(START, events, sentinel).resolved
         == if Escalates(events, sentinel) then Some(Sentinel)
            else if OnlyText(events) then None
            else Some(Clean)
  {
    if events != [] {
      var n := |events| - 1;
      var init, last := events[..n], [events[n]];
      assert events == init + last;
      ScanAppend(START, init, last, sentinel);
      ScanText(START, init, sentinel);
      assert "" + TextOf(init) == TextOf(init);
      LatchMeaning(init, sentinel);
      TextAppend(init, last);
      if Escalates(init, sentinel) {
        EscalatesGrows(init, last, sentinel);
      } else if !OnlyText(init) {
        RuledOutForGood(init, last, sentinel);
        assert !OnlyText(events);
      } else {
        LatchLastEvent(events, sentinel);
        assert TextOf(last) == EventText(last[0]) + "" == EventText(last[0]);
        assert ScanAll(START, events, sentinel) == Absorb(ScanAll(START, init, sentinel), last[0], sentinel);
      }
    }
  }

  lemma LatchLastEvent(events: seq<Json.Value>, sentinel: string)
    requires events != [] && OnlyText(events[..|events| - 1]) && !Escalates(events[..|events| - 1], sentinel)
    ensures OnlyText(events) <==> !IsNonTextStart(events[|events| - 1])
    ensures Escalates(events, sentinel) <==> OnlyText(events) && BeginsWithSentinel(events, sentinel)
  {
    var n := |events| - 1;
    var init := events[..n];
    assert events[..|events|] == events == init + [events[n]];
    forall k | 0 <= k <= n
      ensures !(OnlyText(events[..k]) && BeginsWithSentinel(events[..k], sentinel))
    {
      assert events[..k] == init[..k];
    }
  }

  /** The scanner's running verdict is the declared decision on the events it has seen. */
  lemma VerdictMeaning(events: seq<Json.Value>, sentinel: string)
    requires sentinel != ""
    ensures VerdictOf(ScanAll(START, events, sentinel), sentinel) == Decision(events, sentinel)
  {
    LatchMeaning(events, sentinel);
    ScanText(START, events, sentinel);
    assert "" + TextOf(events) == TextOf(events);
    assert events[..|events|] == events;
  }

  /** While the latch is open the text does not begin with the sentinel, although the verdict
      on the text alone may already be Clean; while undetermined, the trimmed text is a proper
      prefix of the sentinel. */
  lemma UnresolvedMeaning(events: seq<Json.Value>, sentinel: string)
    requires sentinel != ""
    ensures var st := ScanAll(START, events, sentinel);
            && (st.resolved.None? ==> !BeginsWithSentinel(events, sentinel))
            && (VerdictOf(st, sentinel) == Undetermined
                <==> st.resolved.None? && TrimStart(st.text) <= sentinel && TrimStart(st.text) != sentinel)
  {
    LatchMeaning(events, sentinel);
    ScanText(START, events, sentinel);
    assert "" + TextOf(events) == TextOf(events);
    assert events[..|events|] == events;
  }

  /** A decided verdict is never revised, even though a Clean verdict reached on text alone is
      not latched. */
  lemma DecisionFinal(events: seq<Json.Value>, more: seq<Json.Value>, sentinel: string)
    requires sentinel != ""
    requires Decision(events, sentinel) != Undetermined
    ensures Decision(events + more, sentinel) == Decision(events, sentinel)
  {
    if Escalates(events, sentinel) {
      EscalatesGrows(events, more, sentinel);
    } else if !OnlyText(events) {
      RuledOutForGood(events, more, sentinel);
      assert !OnlyText(events + more);
    } else {
      IncompatibleForGood(events, more, sentinel);
    }
  }

  lemma IncompatibleForGood(events: seq<Json.Value>, more: seq<Json.Value>, sentinel: string)
    requires sentinel != "" && OnlyText(events)
    requires !Escalates(events, sentinel) && !StillOpen(events, sentinel)
    ensures Decision(events + more, sentinel) == Clean
  {
    var all := events + more;
    var t := TrimStart(TextOf(events));
    assert events[..|events|] == events;
    assert !(sentinel <= t) && !(t <= sentinel);
    forall k | 0 <= k <= |all|
      ensures !(OnlyText(all[..k]) && BeginsWithSentinel(all[..k], sentinel))
    {
      if k <= |events| {
        assert all[..k] == events[..k];
      } else {
        assert all[..k] == events + more[..k - |events|];
        TextAppend(events, more[..k - |events|]);
        TrimStartAppend(TextOf(events), TextOf(more[..k - |events|]));
        PrefixesAgree(t, TextOf(more[..k - |events|]), sentinel);
      }
    }
    TextAppend(events, more);
    TrimStartAppend(TextOf(events), TextOf(more));
    PrefixesAgree(t, TextOf(more), sentinel);
  }

  lemma PrefixesAgree(t: string, x: string, s: string)
    ensures s <= t + x ==> s <= t || t <= s
    ensures t + x <= s ==> t <= s
  {
    var tx := t + x;
    if s <= tx && |s| <= |t| {
      assert s == tx[..|s|] == t[..|s|];
    } else if s <= tx {
      assert t == tx[..|t|] == s[..|t|];
    }
    if tx <= s {
      assert t == tx[..|t|] == s[..|t|];
    }
  }

  class SseTextScanner {
    const sentinel: string
    const parse: JsonParser
    var raw: seq<Utf8.Bytes>
    var pending: string
    var text: string
    var resolved: Option<Verdict>

    /** The text the chunks fed so far decode to, chunk by chunk. */
    function Decoded(): string
      reads this
    {
      Utf8.DecodeEach(raw)
    }

    predicate Valid()
      reads this
    {
      && pending == Rest(Decoded())
      && Scan(text, resolved) == ScanAll(START, Events(parse, Decoded()), sentinel)
    }

    constructor (sentinel: string, parse: JsonParser)
      ensures Valid() && raw == [] && this.sentinel == sentinel && this.parse == parse
    {
      this.sentinel := sentinel;
      this.parse := parse;
      raw, pending, text, resolved := [], "", "", None;
    }

    method Push(chunk: Utf8.Bytes) returns (v: Verdict)
      requires Valid()
      modifies this
      ensures Valid() && raw == old(raw) + [chunk]
      ensures v == VerdictOf(Scan(text, resolved), sentinel)
      ensures sentinel != "" ==> v == Decision(Events(parse, Decoded()), sentinel)
    {
      ghost var seen := Decoded();
      ghost var arrived := pending + Utf8.Decode(chunk);
      ghost var before := Scan(text, resolved);
      raw := raw + [chunk];
      pending := pending + Utf8.Decode(chunk);
      while IndexOf(pending, '\n') < |pending|
        invariant raw == old(raw) + [chunk]
        invariant Rest(pending) == Rest(arrived)
        invariant ScanAll(Scan(text, resolved), Events(parse, pending), sentinel)
               == ScanAll(before, Events(parse, arrived), sentinel)
        decreases |pending|
      {
        var newline := IndexOf(pending, '\n');
        DrainOne(parse, pending, pending[..newline + 1], pending[newline + 1..]);
        var line := TrimEol(pending[..newline + 1]);
        ghost var event := EventOf(parse, pending[..newline + 1]);
        pending := pending[newline + 1..];
        if DATA_PREFIX <= line {
          var parsed := parse(line[|DATA_PREFIX|..]);
          if parsed.Some? {
            ghost var rest := Events(parse, pending);
            assert ([parsed.value] + rest)[1..] == rest;
            AbsorbEvent(parsed.value);
          }
        }
      }
      NoLinesLeft(parse, pending);
      Utf8.DecodeEachAppend(old(raw), [chunk]);
      assert Decoded() == seen + Utf8.Decode(chunk);
      EventsAppend(parse, seen, Utf8.Decode(chunk));
      ScanAppend(START, Events(parse, seen), Events(parse, arrived), sentinel);
      v := resolved.GetOr(CheckSentinel(text, sentinel));
      if sentinel != "" {
        VerdictMeaning(Events(parse, Decoded()), sentinel);
      }
    }

    method AbsorbEvent(event: Json.Value)
      modifies this`text, this`resolved
      ensures Scan(text, resolved) == Absorb(old(Scan(text, resolved)), event, sentinel)
    {
      var kind := Json.GetStr(event, "type");
      var block := Json.PointerStr(event, "content_block", "type");
      var isNonTextBlockStart := kind == Some("content_block_start") && block.Some? && block != Some("text");
      var t: Option<string> := None;
      if kind == Some("content_block_start") {
        t := Json.PointerStr(event, "content_block", "text");
      } else if kind == Some("content_block_delta") {
        t := Json.PointerStr(event, "delta", "text");
      }
      if t.Some? {
        text := text + t.value;
      }
      assert text == old(text) + EventText(event);
      if resolved.None? {
        if isNonTextBlockStart {
          resolved := Some(Clean);
        } else if CheckSentinel(text, sentinel) == Sentinel {
          resolved := Some(Sentinel);
        }
      }
    }

    method IntoBuffered() returns (chunks: seq<Utf8.Bytes>)
      ensures chunks == raw
    {
      chunks := raw;
    }
  }

  lemma NoLinesLeft(parse: JsonParser, s: string)
    requires IndexOf(s, '\n') == |s|
    ensures Events(parse, s) == [] && Rest(s) == s
  {
  }

  /** The first text block of a buffered response. */
  function JsonFirstText(body: Json.Value): Option<string> {
    var content :- Json.AsArray(Json.Get(body, "content"));
    FirstText(content)
  }

  function FirstText(blocks: seq<Json.Value>): Option<string> {
    if blocks == [] then None
    else if Json.GetStr(blocks[0], "type") == Some("text") then Json.GetStr(blocks[0], "text")
    else FirstText(blocks[1..])
  }

  /** The block that is read is the first of type `text`, whether or not it has a text. */
  lemma {:induction false} FirstTextIs(blocks: seq<Json.Value>, i: nat)
    requires i <= |blocks|
    requires forall j | 0 <= j < i :: Json.GetStr(blocks[j], "type") != Some("text")
    ensures i == |blocks| ==> FirstText(blocks) == None
    ensures i < |blocks| && Json.GetStr(blocks[i], "type") == Some("text") ==>
              FirstText(blocks) == Json.GetStr(blocks[i], "text")
  {
    if i > 0 {
      FirstTextIs(blocks[1..], i - 1);
    }
  }

  /** The verdict on a text alone: white space in front is ignored; the sentinel must come first; a
      text that is a proper beginning of it, or nothing at all, leaves the question open. */
  lemma CheckIs(w: string, t: string, sentinel: string)
    requires AllWhitespace(w) && (t == "" || !IsWhitespace(t[0]))
    ensures CheckSentinel(w + t, sentinel) == Sentinel <==> sentinel <= t
    ensures CheckSentinel(w + t, sentinel) == Undetermined <==> t <= sentinel && t != sentinel
  {
    TrimStartWhitespace(w, t);
  }
}
