/** The line framing shared by the sentinel scanner and the dialect translator: a subset of
    event stream interpretation (sections 9.2.5 and 9.2.6 of the WHATWG HTML Living Standard)
    with lines ended by LF and a literal `data: ` prefix. */
module Framing {
  import opened Wrappers
  import opened Text

  /** How a payload is read and written; JSON text itself is not modelled. */
  type Parser<!T> = string -> Option<T>
  type Printer<!T> = T -> string

  const DATA_PREFIX := "data: "

  /** The complete lines of `s`, each with its newline. */
  function Lines(s: string): seq<string> {
    var i := IndexOf(s, '\n');
    if i == |s| then [] else [s[..i + 1]] + Lines(s[i + 1..])
  }

  /** What follows the last newline: the bytes held back until more arrive. */
  function Rest(s: string): string {
    var i := IndexOf(s, '\n');
    if i == |s| then s else Rest(s[i + 1..])
  }

  /** `trim_end_matches(['\r', '\n'])` */
  function TrimEol(line: string): string {
    if line != "" && (line[|line| - 1] == '\r' || line[|line| - 1] == '\n')
    then TrimEol(line[..|line| - 1]) else line
  }

  /** The event a line carries, if it is a `data: ` line with parseable JSON. */
  function EventOf<T>(parse: Parser<T>, line: string): Option<T> {
    var l := TrimEol(line);
    if DATA_PREFIX <= l then parse(l[|DATA_PREFIX|..]) else None
  }

  function EventsOf<T>(parse: Parser<T>, lines: seq<string>): seq<T> {
    if lines == [] then []
    else
      var rest := EventsOf(parse, lines[1..]);
      match EventOf(parse, lines[0])
      case Some(e) => [e] + rest
      case None => rest
  }

  /** Every event on a complete line of `s`. */
  function Events<T>(parse: Parser<T>, s: string): seq<T> {
    EventsOf(parse, Lines(s))
  }

  lemma {:induction false} LinesOnce(s: string)
    ensures var i := IndexOf(s, '\n');
            if i == |s| then Lines(s) == [] && Rest(s) == s
            else Lines(s) == [s[..i + 1]] + Lines(s[i + 1..]) && Rest(s) == Rest(s[i + 1..])
  {
  }

  lemma {:induction false} RestAppend(a: string, b: string)
    ensures Rest(a + b) == Rest(Rest(a) + b)
    decreases |a|
  {
    LinesOnce(a);
    var i := IndexOf(a, '\n');
    if i < |a| {
      RestAppend(a[i + 1..], b);
      FirstLineAppend(a, b);
    }
  }

  lemma {:induction false} LinesAppend(a: string, b: string)
    ensures Lines(a + b) == Lines(a) + Lines(Rest(a) + b)
    decreases |a|
  {
    LinesOnce(a);
    var i := IndexOf(a, '\n');
    if i == |a| {
      Plus(Lines(a + b));
    } else {
      var left := a[i + 1..];
      LinesAppend(left, b);
      FirstLineAppend(a, b);
      Assoc([a[..i + 1]], Lines(left), Lines(Rest(left) + b));
    }
  }

  lemma {:induction false} FirstLineAppend(a: string, b: string)
    requires IndexOf(a, '\n') < |a|
    ensures var i := IndexOf(a, '\n');
            && Lines(a + b) == [a[..i + 1]] + Lines(a[i + 1..] + b)
            && Rest(a + b) == Rest(a[i + 1..] + b)
  {
    var i := IndexOf(a, '\n');
    assert (a + b)[..i] == a[..i];
    IndexOfUnique(a + b, '\n', i);
    assert (a + b)[..i + 1] == a[..i + 1];
    assert (a + b)[i + 1..] == a[i + 1..] + b;
  }

  /** The lines and the rest are the text; each line ends with the only newline in it, the rest has none. */
  lemma {:induction false} LinesCover(s: string)
    ensures Concat(Lines(s)) + Rest(s) == s
    ensures '\n' !in Rest(s)
    ensures forall l | l in Lines(s) :: l != "" && l[|l| - 1] == '\n' && '\n' !in l[..|l| - 1]
    decreases |s|
  {
    LinesOnce(s);
    var i := IndexOf(s, '\n');
    if i == |s| {
      IndexOfAbsent(s, '\n');
      Plus(s);
    } else {
      LinesCover(s[i + 1..]);
      TakeDrop(s, i + 1);
      assert s[..i + 1][..i] == s[..i];
      Assoc(s[..i + 1], Concat(Lines(s[i + 1..])), Rest(s[i + 1..]));
      assert Lines(s)[1..] == Lines(s[i + 1..]);
    }
  }

  lemma {:induction false} EventsOfAppend<T>(parse: Parser<T>, a: seq<string>, b: seq<string>)
    ensures EventsOf(parse, a + b) == EventsOf(parse, a) + EventsOf(parse, b)
  {
    if a == [] {
      Plus(b);
    } else {
      AppendTail(a, b);
      EventsOfAppend(parse, a[1..], b);
      if EventOf(parse, a[0]).Some? {
        Assoc([EventOf(parse, a[0]).value], EventsOf(parse, a[1..]), EventsOf(parse, b));
      }
    }
  }

  /** The events seen do not depend on where the text was cut: what the second piece yields
      together with the held-back tail is exactly what the whole yields beyond the first. */
  lemma EventsAppend<T>(parse: Parser<T>, a: string, b: string)
    ensures Events(parse, a + b) == Events(parse, a) + Events(parse, Rest(a) + b)
    ensures Rest(a + b) == Rest(Rest(a) + b)
  {
    LinesAppend(a, b);
    RestAppend(a, b);
    EventsOfAppend(parse, Lines(a), Lines(Rest(a) + b));
  }

  /** One iteration of a drain loop: the first complete line, and what is left after it. */
  lemma {:induction false} DrainOne<T>(parse: Parser<T>, s: string, line: string, left: string)
    requires IndexOf(s, '\n') < |s|
    requires line == s[..IndexOf(s, '\n') + 1] && left == s[IndexOf(s, '\n') + 1..]
    ensures Rest(s) == Rest(left)
    ensures Events(parse, s) == match EventOf(parse, line)
                                case Some(e) => [e] + Events(parse, left)
                                case None => Events(parse, left)
  {
    LinesOnce(s);
    EventsAfterLine(parse, s, line, left);
  }

  lemma EventsAfterLine<T>(parse: Parser<T>, s: string, line: string, left: string)
    requires Lines(s) == [line] + Lines(left)
    ensures Events(parse, s) == match EventOf(parse, line)
                                case Some(e) => [e] + Events(parse, left)
                                case None => Events(parse, left)
  {
    assert Lines(s)[0] == line && Lines(s)[1..] == Lines(left);
  }

  /** One event as both dialects put it on the wire. */
  function PrintEvent<T>(show: Printer<T>, e: T): string {
    DATA_PREFIX + show(e) + "\n\n"
  }

  function PrintEvents<T>(show: Printer<T>, events: seq<T>): string {
    if events == [] then "" else PrintEvent(show, events[0]) + PrintEvents(show, events[1..])
  }

  /** What JSON text gives: it reads back, and it fits on one line. */
  ghost predicate PrintsOneLine<T>(parse: Parser<T>, show: Printer<T>, e: T) {
    && parse(show(e)) == Some(e)
    && '\n' !in show(e)
    && '\r' !in show(e)
  }

  lemma {:induction false} PlainLine(line: string)
    requires line != "" && '\n' !in line && '\r' !in line
    ensures IndexOf(line + "\n", '\n') == |line|
    ensures TrimEol(line + "\n") == line
  {
    var s := line + "\n";
    assert s[..|line|] == line && s[|line|] == '\n';
    IndexOfUnique(s, '\n', |line|);
    assert line[|line| - 1] in line;
    assert TrimEol(line) == line;
  }

  /** A single `data: ` line yields what its payload parses to. */
  lemma DataLine<T>(parse: Parser<T>, data: string)
    requires '\n' !in data && '\r' !in data
    ensures Events(parse, "data: " + data + "\n") == (match parse(data) case Some(e) => [e] case None => [])
    ensures Rest(DATA_PREFIX + data + "\n") == ""
  {
    var line := DATA_PREFIX + data;
    var s := line + "\n";
    assert '\n' !in line && '\r' !in line by {
      assert '\n' !in DATA_PREFIX && '\r' !in DATA_PREFIX;
    }
    PlainLine(line);
    assert s[..|line| + 1] == s && s[|line| + 1..] == "";
    assert EventOf(parse, s) == parse(data) by {
      assert DATA_PREFIX <= line && line[|DATA_PREFIX|..] == data;
    }
    DrainOne(parse, s, s, "");
  }

  /** A carriage return in front of the newline makes no difference. */
  lemma CrlfLine<T>(parse: Parser<T>, data: string)
    requires '\n' !in data && '\r' !in data
    ensures Events(parse, "data: " + data + "\r\n") == Events(parse, "data: " + data + "\n")
  {
    var line := DATA_PREFIX + data;
    assert '\n' !in line && '\r' !in line by {
      assert '\n' !in DATA_PREFIX && '\r' !in DATA_PREFIX;
    }
    PlainLine(line);
    assert (line + "\n")[..|line|] == line;
    var s := line + "\r\n";
    assert s[..|line| + 1] == line + "\r" && s[|line| + 1] == '\n' && '\n' !in line + "\r";
    IndexOfUnique(s, '\n', |line| + 1);
    assert s[..|line| + 2] == s && s[|line| + 2..] == "";
    assert (line + "\r")[..|line|] == line && s[..|s| - 1] == line + "\r";
    assert TrimEol(s) == TrimEol(line + "\r") == TrimEol(line) == line by {
      assert line[|line| - 1] in line;
    }
    DrainOne(parse, s, s, "");
    assert (line + "\n")[..|line| + 1] == line + "\n" && (line + "\n")[|line| + 1..] == "";
    DrainOne(parse, line + "\n", line + "\n", "");
  }

  lemma EmptyLine<T>(parse: Parser<T>)
    ensures Events(parse, "\n") == [] && Rest("\n") == ""
  {
    assert "\n"[..1] == "\n" && "\n"[1..] == "" && TrimEol("\n") == "";
    DrainOne(parse, "\n", "\n", "");
  }

  lemma PrintedEventReads<T>(parse: Parser<T>, show: Printer<T>, e: T)
    requires PrintsOneLine(parse, show, e)
    ensures Events(parse, PrintEvent(show, e)) == [e]
    ensures Rest(PrintEvent(show, e)) == ""
  {
    var s := DATA_PREFIX + show(e) + "\n";
    DataLine(parse, show(e));
    EmptyLine(parse);
    EventsAppend(parse, s, "\n");
    assert PrintEvent(show, e) == s + "\n";
    Plus("\n");
    Plus([e]);
  }

  /** Printing a list of events and reading the text gives the list back. */
  lemma {:induction false} PrintedEventsRead<T>(parse: Parser<T>, show: Printer<T>, events: seq<T>)
    requires forall e | e in events :: PrintsOneLine(parse, show, e)
    ensures Events(parse, PrintEvents(show, events)) == events
    ensures Rest(PrintEvents(show, events)) == ""
  {
    if events != [] {
      var head, tail := PrintEvent(show, events[0]), PrintEvents(show, events[1..]);
      PrintedEventReads(parse, show, events[0]);
      PrintedEventsRead(parse, show, events[1..]);
      EventsAppend(parse, head, tail);
      assert "" + tail == tail;
    }
  }

  lemma {:induction false} TrimEolPrefix(line: string)
    ensures TrimEol(line) <= line
  {
    if line != "" {
      TrimEolPrefix(line[..|line| - 1]);
    }
  }

  /** A line of any other kind - `event:`, a comment, nothing at all - carries no event. */
  lemma OtherLine<T>(parse: Parser<T>, line: string, rest: string)
    requires '\n' !in line && !(DATA_PREFIX <= line)
    ensures Events(parse, line + "\n" + rest) == Events(parse, rest)
    ensures Rest(line + "\n" + rest) == Rest(rest)
  {
    var s := line + "\n" + rest;
    assert s[..|line|] == line && s[|line|] == '\n';
    IndexOfUnique(s, '\n', |line|);
    assert s[..|line| + 1] == line + "\n" && s[|line| + 1..] == rest;
    TrimEolPrefix(line);
    assert (line + "\n")[..|line|] == line;
    DrainOne(parse, s, line + "\n", rest);
  }

  /** Events as an upstream writes them, each behind a line with its name. */
  function PrintNamed<T>(show: Printer<T>, name: T -> string, events: seq<T>): string {
    if events == [] then ""
    else "event: " + name(events[0]) + "\n" + (PrintEvent(show, events[0]) + PrintNamed(show, name, events[1..]))
  }

  lemma {:induction false} NamedEventsRead<T>(parse: Parser<T>, show: Printer<T>, name: T -> string, events: seq<T>)
    requires forall e | e in events :: PrintsOneLine(parse, show, e) && '\n' !in name(e)
    ensures Events(parse, PrintNamed(show, name, events)) == events
    ensures Rest(PrintNamed(show, name, events)) == ""
  {
    if events != [] {
      var line, tail := "event: " + name(events[0]), PrintNamed(show, name, events[1..]);
      NameLine(name(events[0]));
      NamedEventsRead(parse, show, name, events[1..]);
      NamedEventReads(parse, show, line, events[0], tail);
      assert [events[0]] + events[1..] == events;
    }
  }

  lemma NamedEventReads<T>(parse: Parser<T>, show: Printer<T>, line: string, e: T, tail: string)
    requires PrintsOneLine(parse, show, e)
    requires '\n' !in line && !(DATA_PREFIX <= line)
    ensures Events(parse, line + "\n" + (PrintEvent(show, e) + tail)) == [e] + Events(parse, tail)
    ensures Rest(line + "\n" + (PrintEvent(show, e) + tail)) == Rest(tail)
  {
    PrintedEventReads(parse, show, e);
    EventsAppend(parse, PrintEvent(show, e), tail);
    Plus(tail);
    OtherLine(parse, line, PrintEvent(show, e) + tail);
  }

  lemma NameLine(name: string)
    requires '\n' !in name
    ensures '\n' !in "event: " + name && !(DATA_PREFIX <= "event: " + name)
  {
    assert ("event: " + name)[0] == 'e';
  }
}
