/** In-session `/model provider/model` commands (src/model_command.rs). */
module ModelCommand {
  import opened Wrappers
  import opened Text
  import opened Payload
  import Json

  const COMMAND := "/model "

  datatype Command = Command(provider: string, model: string)

  // ----- String operations -----

  /** Length of the leading run without white space. */
  function TokenLength(s: string): (n: nat)
    ensures n <= |s|
  {
    if s == "" || IsWhitespace(s[0]) then 0 else 1 + TokenLength(s[1..])
  }

  /** `split_whitespace().next()` */
  function FirstToken(s: string): Option<string> {
    var t := TrimStart(s);
    if t == "" then None else Some(t[..TokenLength(t)])
  }

  /** `split_once(c)` */
  function SplitOnce(s: string, c: char): Option<(string, string)> {
    var i := IndexOf(s, c);
    if i == |s| then None else Some((s[..i], s[i + 1..]))
  }

  /** `replace(token, "")` */
  function Without(s: string, token: string): string
    requires token != ""
  {
    if s == "" then ""
    else if token <= s then Without(s[|token|..], token)
    else [s[0]] + Without(s[1..], token)
  }

  /** The token occurs somewhere in the text. */
  predicate Occurs(token: string, s: string) {
    exists i :: 0 <= i <= |s| && token <= s[i..]
  }

  function NonEmpty(s: string): Option<string> {
    if s == "" then None else Some(s)
  }

  function ExtractCommand(text: string): Option<(Command, Option<string>)> {
    var trimmed := TrimStart(text);
    if !(COMMAND <= trimmed) then None
    else
      var identifier :- FirstToken(trimmed[|COMMAND|..]);
      var parts :- SplitOnce(identifier, '/');
      if parts.0 == "" || parts.1 == "" then None
      else Some((Command(parts.0, parts.1), NonEmpty(Trim(Without(text, COMMAND + identifier)))))
  }

  lemma {:induction false} TokenLengthIs(a: string, b: string)
    requires NoWhitespace(a)
    requires b == "" || IsWhitespace(b[0])
    ensures TokenLength(a + b) == |a|
  {
    if a == "" {
      Plus(b);
    } else {
      AppendTail(a, b);
      TokenLengthIs(a[1..], b);
    }
  }

  lemma {:induction false} WithoutAbsent(s: string, token: string)
    requires token != "" && !Occurs(token, s)
    ensures Without(s, token) == s
  {
    if s != "" {
      assert s[0..] == s;
      forall i | 0 <= i <= |s[1..]|
        ensures !(token <= s[1..][i..])
      {
        assert s[1..][i..] == s[i + 1..];
      }
      WithoutAbsent(s[1..], token);
    }
  }

  /** Text that holds no start of a token passes through. */
  lemma {:induction false} WithoutPlain(a: string, b: string, token: string)
    requires token != "" && token[0] !in a
    ensures Without(a + b, token) == a + Without(b, token)
  {
    if a == "" {
      Plus(b);
      Plus(Without(b, token));
    } else {
      AppendTail(a, b);
      assert a[0] in a && forall c | c in a[1..] :: c in a;
      WithoutPlain(a[1..], b, token);
      Assoc([a[0]], a[1..], Without(b, token));
    }
  }

  lemma {:induction false} TrimEndStays(s: string)
    requires s != "" ==> !IsWhitespace(s[|s| - 1])
    ensures TrimEnd(s) == s
  {
  }

  lemma NoSlash(w: string)
    requires AllWhitespace(w)
    ensures '/' !in w
  {
  }

  /** Every copy of the token goes: up to the first nothing changes, and after it the search goes on. */
  lemma WithoutRemoves(a: string, b: string, token: string)
    requires token != "" && token[0] !in a
    ensures Without(a + (token + b), token) == a + Without(b, token)
  {
    WithoutPlain(a, token + b, token);
    assert token <= token + b && (token + b)[|token|..] == b;
  }

  /** A token that does not end in white space is not made up by white space behind the text. */
  lemma TrailFree(token: string, r: string, trail: string)
    requires token != "" && !IsWhitespace(token[|token| - 1]) && AllWhitespace(trail)
    ensures Occurs(token, r + trail) ==> Occurs(token, r)
  {
    var s := r + trail;
    forall k | |r| <= k < |s|
      ensures IsWhitespace(s[k])
    {
      assert s[k] in trail;
    }
    if i :| 0 <= i <= |s| && token <= s[i..] {
      var last := i + |token| - 1;
      assert s[i..][|token| - 1] == s[last] == token[|token| - 1];
      assert last < |r|;
      assert r[i..] == s[i..][..|r| - i];
      assert token <= r[i..];
    }
  }

  /** Printing and parsing are inverse: a command in front of `r` is read back exactly, and what is
      left is `r`, whatever white space surrounds the command and the text. */
  lemma CommandRoundTrip(w: string, p: string, m: string, gap: string, r: string, trail: string)
    requires AllWhitespace(w) && AllWhitespace(gap) && AllWhitespace(trail) && (gap == "" ==> r == "")
    requires p != "" && NoWhitespace(p) && '/' !in p
    requires m != "" && NoWhitespace(m)
    requires Trimmed(r) && !Occurs(COMMAND + (p + "/" + m), r)
    ensures ExtractCommand(w + ("/model " + (p + "/" + m) + (gap + (r + trail)))) == Some((Command(p, m), NonEmpty(r)))
  {
    var id := p + "/" + m;
    var token := COMMAND + id;
    var tail := gap + (r + trail);
    TailStarts(gap, r, trail);
    HeadIsRead(w, id, tail);
    SplitIdentifier(p, m);
    assert token[0] == '/' && token[|token| - 1] == m[|m| - 1] && m[|m| - 1] in m;
    NoSlash(w);
    NoSlash(gap);
    WithoutRemoves(w, tail, token);
    WithoutPlain(gap, r + trail, token);
    TrailFree(token, r, trail);
    WithoutAbsent(r + trail, token);
    TrimAround(w, gap, r, trail);
  }

  lemma TailStarts(gap: string, r: string, trail: string)
    requires AllWhitespace(gap) && AllWhitespace(trail) && (gap == "" ==> r == "")
    ensures var tail := gap + (r + trail);
            tail == "" || IsWhitespace(tail[0])
  {
    var tail := gap + (r + trail);
    if gap != "" {
      assert tail[0] == gap[0] && gap[0] in gap;
    } else if trail != "" {
      assert tail == trail && trail[0] in trail;
    }
  }

  /** The identifier that follows the command word directly is found. */
  lemma {:induction false} HeadIsRead(w: string, id: string, tail: string)
    requires AllWhitespace(w) && id != "" && NoWhitespace(id)
    requires tail == "" || IsWhitespace(tail[0])
    ensures var trimmed := TrimStart(w + (COMMAND + id + tail));
            COMMAND <= trimmed && FirstToken(trimmed[|COMMAND|..]) == Some(id)
  {
    Assoc(COMMAND, id, tail);
    WordFound(w, id + tail);
    TokenFound("", id, tail);
    Plus(id + tail);
  }

  /** The command word is found behind white space. */
  lemma WordFound(w: string, rest: string)
    requires AllWhitespace(w)
    ensures var trimmed := TrimStart(w + (COMMAND + rest));
            trimmed == COMMAND + rest && trimmed[|COMMAND|..] == rest
  {
    TrimStartWhitespace(w, COMMAND + rest);
    assert (COMMAND + rest)[0] == '/';
  }

  /** So is a token. */
  lemma TokenFound(u: string, id: string, tail: string)
    requires AllWhitespace(u) && id != "" && NoWhitespace(id) && (tail == "" || IsWhitespace(tail[0]))
    ensures FirstToken(u + (id + tail)) == Some(id)
  {
    TrimStartWhitespace(u, id + tail);
    assert (id + tail)[0] == id[0] && id[0] in id;
    TokenLengthIs(id, tail);
    assert (id + tail)[..|id|] == id;
  }

  lemma SplitIdentifier(p: string, m: string)
    requires '/' !in p
    ensures SplitOnce(p + "/" + m, '/') == Some((p, m))
  {
    var id := p + "/" + m;
    assert id[..|p|] == p && id[|p|] == '/' && id[|p| + 1..] == m;
    IndexOfUnique(id, '/', |p|);
  }

  lemma {:induction false} TrimEndWhitespace(s: string, trail: string)
    requires AllWhitespace(trail)
    ensures TrimEnd(s + trail) == TrimEnd(s)
    decreases |trail|
  {
    if trail == "" {
      Plus(s);
    } else {
      var init, last := trail[..|trail| - 1], trail[|trail| - 1];
      assert last in trail && forall c | c in init :: c in trail;
      assert (s + trail)[..|s + trail| - 1] == s + init;
      TrimEndWhitespace(s, init);
    }
  }

  /** Trimming takes the white space off both ends. */
  lemma TrimAround(w: string, gap: string, r: string, trail: string)
    requires AllWhitespace(w) && AllWhitespace(gap) && AllWhitespace(trail) && Trimmed(r)
    ensures Trim(w + (gap + (r + trail))) == r
  {
    TrimStartWhitespace(w, gap + (r + trail));
    TrimStartWhitespace(gap, r + trail);
    TrimEndWhitespace(r, trail);
    TrimEndStays(r);
    if r == "" {
      TrimStartWhitespace(trail, "");
      Plus(trail);
    }
  }

  // ----- What stripping leaves -----

  lemma {:induction false} TrimStartSplit(s: string) returns (w: string)
    ensures s == w + TrimStart(s) && AllWhitespace(w)
  {
    if s != "" && IsWhitespace(s[0]) {
      w := TrimStartSplit(s[1..]);
      w := [s[0]] + w;
    } else {
      w := "";
    }
  }

  /** With extra white space after the command word the token is looked for with one space and not
      found at the head: what is passed on still begins with the command word. */
  lemma StrippingMissesExtraSpace(text: string)
    requires ExtractCommand(text).Some? && AfterWord(text) != "" && IsWhitespace(AfterWord(text)[0])
    ensures var left := ExtractCommand(text).value.1;
            left.Some? && COMMAND <= left.value
  {
    var rest := AfterWord(text);
    var id, tail := Identifier(rest), AfterIdentifier(rest);
    var w, u := WhatWasRead(text);
    WordPasses(w, u, id + tail, id);
    IdentifierStays(id, tail);
    KeptHead(w, u, Without(id + tail, COMMAND + id));
  }

  /** With exactly the one space, the token is cut out and only what surrounds it is left. */
  lemma StrippingRemovesToken(text: string, w: string, id: string, tail: string)
    requires ExtractCommand(text).Some?
    requires text == w + (COMMAND + id + tail) && AllWhitespace(w)
    requires id != "" && NoWhitespace(id) && (tail == "" || IsWhitespace(tail[0]))
    ensures ExtractCommand(text).value.1 == NonEmpty(Trim(Without(tail, COMMAND + id)))
  {
    var token := COMMAND + id;
    HeadIsRead(w, id, tail);
    NoSlash(w);
    assert token[0] == '/';
    WithoutPlain(w, token + tail, token);
    assert token <= token + tail && (token + tail)[|token|..] == tail;
    TrimStartWhitespace(w, Without(tail, token));
  }

  lemma IdentifierStays(id: string, tail: string)
    requires id != "" && NoWhitespace(id) && id[0] != '/'
    ensures var left := Without(id + tail, COMMAND + id);
            left != "" && !IsWhitespace(left[0])
  {
    assert (id + tail)[0] == id[0] && id[0] in id;
    assert (COMMAND + id)[0] == '/' && !(COMMAND + id <= id + tail);
  }

  lemma KeptHead(w: string, u: string, left: string)
    requires AllWhitespace(w) && AllWhitespace(u) && left != "" && !IsWhitespace(left[0])
    ensures COMMAND <= Trim(w + (COMMAND + (u + left)))
  {
    var kept := COMMAND + (u + left);
    TrimStartWhitespace(w, kept);
    assert kept[0] == '/' && TrimStart(kept) == kept;
    TrimStartWhitespace(u, left);
    TrimEndKeeps(COMMAND, u + left);
  }

  lemma {:induction false} TrimEndKeeps(a: string, b: string)
    requires TrimStart(b) != ""
    ensures a <= TrimEnd(a + b)
    decreases |b|
  {
    var s := a + b;
    var n := |b| - 1;
    if IsWhitespace(s[|s| - 1]) {
      assert s[..|s| - 1] == a + b[..n];
      assert b == b[..n] + [b[n]];
      TrimStartAppend(b[..n], [b[n]]);
      assert TrimStart([b[n]]) == TrimStart([b[n]][1..]) == TrimStart("");
      TrimEndKeeps(a, b[..n]);
    }
  }

  /** Characters that are not white space. */
  function Ink(s: string): nat {
    if s == "" then 0 else (if IsWhitespace(s[0]) then 0 else 1) + Ink(s[1..])
  }

  lemma {:induction false} InkAppend(a: string, b: string)
    ensures Ink(a + b) == Ink(a) + Ink(b)
  {
    if a == "" {
      Plus(b);
    } else {
      AppendTail(a, b);
      InkAppend(a[1..], b);
    }
  }

  lemma {:induction false} InkTrimStart(s: string)
    ensures Ink(TrimStart(s)) == Ink(s)
  {
    if s != "" && IsWhitespace(s[0]) {
      InkTrimStart(s[1..]);
    }
  }

  lemma {:induction false} InkTrimEnd(s: string)
    ensures Ink(TrimEnd(s)) == Ink(s)
  {
    if s != "" && IsWhitespace(s[|s| - 1]) {
      var init, last := s[..|s| - 1], [s[|s| - 1]];
      InkTrimEnd(init);
      InkAppend(init, last);
      assert s == init + last && last[1..] == "";
    }
  }

  lemma {:induction false} TrimEndHead(s: string)
    requires s != "" && !IsWhitespace(s[0])
    ensures TrimEnd(s) != "" && TrimEnd(s)[0] == s[0]
  {
    if |s| > 1 && IsWhitespace(s[|s| - 1]) {
      TrimEndHead(s[..|s| - 1]);
    }
  }

  lemma {:induction false} TokenEnds(t: string)
    ensures NoWhitespace(t[..TokenLength(t)])
    ensures TokenLength(t) < |t| ==> IsWhitespace(t[TokenLength(t)])
    ensures t != "" && !IsWhitespace(t[0]) ==> TokenLength(t) > 0
  {
    if t != "" && !IsWhitespace(t[0]) {
      TokenEnds(t[1..]);
      var n := TokenLength(t);
      assert t[..n] == [t[0]] + t[1..][..n - 1];
    }
  }

  lemma InkOnly(v: string)
    requires NoWhitespace(v)
    ensures forall i | 0 <= i < |v| :: !IsWhitespace(v[i])
  {
    forall i | 0 <= i < |v|
      ensures !IsWhitespace(v[i])
    {
      assert v[i] in v;
    }
  }

  /** A token cut out of an identifier's end reaches into a second copy of the identifier. */
  lemma TokenReaches(v: string, tail: string, id: string)
    requires NoWhitespace(v) && v != "" && (tail == "" || IsWhitespace(tail[0]))
    requires COMMAND + id <= v + tail && id != ""
    ensures " " + id <= tail
  {
    var token, s := COMMAND + id, v + tail;
    assert s[..|token|] == token;
    assert forall i | 0 <= i < |token| :: s[i] == token[i];
    InkOnly(v);
    assert s[6] == token[6] == ' ';
    assert |v| <= 6;
    assert s[|v|] == token[|v|];
    assert forall i | 0 <= i < 6 :: !IsWhitespace(token[i]);
    assert |v| == 6;
    assert s[6..] == tail && token[6..] == " " + id;
    assert s[6..][..|token| - 6] == token[6..];
  }

  lemma {:induction false} IdentifierPasses(v: string, tail: string, id: string)
    requires NoWhitespace(v) && (tail == "" || IsWhitespace(tail[0])) && id != ""
    ensures Without(v + tail, COMMAND + id) == v + Without(tail, COMMAND + id) || " " + id <= tail
  {
    var token := COMMAND + id;
    if v == "" {
      Plus(tail);
      Plus(Without(tail, token));
    } else if token <= v + tail {
      TokenReaches(v, tail, id);
    } else {
      AppendTail(v, tail);
      IdentifierPasses(v[1..], tail, id);
      Assoc([v[0]], v[1..], Without(tail, token));
    }
  }

  /** A second copy of the identifier keeps its first character, whatever is cut out after it. */
  lemma SecondCopyStays(tail: string, id: string)
    requires id != "" && NoWhitespace(id) && id[0] != '/' && " " + id <= tail
    ensures var left := Trim(Without(tail, COMMAND + id));
            left != "" && left[0] == id[0]
  {
    var token := COMMAND + id;
    assert tail[0] == ' ' && tail[1] == (" " + id)[1] == id[0];
    assert token[0] == '/' && !(token <= tail) && !(token <= tail[1..]);
    var z := Without(tail[2..], token);
    assert tail[1..][1..] == tail[2..];
    assert Without(tail, token) == [' '] + ([id[0]] + z);
    TrimStartWhitespace([' '], [id[0]] + z);
    assert id[0] in id;
    TrimEndHead([id[0]] + z);
  }

  /** Where nothing is cut out around the identifier, the command word is left over. */
  lemma CommandWordStays(w: string, u: string, id: string, tail: string)
    requires AllWhitespace(w) && AllWhitespace(u) && u != "" && id != "" && NoWhitespace(id)
    requires Without(id + tail, COMMAND + id) == id + Without(tail, COMMAND + id)
    ensures Trim(Without(w + (COMMAND + (u + (id + tail))), COMMAND + id)) != Trim(Without(tail, COMMAND + id))
  {
    var token, left := COMMAND + id, Without(tail, COMMAND + id);
    WordPasses(w, u, id + tail, id);
    var all := w + (COMMAND + (u + (id + left)));
    InkAppend(w, COMMAND + (u + (id + left)));
    InkAppend(COMMAND, u + (id + left));
    InkAppend(u, id + left);
    InkAppend(id, left);
    assert Ink(COMMAND) > 0;
    InkTrimStart(all);
    InkTrimEnd(TrimStart(all));
    InkTrimStart(left);
    InkTrimEnd(TrimStart(left));
  }

  /** With extra white space, nothing is cut out before the identifier. */
  lemma WordPasses(w: string, u: string, t: string, id: string)
    requires AllWhitespace(w) && AllWhitespace(u) && u != "" && id != "" && NoWhitespace(id)
    ensures Without(w + (COMMAND + (u + t)), COMMAND + id) == w + (COMMAND + (u + Without(t, COMMAND + id)))
  {
    var token := COMMAND + id;
    assert token[0] == '/';
    NoSlash(w);
    NoSlash(u);
    WithoutPlain(w, COMMAND + (u + t), token);
    WithoutPlain(u, t, token);
    WordAlone(u + t, id);
  }

  lemma WordAlone(rest: string, id: string)
    requires rest != "" && IsWhitespace(rest[0]) && id != "" && NoWhitespace(id)
    ensures Without(COMMAND + rest, COMMAND + id) == COMMAND + Without(rest, COMMAND + id)
  {
    var s, token := COMMAND + rest, COMMAND + id;
    assert s[|COMMAND|] == rest[0] && token[|COMMAND|] == id[0] && id[0] in id;
    assert !(token <= s);
    assert s[1..] == COMMAND[1..] + rest;
    assert '/' !in COMMAND[1..];
    WithoutPlain(COMMAND[1..], rest, token);
    Assoc([s[0]], COMMAND[1..], Without(rest, token));
    assert [s[0]] + COMMAND[1..] == COMMAND;
  }

  /** What was read: the text after the command word, the identifier and what follows it. */
  function AfterWord(text: string): string
    requires COMMAND <= TrimStart(text)
  {
    TrimStart(text)[|COMMAND|..]
  }

  function Identifier(rest: string): string {
    TrimStart(rest)[..TokenLength(TrimStart(rest))]
  }

  function AfterIdentifier(rest: string): string {
    TrimStart(rest)[TokenLength(TrimStart(rest))..]
  }

  lemma WhatWasRead(text: string) returns (w: string, u: string)
    requires ExtractCommand(text).Some?
    ensures var rest := AfterWord(text);
            var id, tail := Identifier(rest), AfterIdentifier(rest);
            && AllWhitespace(w) && AllWhitespace(u) && rest == u + (id + tail) && text == w + (COMMAND + rest)
            && id != "" && NoWhitespace(id) && id[0] != '/' && (tail == "" || IsWhitespace(tail[0]))
            && (u == "" <==> !IsWhitespace(rest[0]))
            && ExtractCommand(text).value.1 == NonEmpty(Trim(Without(text, COMMAND + id)))
  {
    var rest := AfterWord(text);
    w := TrimStartSplit(text);
    u := RestParts(rest);
    assert text == w + (COMMAND + rest);
  }

  lemma RestParts(rest: string) returns (u: string)
    requires rest != ""
    ensures var id, tail := Identifier(rest), AfterIdentifier(rest);
            && AllWhitespace(u) && rest == u + (id + tail) && NoWhitespace(id)
            && (tail == "" || IsWhitespace(tail[0]))
            && (u == "" <==> !IsWhitespace(rest[0]))
  {
    u := TrimStartSplit(rest);
    TokenEnds(TrimStart(rest));
    TakeDrop(TrimStart(rest), TokenLength(TrimStart(rest)));
    assert u != "" ==> u[0] in u && rest[0] == u[0];
    assert u == "" ==> rest == TrimStart(rest);
    TrimStartPlain(rest);
  }

  /** Which texts are commands: white space, the command word, any more white space, a provider without
      a slash, a slash, a model, and then nothing or something after white space. */
  lemma RecognisedIff(text: string, cmd: Command)
    ensures ExtractCommand(text).Some? && ExtractCommand(text).value.0 == cmd <==>
              exists w, u, tail ::
                && text == w + ("/model " + (u + (cmd.provider + "/" + cmd.model + tail)))
                && CommandParts(w, u, cmd, tail)
  {
    if ExtractCommand(text).Some? && ExtractCommand(text).value.0 == cmd {
      var rest := AfterWord(text);
      var w, u := WhatWasRead(text);
      var id, tail := Identifier(rest), AfterIdentifier(rest);
      assert id == cmd.provider + "/" + cmd.model by {
        IdentifierParts(id);
      }
      assert cmd.provider != "" && cmd.model != "" && '/' !in cmd.provider;
      PartsPlain(cmd.provider, cmd.model);
      assert CommandParts(w, u, cmd, tail);
    }
    if w, u, tail :| text == w + (COMMAND + (u + (cmd.provider + "/" + cmd.model + tail))) && CommandParts(w, u, cmd, tail) {
      Recognised(w, u, cmd, tail);
    }
  }

  predicate CommandParts(w: string, u: string, cmd: Command, tail: string) {
    && AllWhitespace(w) && AllWhitespace(u) && (tail == "" || IsWhitespace(tail[0]))
    && cmd.provider != "" && NoWhitespace(cmd.provider) && '/' !in cmd.provider
    && cmd.model != "" && NoWhitespace(cmd.model)
  }

  lemma IdentifierParts(id: string)
    requires SplitOnce(id, '/').Some?
    ensures var (p, m) := SplitOnce(id, '/').value;
            id == p + "/" + m && '/' !in p
  {
  }

  lemma PartsPlain(p: string, m: string)
    requires NoWhitespace(p + "/" + m)
    ensures NoWhitespace(p) && NoWhitespace(m)
  {
    var id := p + "/" + m;
    assert forall c | c in p :: c in id;
    assert forall c | c in m :: c in id;
  }

  lemma Recognised(w: string, u: string, cmd: Command, tail: string)
    requires CommandParts(w, u, cmd, tail)
    ensures var text := w + (COMMAND + (u + (cmd.provider + "/" + cmd.model + tail)));
            ExtractCommand(text).Some? && ExtractCommand(text).value.0 == cmd
  {
    var id := cmd.provider + "/" + cmd.model;
    WordFound(w, u + (id + tail));
    assert id[0] == cmd.provider[0];
    TokenFound(u, id, tail);
    SplitIdentifier(cmd.provider, cmd.model);
  }

  /** Stripping does what it promises - the command it read is gone, and of what follows only further
      copies of the token - if and only if exactly one space follows the command word. */
  lemma StrippedIff(text: string)
    requires ExtractCommand(text).Some?
    ensures var rest := AfterWord(text);
            var promised := NonEmpty(Trim(Without(AfterIdentifier(rest), COMMAND + Identifier(rest))));
            rest != "" && (ExtractCommand(text).value.1 == promised <==> !IsWhitespace(rest[0]))
  {
    var rest := AfterWord(text);
    var id, tail := Identifier(rest), AfterIdentifier(rest);
    var w, u := WhatWasRead(text);
    if u == "" {
      assert text == w + (COMMAND + id + tail) by {
        Plus(id + tail);
        Assoc(COMMAND, id, tail);
      }
      StrippingRemovesToken(text, w, id, tail);
    } else {
      StrippingMissesExtraSpace(text);
      IdentifierPasses(id, tail, id);
      if " " + id <= tail {
        SecondCopyStays(tail, id);
      } else {
        CommandWordStays(w, u, id, tail);
      }
    }
  }

  /** For instance `/model  a/b`, with two spaces: it is obeyed and passed on whole. */
  lemma ExtraSpaceKeepsAll(u: string, p: string, m: string)
    requires AllWhitespace(u) && u != ""
    requires p != "" && NoWhitespace(p) && '/' !in p
    requires m != "" && NoWhitespace(m)
    ensures var text := COMMAND + (u + (p + "/" + m));
            ExtractCommand(text) == Some((Command(p, m), Some(text)))
  {
    var id := p + "/" + m;
    var text := COMMAND + (u + id);
    IdentifierRead(u, id);
    SplitIdentifier(p, m);
    NothingCut(u, id);
  }

  lemma NothingCut(u: string, id: string)
    requires AllWhitespace(u) && u != "" && NoWhitespace(id) && id != ""
    ensures var text := COMMAND + (u + id);
            Trim(Without(text, COMMAND + id)) == text
  {
    var text := COMMAND + (u + id);
    WithoutAbsent(id, COMMAND + id);
    WordPasses("", u, id, id);
    Plus(text);
    InkOnly(id);
    assert text[0] == '/' && TrimStart(text) == text;
    TrimEndStays(text);
  }

  lemma IdentifierRead(u: string, id: string)
    requires AllWhitespace(u) && NoWhitespace(id) && id != ""
    ensures var text := COMMAND + (u + id);
            TrimStart(text) == text && FirstToken(text[|COMMAND|..]) == Some(id)
  {
    WordFound("", u + id);
    Plus(COMMAND + (u + id));
    TokenFound(u, id, "");
    Plus(id);
  }

  // ----- Messages -----

  /** What to do with the matched message. */
  datatype Target =
    | Content(remainder: Option<string>)
    | Block(index: nat, rest: Option<string>)

  /** The first text block that carries a command. */
  function BlockCommand(blocks: seq<Value>): Option<(nat, Command, Option<string>)> {
    if blocks == [] then None
    else
      var text := if Json.GetStr(blocks[0], "type") == Some("text") then Json.GetStr(blocks[0], "text") else None;
      var here := if text.Some? then ExtractCommand(text.value) else None;
      match here
      case Some(found) => Some((0, found.0, found.1))
      case None =>
        var later :- BlockCommand(blocks[1..]);
        Some((later.0 + 1, later.1, later.2))
  }

  function MessageCommand(m: Value): Option<(Command, Target)> {
    if Json.GetStr(m, "role") != Some("user") then None
    else
      match Json.Get(m, "content")
      case Some(Str(s)) =>
        var found :- ExtractCommand(s);
        Some((found.0, Content(found.1)))
      case Some(Arr(blocks)) =>
        var found :- BlockCommand(blocks);
        Some((found.1, Block(found.0, found.2)))
      case _ => None
  }

  /** The first user message that carries a command. */
  function FindCommand(messages: seq<Value>): Option<(nat, Command, Target)> {
    if messages == [] then None
    else
      match MessageCommand(messages[0])
      case Some(found) => Some((0, found.0, found.1))
      case None =>
        var later :- FindCommand(messages[1..]);
        Some((later.0 + 1, later.1, later.2))
  }

  function Removed<T>(s: seq<T>, i: nat): seq<T>
    requires i < |s|
  {
    s[..i] + s[i + 1..]
  }

  /** The matched message without its command; none if nothing is left of it. */
  function StrippedMessage(m: Value, target: Target): Option<Value> {
    match target
    case Content(None) => None
    case Content(Some(rem)) => if m.Obj? then Some(Json.Set(m, "content", Json.Str(rem))) else None
    case Block(i, rest) =>
      var blocks := Json.AsArray(Json.Get(m, "content")).GetOr([]);
      if !(i < |blocks|) || !m.Obj? || !Json.Indexable(blocks[i]) then None
      else
        var kept := match rest
                    case Some(rem) => blocks[i := Json.Set(blocks[i], "text", Json.Str(rem))]
                    case None => Removed(blocks, i);
        if kept == [] then None else Some(Json.Set(m, "content", Json.Arr(kept)))
  }

  function StrippedMessages(messages: seq<Value>, i: nat, target: Target): seq<Value>
    requires i < |messages|
  {
    match StrippedMessage(messages[i], target)
    case Some(m) => messages[i := m]
    case None => Removed(messages, i)
  }

  /** The command found in a body and the body left behind. */
  function Parsed(body: Value): (Option<Command>, Value) {
    match Messages(body)
    case None => (None, body)
    case Some(messages) =>
      match FindCommand(messages)
      case None => (None, body)
      case Some(found) =>
        if !(found.0 < |messages|) || !body.Obj? then (None, body)
        else (Some(found.1), Json.Set(body, "messages", Json.Arr(StrippedMessages(messages, found.0, found.2))))
  }

  lemma {:induction false} BlockFound(blocks: seq<Value>)
    ensures BlockCommand(blocks).Some? ==>
              var i := BlockCommand(blocks).value.0;
              i < |blocks| && blocks[i].Obj?
  {
    if blocks != [] {
      BlockFound(blocks[1..]);
    }
  }

  lemma {:induction false} CommandFound(messages: seq<Value>)
    ensures FindCommand(messages).Some? ==>
              var (i, cmd, target) := FindCommand(messages).value;
              && i < |messages| && MessageCommand(messages[i]) == Some((cmd, target))
              && forall j | 0 <= j < i :: MessageCommand(messages[j]).None?
    ensures FindCommand(messages).None? ==> forall j | 0 <= j < |messages| :: MessageCommand(messages[j]).None?
  {
    if messages != [] {
      CommandFound(messages[1..]);
      if MessageCommand(messages[0]).None? {
        assert forall j | 0 < j < |messages| :: messages[j] == messages[1..][j - 1];
      }
    }
  }

  /** Commands are found by position: the first message with one, and nothing before it. */
  lemma {:induction false} FindCommandAt(messages: seq<Value>, i: nat)
    requires i < |messages| && MessageCommand(messages[i]).Some?
    requires forall j | 0 <= j < i :: MessageCommand(messages[j]).None?
    ensures FindCommand(messages) == Some((i, MessageCommand(messages[i]).value.0, MessageCommand(messages[i]).value.1))
  {
    if i > 0 {
      FindCommandAt(messages[1..], i - 1);
    }
  }

  lemma {:induction false} FindCommandNone(messages: seq<Value>)
    requires forall j | 0 <= j < |messages| :: MessageCommand(messages[j]).None?
    ensures FindCommand(messages).None?
  {
    if messages != [] {
      FindCommandNone(messages[1..]);
    }
  }

  /** Only what stands at `i` is different. */
  predicate ChangedAt<T(==)>(was: seq<T>, now: seq<T>, i: nat) {
    |now| == |was| && forall j | 0 <= j < |was| && j != i :: now[j] == was[j]
  }

  /** What stood at `i` is gone, everything else is there in order. */
  predicate GoneAt<T(==)>(was: seq<T>, now: seq<T>, i: nat) {
    && |now| + 1 == |was|
    && (forall j | 0 <= j < i && j < |now| :: now[j] == was[j])
    && (forall j | i <= j < |now| :: now[j] == was[j + 1])
  }

  /** The field is replaced and every other field stays. */
  ghost predicate FieldIs(was: Value, now: Value, field: string, x: Value) {
    now.Obj? && Json.Get(now, field) == Some(x) && forall f | f != field :: Json.Get(now, f) == Json.Get(was, f)
  }

  /** What stripping leaves of the list: every message but the matched one stays where it was. The
      matched one goes if nothing remains of it: its string is used up, or its only block is. Otherwise
      it keeps the remainder, in its string or in the matched block, and an emptied block alone goes. */
  lemma StrippedIs(messages: seq<Value>, i: nat, cmd: Command, target: Target)
    requires i < |messages| && MessageCommand(messages[i]) == Some((cmd, target))
    ensures var left := StrippedMessages(messages, i, target);
            if NothingRemains(messages[i], target) then GoneAt(messages, left, i)
            else ChangedAt(messages, left, i) && Remains(messages[i], left[i], target)
  {
    MessageRemains(messages[i], cmd, target);
    if StrippedMessage(messages[i], target).None? {
      RemovedIsGone(messages, i);
    }
  }

  lemma MessageRemains(m: Value, cmd: Command, target: Target)
    requires MessageCommand(m) == Some((cmd, target))
    ensures NothingRemains(m, target) <==> StrippedMessage(m, target).None?
    ensures !NothingRemains(m, target) ==> Remains(m, StrippedMessage(m, target).value, target)
  {
    match target
    case Content(_) =>
    case Block(bi, rest) =>
      BlockFound(Blocks(m));
      BlocksKept(m, bi, rest);
  }

  lemma RemovedIsGone<T>(s: seq<T>, i: nat)
    requires i < |s|
    ensures GoneAt(s, Removed(s, i), i)
  {
  }

  predicate NothingRemains(m: Value, target: Target) {
    match target
    case Content(rem) => rem.None?
    case Block(_, rest) => rest.None? && |Blocks(m)| == 1
  }

  function Blocks(m: Value): seq<Value> {
    Json.AsArray(Json.Get(m, "content")).GetOr([])
  }

  /** The matched message before and after. */
  ghost predicate Remains(m: Value, now: Value, target: Target) {
    match target
    case Content(rem) => rem.Some? && FieldIs(m, now, "content", Json.Str(rem.value))
    case Block(bi, rest) =>
      && FieldIs(m, now, "content", Json.Arr(Blocks(now)))
      && bi < |Blocks(m)|
      && (match rest
          case None => GoneAt(Blocks(m), Blocks(now), bi)
          case Some(rem) =>
            ChangedAt(Blocks(m), Blocks(now), bi) && FieldIs(Blocks(m)[bi], Blocks(now)[bi], "text", Json.Str(rem)))
  }

  lemma BlocksKept(m: Value, bi: nat, rest: Option<string>)
    requires m.Obj? && bi < |Blocks(m)| && Blocks(m)[bi].Obj?
    ensures NothingRemains(m, Block(bi, rest)) ==> StrippedMessage(m, Block(bi, rest)).None?
    ensures !NothingRemains(m, Block(bi, rest)) ==>
              && StrippedMessage(m, Block(bi, rest)).Some?
              && Remains(m, StrippedMessage(m, Block(bi, rest)).value, Block(bi, rest))
  {
    var blocks := Blocks(m);
    match rest
    case None =>
      RemovedIsGone(blocks, bi);
    case Some(rem) =>
      assert FieldIs(blocks[bi], Json.Set(blocks[bi], "text", Json.Str(rem)), "text", Json.Str(rem));
  }

  /** Which block is matched: the first text block with a command, and its remainder is read off it. */
  lemma {:induction false} BlockCommandIs(blocks: seq<Value>)
    ensures BlockCommand(blocks).None? <==> forall j | 0 <= j < |blocks| :: !HoldsCommand(blocks[j])
    ensures BlockCommand(blocks).Some? ==>
              var (i, cmd, rest) := BlockCommand(blocks).value;
              && i < |blocks| && HoldsCommand(blocks[i])
              && ExtractCommand(Json.GetStr(blocks[i], "text").value) == Some((cmd, rest))
              && forall j | 0 <= j < i :: !HoldsCommand(blocks[j])
  {
    if blocks != [] {
      BlockCommandIs(blocks[1..]);
      assert forall j | 0 < j < |blocks| :: blocks[j] == blocks[1..][j - 1];
    }
  }

  predicate HoldsCommand(b: Value) {
    && Json.GetStr(b, "type") == Some("text") && Json.GetStr(b, "text").Some?
    && ExtractCommand(Json.GetStr(b, "text").value).Some?
  }

  /** Which messages carry a command: those of the user, whose string is one or whose array has a text
      block that is one. */
  lemma MessageCommandIff(m: Value)
    ensures MessageCommand(m).Some? <==>
              && Json.GetStr(m, "role") == Some("user")
              && ((exists s :: Json.Get(m, "content") == Some(Json.Str(s)) && ExtractCommand(s).Some?)
                  || (exists blocks: seq<Value> :: Json.Get(m, "content") == Some(Json.Arr(blocks))
                        && exists j :: 0 <= j < |blocks| && HoldsCommand(blocks[j])))
    ensures forall s :: Json.GetStr(m, "role") == Some("user") && Json.Get(m, "content") == Some(Json.Str(s))
                        && ExtractCommand(s).Some? ==>
              MessageCommand(m) == Some((ExtractCommand(s).value.0, Content(ExtractCommand(s).value.1)))
  {
    var content := Json.Get(m, "content");
    if content.Some? && content.value.Arr? {
      BlockCommandIs(content.value.items);
    }
  }

  /** As a conversation grows, its command stays: the extended list yields the same command, and
      stripping it is stripping the shorter list and appending. */
  lemma CommandSurvivesGrowth(messages: seq<Value>, more: seq<Value>)
    requires FindCommand(messages).Some?
    ensures FindCommand(messages).value.0 < |messages|
    ensures FindCommand(messages + more) == FindCommand(messages)
    ensures var (i, cmd, target) := FindCommand(messages).value;
            StrippedMessages(messages + more, i, target) == StrippedMessages(messages, i, target) + more
  {
    CommandFound(messages);
    var (i, cmd, target) := FindCommand(messages).value;
    FindGrows(messages, more, i);
    StripGrows(messages, more, i, target);
  }

  lemma FindGrows(messages: seq<Value>, more: seq<Value>, i: nat)
    requires i < |messages| && MessageCommand(messages[i]).Some?
    requires forall j | 0 <= j < i :: MessageCommand(messages[j]).None?
    ensures FindCommand(messages + more) == FindCommand(messages)
  {
    var all := messages + more;
    assert forall j | 0 <= j <= i :: all[j] == messages[j];
    FindCommandAt(messages, i);
    FindCommandAt(all, i);
  }

  lemma StripGrows(messages: seq<Value>, more: seq<Value>, i: nat, target: Target)
    requires i < |messages|
    ensures StrippedMessages(messages + more, i, target) == StrippedMessages(messages, i, target) + more
  {
    var all := messages + more;
    match StrippedMessage(messages[i], target)
    case Some(m) =>
      assert all[i := m] == messages[i := m] + more;
    case None =>
      assert all[..i] == messages[..i] && all[i + 1..] == messages[i + 1..] + more;
      Assoc(messages[..i], messages[i + 1..], more);
  }

  /** The same for whole request bodies. */
  lemma BodyGrowth(body: Value, longer: Value, more: seq<Value>)
    requires Messages(body).Some? && Messages(longer) == Some(Messages(body).value + more)
    requires Parsed(body).0.Some?
    ensures Parsed(longer).0 == Parsed(body).0
    ensures Messages(Parsed(body).1).Some?
    ensures Messages(Parsed(longer).1) == Some(Messages(Parsed(body).1).value + more)
  {
    CommandSurvivesGrowth(Messages(body).value, more);
  }

  // ----- In place -----

  /** `parse_and_strip` */
  method ParseAndStrip(body: Body) returns (cmd: Option<Command>)
    modifies body
    ensures (cmd, body.json) == Parsed(old(body.json))
    ensures cmd.None? ==> body.json == old(body.json)
  {
    var found := Messages(body.json);
    if found.None? {
      return None;
    }
    var messages := found.value;
    CommandFound(messages);
    var i := 0;
    while i < |messages|
      invariant 0 <= i <= |messages|
      invariant body.json == old(body.json)
      invariant forall j | 0 <= j < i :: MessageCommand(messages[j]).None?
    {
      var hit := MatchMessage(messages[i]);
      if hit.Some? {
        FindCommandAt(messages, i);
        var stripped := ApplyStrip(messages, i, hit.value.1);
        body.json := Json.Set(body.json, "messages", Json.Arr(stripped));
        return Some(hit.value.0);
      }
      i := i + 1;
    }
    FindCommandNone(messages);
    return None;
  }

  /** The cases for one message: a plain string, or an array of blocks scanned in order. */
  method MatchMessage(m: Value) returns (hit: Option<(Command, Target)>)
    ensures hit == MessageCommand(m)
  {
    if Json.GetStr(m, "role") != Some("user") {
      return None;
    }
    var content := Json.Get(m, "content");
    if content.None? {
      return None;
    }
    if content.value.Str? {
      var found := ExtractCommand(content.value.s);
      return if found.Some? then Some((found.value.0, Content(found.value.1))) else None;
    }
    if !content.value.Arr? {
      return None;
    }
    var blocks := content.value.items;
    var bi := 0;
    while bi < |blocks|
      invariant 0 <= bi <= |blocks|
      invariant BlockCommand(blocks)
             == match BlockCommand(blocks[bi..])
                case None => None
                case Some(later) => Some((later.0 + bi, later.1, later.2))
    {
      assert blocks[bi..][0] == blocks[bi] && blocks[bi..][1..] == blocks[bi + 1..];
      var isText := Json.GetStr(blocks[bi], "type") == Some("text");
      var text := Json.GetStr(blocks[bi], "text");
      if text.Some? && isText {
        var found := ExtractCommand(text.value);
        if found.Some? {
          return Some((found.value.0, Block(bi, found.value.1)));
        }
      }
      bi := bi + 1;
    }
    return None;
  }

  method ApplyStrip(messages: seq<Value>, i: nat, target: Target) returns (left: seq<Value>)
    requires i < |messages|
    requires exists cmd :: MessageCommand(messages[i]) == Some((cmd, target))
    ensures left == StrippedMessages(messages, i, target)
  {
    match target {
      case Content(remainder) =>
        if remainder.Some? {
          return messages[i := Json.Set(messages[i], "content", Json.Str(remainder.value))];
        }
        return Removed(messages, i);
      case Block(index, rest) =>
        var blocks := Json.Get(messages[i], "content").value.items;
        BlockFound(blocks);
        if rest.Some? {
          blocks := blocks[index := Json.Set(blocks[index], "text", Json.Str(rest.value))];
        } else {
          blocks := Removed(blocks, index);
        }
        if blocks == [] {
          return Removed(messages, i);
        }
        return messages[i := Json.Set(messages[i], "content", Json.Arr(blocks))];
    }
  }
}
