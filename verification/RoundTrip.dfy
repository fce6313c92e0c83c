/** Main results about the event record: which events survive printing and parsing,
    that printing never truncates, and that the hash input determines what it covers. */
module RoundTrip {
  import opened CStrings
  import opened JsonFields
  import opened Event
  import opened EventProofs

  // --- the exact round trip ---------------------------------------------------------------

  lemma PlainReread(v: string)
    requires QUOTE !in v && BACKSLASH !in v && |v| < COMMAND_MAX
    ensures CommandReread(v) == v
  {
    assert v + "\",\"" == v + ("\"" + ",\"");
    CommandStops(v, ",\"", COMMAND_MAX - 1);
  }

  lemma RereadReadable(ev: Event)
    requires Representable(ev) && AllQuoteFree(ev) && Readable(ev)
    ensures Reread(ev) == ev
  {
    PlainReread(ev.command);
  }

  /** Dropping backslashes never yields a text that has more of them in front. */
  lemma {:induction false} NoShift(u: string, w: string, rest: string, max: nat)
    requires u != [] && forall c | c in u :: c == BACKSLASH
    ensures UnescapeRun(w + ("\"" + rest), max) != u + w
    decreases |w|
  {
    var s := w + ("\"" + rest);
    if UnescapeRun(s, max) == u + w {
      assert u[0] in u && UnescapeRun(s, max)[0] == u[0] == BACKSLASH;
      assert |w| > 1 && w[0] == BACKSLASH && w[1] == BACKSLASH;
      assert s[2..] == w[2..] + ("\"" + rest);
      var u' := u[1..] + w[..2];
      assert w[..2] == [BACKSLASH, BACKSLASH];
      assert forall k | 0 <= k < |u'| :: u'[k] in u;
      assert (u + w)[1..] == u' + w[2..];
      NoShift(u', w[2..], rest, max - 1);
    }
  }

  /** The command's copy loop returns a text unchanged only if it has no quote and no backslash. */
  lemma {:induction false} CopiesUnchanged(v: string, rest: string, max: nat)
    requires UnescapeRun(v + ("\"" + rest), max) == v
    ensures QUOTE !in v && BACKSLASH !in v
  {
    var s := v + ("\"" + rest);
    if v != [] {
      assert s[1..] == v[1..] + ("\"" + rest);
      if v[0] == BACKSLASH {
        assert UnescapeRun(s, max)[0] == s[1] == BACKSLASH;
        assert |v| > 1;
        assert s[2..] == v[2..] + ("\"" + rest);
        assert UnescapeRun(s[2..], max - 1) == v[1..] == [BACKSLASH] + v[2..];
        NoShift([BACKSLASH], v[2..], rest, max - 1);
      } else {
        CopiesUnchanged(v[1..], rest, max - 1);
      }
    }
  }

  lemma CommandFoundAt(ev: Event)
    requires QUOTE !in ev.event_type
    ensures FoundAt(AllFields(ev), 1)
  {
    FieldFacts(ev, 1);
    PatternIsKey(ev, 1);
    PatternOpens(AllFields(ev)[1]);
    QuoteFreeBringsNone(ev.event_type, "command", PATTERNS[1]);
    FoundUnlessBroughtIn(ev, 1);
  }

  /** A successful search for the command of a type without quotes starts at the command. */
  lemma CommandFound(ev: Event)
    requires QUOTE !in ev.event_type
    ensures After(JsonText(ev), COMMAND_KEY) == Some(ev.command + ("\"" + Following(AllFields(ev), 1, "}")))
  {
    CommandFoundAt(ev);
    CommandMember(ev);
    hide FoundAt, Pattern, AllFields, Following;
    SearchLands(AllFields(ev), 1);
    Reassociate(ev.command, "\"", Following(AllFields(ev), 1, "}"));
  }

  /** Whatever reads back as itself has no quotes, no backslash in the command, and no negative pid. */
  lemma ReadsBackOnlyPlain(ev: Event)
    ensures ParseEvent(JsonText(ev)) == (0, ev) ==> AllQuoteFree(ev) && Readable(ev)
  {
    if ParseEvent(JsonText(ev)) == (0, ev) {
      ParseIsSearch(JsonText(ev), ev);
      CommandFound(ev);
      CopiesUnchanged(ev.command, Following(AllFields(ev), 1, "}"), COMMAND_MAX - 1);
    }
  }

  /** Over every record the program can hold (and a return code the parser can negate),
      printing and then parsing gives the record back exactly when no field has a quote,
      the command has no backslash and the pid is not negative. */
  lemma RoundTripExact(ev: Event)
    requires Representable(ev) && ev.return_code != -INT_MAX - 1
    ensures ParseEvent(JsonText(ev)) == (0, ev) <==> AllQuoteFree(ev) && Readable(ev)
  {
    if AllQuoteFree(ev) && Readable(ev) {
      ParsePrinted(ev);
      RereadReadable(ev);
    }
    ReadsBackOnlyPlain(ev);
  }

  /** A text with a backslash in front of every quote and backslash. */
  function Slashed(v: string): string
  {
    if v == "" then ""
    else (if v[0] == QUOTE || v[0] == BACKSLASH then [BACKSLASH, v[0]] else [v[0]]) + Slashed(v[1..])
  }

  lemma UnescapeFirst(c: char, more: string, max: nat)
    requires max > 0
    ensures UnescapeRun((if c == QUOTE || c == BACKSLASH then [BACKSLASH, c] else [c]) + more, max) ==
            [c] + UnescapeRun(more, max - 1)
  {
    var first := if c == QUOTE || c == BACKSLASH then [BACKSLASH, c] else [c];
    Parts(first, more);
  }

  /** The command's copy loop undoes that, up to the first quote without a backslash, and cuts
      the result to its bound. */
  lemma {:induction false} UnescapeInverts(v: string, rest: string, max: nat)
    ensures UnescapeRun(Slashed(v) + ("\"" + rest), max) == if |v| <= max then v else v[..max]
  {
    var end := "\"" + rest;
    if v == "" {
      assert "" + end == end;
    } else if max > 0 {
      var first := if v[0] == QUOTE || v[0] == BACKSLASH then [BACKSLASH, v[0]] else [v[0]];
      Reassociate(first, Slashed(v[1..]), end);
      UnescapeFirst(v[0], Slashed(v[1..]) + end, max);
      UnescapeInverts(v[1..], rest, max - 1);
      hide UnescapeRun, Slashed;
      assert v == [v[0]] + v[1..];
    }
  }

  /** The other copy loops take all there is up to the quote, the end or the bound. */
  lemma {:induction false} CopyRunEnds(s: string, max: nat)
    ensures var r := CopyRun(s, max);
            |r| == max || r == s || s[|r|] == QUOTE
  {
    if s != "" && s[0] != QUOTE && max > 0 {
      CopyRunEnds(s[1..], max - 1);
      assert [s[0]] + s[1..] == s;
    }
  }

  /** A backslash in front of a plain command is dropped. */
  lemma EscapeDropped(c: string)
    requires c != "" && QUOTE !in c && BACKSLASH !in c && |c| < COMMAND_MAX
    ensures CommandReread([BACKSLASH] + c) == c
  {
    var s := ([BACKSLASH] + c) + "\",\"";
    assert s[0] == BACKSLASH && s[1] == c[0];
    assert s[2..] == c[1..] + ("\"" + ",\"");
    CommandStops(c[1..], ",\"", COMMAND_MAX - 2);
  }

  /** A record that is not read back: the command `\ls` is read as `ls`. */
  lemma BackslashIsLost() returns (ev: Event)
    ensures Representable(ev) && AllQuoteFree(ev) && ev.command == "\\ls"
    ensures ParseEvent(JsonText(ev)) == (0, ev.(command := "ls"))
  {
    hide ParseEvent, JsonText, CommandReread;
    ev := ZERO_EVENT.(command := "\\ls");
    ParsePrinted(ev);
    EscapeDropped("ls");
    assert [BACKSLASH] + "ls" == "\\ls";
  }

  // --- no truncation -----------------------------------------------------------------------

  function Total(fs: seq<Field>): nat
  {
    if fs == [] then 0 else |Member(fs[0])| + Total(fs[1..])
  }

  lemma {:induction false} RenderLength(fs: seq<Field>)
    requires fs != []
    ensures |Render(fs)| == Total(fs) + |fs| - 1
  {
    if |fs| > 1 {
      RenderLength(fs[1..]);
    } else {
      assert fs[1..] == [];
    }
  }

  lemma {:induction false} TotalAppend(fs: seq<Field>, f: Field)
    ensures Total(fs + [f]) == Total(fs) + |Member(f)|
  {
    if fs == [] {
      assert [f][1..] == [];
    } else {
      assert (fs + [f])[1..] == fs[1..] + [f];
      TotalAppend(fs[1..], f);
    }
  }

  lemma MemberLengths(ev: Event)
    requires Representable(ev)
    ensures var fs := HashFields(ev);
            && |Member(fs[0])| <= 30 && |Member(fs[1])| <= 4107 && |Member(fs[2])| <= 72
            && |Member(fs[3])| <= 17 && |Member(fs[4])| <= 1031 && |Member(fs[5])| <= 45
            && |Member(fs[6])| <= 25
  {
    IntTextLength(ev.pid);
    IntTextLength(ev.return_code);
  }

  lemma {:induction false} TotalOfSeven(fs: seq<Field>)
    requires |fs| == 7
    ensures Total(fs) == |Member(fs[0])| + |Member(fs[1])| + |Member(fs[2])| + |Member(fs[3])| +
                         |Member(fs[4])| + |Member(fs[5])| + |Member(fs[6])|
  {
    assert fs[1..][1..] == fs[2..] && fs[2..][1..] == fs[3..] && fs[3..][1..] == fs[4..];
    assert fs[4..][1..] == fs[5..] && fs[5..][1..] == fs[6..] && fs[6..][1..] == [];
    assert Total(fs[6..]) == |Member(fs[6])| + Total([]);
    assert Total(fs[5..]) == |Member(fs[5])| + |Member(fs[6])|;
    assert Total(fs[3..]) == |Member(fs[3])| + (|Member(fs[4])| + Total(fs[5..]));
    assert Total(fs[1..]) == |Member(fs[1])| + (|Member(fs[2])| + Total(fs[3..]));
  }

  /** Neither `snprintf` ever truncates: the field bounds keep the texts far below the buffers. */
  lemma NeverTruncated(ev: Event)
    requires Representable(ev)
    ensures |CanonicalText(ev)| <= 5335 && |JsonText(ev)| <= 5409
    ensures HashInput(ev) == CanonicalText(ev)
    ensures Printed(JsonText(ev), JSON_EVENT_MAX) == JsonText(ev)
  {
    MemberLengths(ev);
    TotalOfSeven(HashFields(ev));
    RenderLength(HashFields(ev));
    TotalAppend(HashFields(ev), Text("hash", ev.hash));
    assert |Member(Text("hash", ev.hash))| <= 73;
    RenderLength(AllFields(ev));
  }

  // --- the hash input determines the hashed fields -------------------------------------------

  /** The record with the one field the hash does not cover blanked. */
  function Hashed(ev: Event): Event { ev.(hash := "") }

  lemma HashFieldFacts(a: Event, b: Event, i: nat)
    requires HashFieldsQuoteFree(a) && i < 7
    ensures SameShape(HashFields(a)[i], HashFields(b)[i]) && QuoteFree(HashFields(a)[i])
  {
    KeyPlain(i);
  }

  /** An event with quote-free fields shares its hash input only with events that agree with
      it on all seven hashed fields, whatever these hold. */
  lemma HashInputInjective(a: Event, b: Event)
    requires HashFieldsQuoteFree(a) && CanonicalText(a) == CanonicalText(b)
    ensures Hashed(a) == Hashed(b)
  {
    Cancel("{", Render(HashFields(a)) + "}", Render(HashFields(b)) + "}");
    forall i | 0 <= i < 7
      ensures SameShape(HashFields(a)[i], HashFields(b)[i]) && QuoteFree(HashFields(a)[i])
    {
      HashFieldFacts(a, b, i);
    }
    RenderDetermines(HashFields(a), HashFields(b), "}");
    SameFields(a, b);
  }

  lemma SameFields(a: Event, b: Event)
    requires forall i | 0 <= i < 7 :: HashFields(a)[i] == HashFields(b)[i]
    ensures Hashed(a) == Hashed(b)
  {
    var fs, gs := HashFields(a), HashFields(b);
    assert fs[0] == gs[0] && fs[1] == gs[1] && fs[2] == gs[2] && fs[3] == gs[3];
    assert fs[4] == gs[4] && fs[5] == gs[5] && fs[6] == gs[6];
  }

  lemma {:induction false} RenderAppend(fs: seq<Field>, gs: seq<Field>)
    requires fs != [] && gs != []
    ensures Render(fs + gs) == Render(fs) + ("," + Render(gs))
  {
    assert (fs + gs)[1..] == fs[1..] + gs;
    if |fs| == 1 {
      assert fs[1..] + gs == gs;
      Reassociate(Member(fs[0]), ",", Render(gs));
    } else {
      RenderAppend(fs[1..], gs);
      Reassociate(Member(fs[0]) + ",", Render(fs[1..]), "," + Render(gs));
    }
  }

  lemma TextThen(k: string, v: string, next: string)
    ensures Member(Text(k, v)) + ("," + ("\"" + next)) == "\"" + (k + "\":\"" + (v + ("\",\"" + next)))
  {
    var open := k + "\":\"";
    Reassociate("\"", k, "\":\"");
    assert Member(Text(k, v)) == (("\"" + open) + v) + "\"";
    assert "\"" + ("," + ("\"" + next)) == "\",\"" + next;
    Reassociate(("\"" + open) + v, "\"", "," + ("\"" + next));
    Reassociate("\"" + open, v, "\",\"" + next);
    Reassociate("\"", open, v + ("\",\"" + next));
  }

  lemma NumberThen(k: string, n: int, next: string)
    ensures Member(Number(k, n)) + next == "\"" + (k + "\":" + (IntText(n) + next))
  {
    var open := k + "\":";
    Reassociate("\"", k, "\":");
    assert Member(Number(k, n)) == ("\"" + open) + IntText(n);
    Reassociate("\"" + open, IntText(n), next);
    Reassociate("\"", open, IntText(n) + next);
  }

  // The hash input from the return code, the timestamp, the working directory and the pid on.

  function FromReturnCode(ev: Event): string { "return_code\":" + (IntText(ev.return_code) + "}") }

  function FromTimestamp(ev: Event): string { "timestamp\":\"" + (ev.timestamp + ("\",\"" + FromReturnCode(ev))) }

  function FromCwd(ev: Event): string { "cwd\":\"" + (ev.cwd + ("\",\"" + FromTimestamp(ev))) }

  function FromPid(ev: Event): string { "pid\":" + (IntText(ev.pid) + (",\"" + FromCwd(ev))) }

  lemma ReturnCodeFormat(ev: Event)
    ensures Render(HashFields(ev)[6..]) + "}" == "\"" + FromReturnCode(ev)
  {
    assert HashFields(ev)[6..] == [Number("return_code", ev.return_code)];
    hide Member;
    NumberThen("return_code", ev.return_code, "}");
    assert "return_code" + "\":" == "return_code\":";
  }

  lemma TimestampFormat(ev: Event)
    ensures Render(HashFields(ev)[5..]) + "}" == "\"" + FromTimestamp(ev)
  {
    FieldThen(ev, 5);
    assert HashFields(ev)[5] == Text("timestamp", ev.timestamp);
    hide Member, HashFields, FromReturnCode;
    ReturnCodeFormat(ev);
    TextThen("timestamp", ev.timestamp, FromReturnCode(ev));
    assert "timestamp" + "\":\"" == "timestamp\":\"";
  }

  lemma CwdFormat(ev: Event)
    ensures Render(HashFields(ev)[4..]) + "}" == "\"" + FromCwd(ev)
  {
    FieldThen(ev, 4);
    assert HashFields(ev)[4] == Text("cwd", ev.cwd);
    hide Member, HashFields, FromTimestamp;
    TimestampFormat(ev);
    TextThen("cwd", ev.cwd, FromTimestamp(ev));
    assert "cwd" + "\":\"" == "cwd\":\"";
  }

  lemma PidFormat(ev: Event)
    ensures Render(HashFields(ev)[3..]) + "}" == "\"" + FromPid(ev)
  {
    FieldThen(ev, 3);
    assert HashFields(ev)[3] == Number("pid", ev.pid);
    hide Member, HashFields, FromCwd;
    CwdFormat(ev);
    NumberThen("pid", ev.pid, "," + ("\"" + FromCwd(ev)));
    CommaQuote(FromCwd(ev));
    assert "pid" + "\":" == "pid\":";
  }

  lemma CommaQuote(next: string)
    ensures "," + ("\"" + next) == ",\"" + next
  {
    assert "," + "\"" == ",\"";
    Reassociate(",", "\"", next);
  }

  lemma FieldThen(ev: Event, i: nat)
    requires i < 6
    ensures Render(HashFields(ev)[i..]) + "}" ==
            Member(HashFields(ev)[i]) + ("," + (Render(HashFields(ev)[i + 1..]) + "}"))
  {
    var fs := HashFields(ev);
    assert fs[i..][1..] == fs[i + 1..];
    RenderTail(fs[i..], "}");
  }

  lemma UserFormat(ev: Event)
    ensures Render(HashFields(ev)[2..]) + "}" == "\"" + ("user\":\"" + (ev.user + ("\",\"" + FromPid(ev))))
  {
    FieldThen(ev, 2);
    assert HashFields(ev)[2] == Text("user", ev.user);
    hide Member, HashFields, FromPid;
    PidFormat(ev);
    TextThen("user", ev.user, FromPid(ev));
    assert "user" + "\":\"" == "user\":\"";
  }

  lemma CommandFormat(ev: Event, next: string)
    requires Render(HashFields(ev)[2..]) + "}" == "\"" + next
    ensures Render(HashFields(ev)[1..]) + "}" == "\"" + ("command\":\"" + (ev.command + ("\",\"" + next)))
  {
    FieldThen(ev, 1);
    assert HashFields(ev)[1] == Text("command", ev.command);
    hide Member, HashFields;
    TextThen("command", ev.command, next);
    assert "command" + "\":\"" == "command\":\"";
  }

  lemma TypeFormat(ev: Event, next: string)
    requires Render(HashFields(ev)[1..]) + "}" == "\"" + next
    ensures CanonicalText(ev) == "{\"" + ("event_type\":\"" + (ev.event_type + ("\",\"" + next)))
  {
    FieldThen(ev, 0);
    assert HashFields(ev)[0] == Text("event_type", ev.event_type) && HashFields(ev)[0..] == HashFields(ev);
    hide Member, HashFields;
    TextThen("event_type", ev.event_type, next);
    assert "event_type" + "\":\"" == "event_type\":\"";
    assert "{" + "\"" == "{\"";
    Reassociate("{", "\"", "event_type\":\"" + (ev.event_type + ("\",\"" + next)));
  }

  /** The hash input as its format string prints it, character by character, in the order of its
      seven fields. */
  lemma HashInputFormat(ev: Event)
    ensures CanonicalText(ev) ==
            "{\"" + ("event_type\":\"" + (ev.event_type + ("\",\"" +
            ("command\":\"" + (ev.command + ("\",\"" +
            ("user\":\"" + (ev.user + ("\",\"" +
            ("pid\":" + (IntText(ev.pid) + (",\"" +
            ("cwd\":\"" + (ev.cwd + ("\",\"" +
            ("timestamp\":\"" + (ev.timestamp + ("\",\"" +
            ("return_code\":" + (IntText(ev.return_code) + "}"))))))))))))))))))))
  {
    var user := "user\":\"" + (ev.user + ("\",\"" + FromPid(ev)));
    var command := "command\":\"" + (ev.command + ("\",\"" + user));
    UserFormat(ev);
    CommandFormat(ev, user);
    hide CanonicalText, HashFields;
    TypeFormat(ev, command);
  }

  /** The stored form is the hash input with the hash before the closing brace. */
  lemma StoredFormat(ev: Event)
    ensures CanonicalText(ev) != "" && CanonicalText(ev)[|CanonicalText(ev)| - 1] == '}'
    ensures JsonText(ev) ==
            CanonicalText(ev)[..|CanonicalText(ev)| - 1] + (",\"" + ("hash\":\"" + (ev.hash + "\"}")))
  {
    var r := Render(HashFields(ev));
    var c := CanonicalText(ev);
    assert c == ("{" + r) + "}" && c[..|c| - 1] == "{" + r;
    RenderAppend(HashFields(ev), [Text("hash", ev.hash)]);
    HashMember(ev.hash);
    hide Render, Member;
    var m := Member(Text("hash", ev.hash));
    assert JsonText(ev) == "{" + ((r + ("," + m)) + "}");
    Reassociate(r, "," + m, "}");
    Reassociate("{", r, ("," + m) + "}");
    Reassociate(",", m, "}");
  }

  lemma HashMember(hash: string)
    ensures "," + (Member(Text("hash", hash)) + "}") == ",\"" + ("hash\":\"" + (hash + "\"}"))
  {
    var open := "\"" + "hash" + "\":\"";
    Reassociate(open + hash, "\"", "}");
    Reassociate(open, hash, "\"}");
    assert "," + open == ",\"" + "hash\":\"";
    Reassociate(",", open, hash + "\"}");
    Reassociate(",\"", "hash\":\"", hash + "\"}");
  }

  /** The two printed forms of a record differ by its hash. */
  lemma EqualTexts(a: Event, b: Event)
    requires CanonicalText(a) == CanonicalText(b) && a.hash == b.hash
    ensures JsonText(a) == JsonText(b)
  {
    var h := [Text("hash", a.hash)];
    RenderAppend(HashFields(a), h);
    RenderAppend(HashFields(b), h);
    SameInside(Render(HashFields(a)), Render(HashFields(b)));
  }

  lemma SameInside(a: string, b: string)
    requires "{" + (a + "}") == "{" + (b + "}")
    ensures a == b
  {
    Cancel("{", a + "}", b + "}");
    assert (a + "}")[..|a + "}"| - 1] == a && (b + "}")[..|b + "}"| - 1] == b;
  }

  lemma JoinTwo(a: string, b: string, c: string)
    ensures a + "," + (b + "," + c) == (a + "," + b) + ("," + c)
  {
  }

  const SEAM := "\",\"user\":\""

  lemma SeamMoves(p: string, q: string, r: string)
    ensures Member(Text("command", p + SEAM + q)) + "," + Member(Text("user", r)) ==
            Member(Text("command", p)) + "," + Member(Text("user", q + SEAM + r))
  {
    var k, u := "\"" + "command" + "\":\"", "\"" + "user" + "\":\"";
    assert "\"" + "," + u == SEAM;
    assert k + (p + SEAM + q) + "\"" + "," + (u + r + "\"") == k + p + SEAM + q + SEAM + r + "\"";
    assert k + p + "\"" + "," + (u + (q + SEAM + r) + "\"") == k + p + SEAM + q + SEAM + r + "\"";
  }

  /** Without quote-freedom the hash input does not determine the fields: a command that holds
      the quotes and key of the next member reads like a user that does. */
  lemma QuotesBreakInjectivity()
    returns (a: Event, b: Event)
    ensures Representable(a) && Representable(b)
    ensures CanonicalText(a) == CanonicalText(b) && a.command != b.command
  {
    a := ZERO_EVENT.(command := "p" + SEAM + "q", user := "r");
    b := ZERO_EVENT.(command := "p", user := "q" + SEAM + "r");
    SameButForSeam(a, b, "p", "q", "r");
  }

  lemma SameButForSeam(a: Event, b: Event, p: string, q: string, r: string)
    requires a.command == p + SEAM + q && a.user == r && b == a.(command := p, user := q + SEAM + r)
    ensures CanonicalText(a) == CanonicalText(b)
  {
    var fs, gs := HashFields(a), HashFields(b);
    assert fs[0] == gs[0] && fs[3..] == gs[3..];
    assert fs[1] == Text("command", a.command) && fs[2] == Text("user", a.user);
    assert gs[1] == Text("command", b.command) && gs[2] == Text("user", b.user);
    hide Member, Render, HashFields, SEAM;
    SeamMoves(p, q, r);
    FirstThree(a);
    FirstThree(b);
  }

  lemma FirstThree(ev: Event)
    ensures var fs := HashFields(ev);
            Render(fs) == Member(fs[0]) + "," + ((Member(fs[1]) + "," + Member(fs[2])) + ("," + Render(fs[3..])))
  {
    var fs := HashFields(ev);
    assert fs[1..][1..] == fs[2..] && fs[2..][1..] == fs[3..];
    assert Render(fs[2..]) == Member(fs[2]) + "," + Render(fs[3..]);
    assert Render(fs[1..]) == Member(fs[1]) + "," + Render(fs[2..]);
    JoinTwo(Member(fs[1]), Member(fs[2]), Render(fs[3..]));
  }

  // --- events that do not read back also hash differently --------------------------------------

  /** The parser cuts a command to its buffer. */
  lemma RereadKeepsBounds(ev: Event)
    requires Representable(ev.(command := "")) && NUL !in ev.command
    ensures Representable(Reread(ev))
  {
    var s := ev.command + "\",\"";
    assert NUL !in s;
  }

  /** Printing what was read from an event, with the event's hash, never gives the event's texts
      again unless it is the event itself, and readable: reading once more would give it back. */
  lemma SameTextsReadBack(ev: Event, p: Event)
    requires p.hash == ev.hash && CanonicalText(p) == CanonicalText(ev)
    ensures ParseEvent(JsonText(ev)) == (0, p) ==> p == ev && AllQuoteFree(ev) && Readable(ev)
  {
    hide ParseEvent, JsonText, CanonicalText;
    if ParseEvent(JsonText(ev)) == (0, p) {
      EqualTexts(ev, p);
      ReadsBackOnlyPlain(p);
      HashInputInjective(p, ev);
      assert p == Hashed(p).(hash := ev.hash) && ev == Hashed(ev).(hash := ev.hash);
    }
  }

  /** An event that is not read back has a hash input of its own. */
  lemma UnreadableHashesDiffer(ev: Event)
    requires Representable(ev) && HashFieldsQuoteFree(ev) && !Readable(ev)
    ensures CanonicalText(Reread(ev)) != CanonicalText(ev)
  {
    var plain := Hashed(ev);
    ParsePrinted(plain);
    assert HashFields(plain) == HashFields(ev) && HashFields(Reread(plain)) == HashFields(Reread(ev));
    if CanonicalText(Reread(plain)) == CanonicalText(plain) {
      SameTextsReadBack(plain, Reread(plain));
    }
  }
}
