/** The tamper simulation against the integrity test: what a new command does to a printed line,
    which lines the test then reports, and which tampering it misses. */
module Tampering {
  import opened CStrings
  import opened JsonFields
  import opened Crypto
  import opened Event
  import opened EventProofs
  import opened RoundTrip
  import opened LocalLog
  import opened BrokenLines
  import opened Integrity

  // --- the rewritten line -------------------------------------------------------------------------

  /** The part of the line up to the command, and the part from its closing quote on. */
  function LineHead(ev: Event): string { "{" + (Member(AllFields(ev)[0]) + ("," + COMMAND_KEY)) }

  function LineTail(ev: Event): string { "\"" + Following(AllFields(ev), 1, "}") }

  lemma LineParts(ev: Event)
    ensures JsonText(ev) == LineHead(ev) + (ev.command + LineTail(ev))
  {
    var fs := AllFields(ev);
    var m, f := Member(fs[0]), Following(fs, 1, "}");
    RenderTail(fs, "}");
    RenderFrom(fs, 1, "}");
    CommandMember(ev);
    MemberParts(fs[1]);
    Nest(m, COMMAND_KEY, ev.command, f);
  }

  lemma Nest(m: string, key: string, cmd: string, f: string)
    ensures "{" + (m + ("," + ((key + (cmd + "\"")) + f))) == ("{" + (m + ("," + key))) + (cmd + ("\"" + f))
  {
    assert (key + (cmd + "\"")) + f == key + (cmd + ("\"" + f));
    var rest := cmd + ("\"" + f);
    assert "," + (key + rest) == ("," + key) + rest;
    assert m + (("," + key) + rest) == (m + ("," + key)) + rest;
  }

  lemma HashKeyPresent(ev: Event)
    ensures StrStr(JsonText(ev), "\"hash\"").Some?
  {
    var f := AllFields(ev)[7];
    assert "\"hash\"" <= Pattern(f);
    SearchSucceeds(AllFields(ev), 7);
    hide Object, AllFields, Pattern, ValueText, Following;
    ShorterFound(JsonText(ev), Pattern(f), "\"hash\"");
  }

  /** What starts a text that is found is found itself. */
  lemma {:induction false} ShorterFound(hay: string, pat: string, start: string)
    requires start <= pat
    ensures After(hay, pat).Some? ==> StrStr(hay, start).Some?
  {
    if StrStr(hay, pat).Some? {
      var s := StrStr(hay, pat).value;
      PrefixOfPrefix(start, pat, s);
      StrStrIsFirst(hay, start, |hay| - |s|);
    }
  }

  lemma PrefixOfPrefix(a: string, b: string, c: string)
    requires a <= b <= c
    ensures a <= c
  {
  }

  /** Changing the command changes nothing around it. */
  lemma SurroundingsKept(ev: Event, v: string)
    ensures LineHead(ev.(command := v)) == LineHead(ev) && LineTail(ev.(command := v)) == LineTail(ev)
  {
    assert AllFields(ev)[2..] == AllFields(ev.(command := v))[2..];
  }

  lemma CutAndPaste(head: string, cmd: string, tail: string, v: string)
    requires |head + (cmd + tail)| < READ_BUFFER
    ensures var line := head + (cmd + tail);
            Appended(Appended(line[..|line| - |cmd + tail|], v), tail) == Printed(head + (v + tail), READ_BUFFER)
  {
    Parts(head, cmd + tail);
    Reassociate(head, v, tail);
    AppendedTwice(head, v, tail);
  }

  lemma AppendedOnce(head: string, tail: string)
    requires |head| < READ_BUFFER
    ensures Appended(head, tail) == Printed(head + tail, READ_BUFFER)
  {
    var room := READ_BUFFER - |head| - 1;
    if |tail| > room {
      assert (head + tail)[..READ_BUFFER - 1] == head + tail[..room];
    }
  }

  lemma AppendedTwice(head: string, v: string, tail: string)
    requires |head| < READ_BUFFER
    ensures Appended(Appended(head, v), tail) == Printed((head + v) + tail, READ_BUFFER)
  {
    AppendedOnce(head, v);
    var cut := Appended(head, v);
    AppendedOnce(cut, tail);
    if |head + v| >= READ_BUFFER {
      assert (cut + tail)[..READ_BUFFER - 1] == cut;
      assert ((head + v) + tail)[..READ_BUFFER - 1] == (head + v)[..READ_BUFFER - 1];
    }
  }

  /** Tampering with the printed form of an event without quotes in its type and command replaces
      the command and nothing else, whatever the new value holds, cut to the line buffer. */
  lemma TamperReplacesCommand(ev: Event, v: string)
    requires Representable(ev) && QUOTE !in ev.event_type && QUOTE !in ev.command
    ensures Tamperable(JsonText(ev)) && |JsonText(ev)| < READ_BUFFER
    ensures TamperedLine(JsonText(ev), v) == Printed(JsonText(ev.(command := v)), READ_BUFFER)
  {
    hide JsonText, LineHead, LineTail, Printed;
    NeverTruncated(ev);
    HashKeyPresent(ev);
    CommandFoundTail(ev);
    LineParts(ev);
    LineParts(ev.(command := v));
    SurroundingsKept(ev, v);
    CutAndPaste(LineHead(ev), ev.command, LineTail(ev), v);
  }

  lemma CommandFoundTail(ev: Event)
    requires QUOTE !in ev.event_type && QUOTE !in ev.command
    ensures After(JsonText(ev), COMMAND_KEY) == Some(ev.command + LineTail(ev))
    ensures StrChr(ev.command + LineTail(ev), QUOTE) == Some(LineTail(ev))
  {
    CommandFound(ev);
    StrChrStops(ev.command, Following(AllFields(ev), 1, "}"));
  }

  // --- its verdict --------------------------------------------------------------------------------

  /** The members of a tampered event are still found first unless the value brings their keys in. */
  lemma FoundDespite(ev: Event, v: string, j: nat)
    requires AllQuoteFree(ev) && j < 8 && (1 < j ==> !BringsIn(v, PATTERNS[j]))
    ensures FoundAt(AllFields(ev.(command := v)), j)
  {
    var fs := AllFields(ev.(command := v));
    hide BringsIn, FoundAt;
    PatternStarts(j);
    forall i | 0 <= i < j && fs[i].Text? ensures !BringsIn(fs[i].text, PATTERNS[j]) {
      if i != 1 {
        assert fs[i] == AllFields(ev)[i];
        FieldFacts(ev, i);
        QuoteFreeBringsNone(fs[i].text, KEYS[j], PATTERNS[j]);
      }
    }
    FoundUnlessBroughtIn(ev.(command := v), j);
  }

  lemma ParseTampered(ev: Event, v: string)
    requires Representable(ev) && AllQuoteFree(ev) && !BringsInKey(v, 2)
    ensures ParseEvent(JsonText(ev.(command := v))) == (0, Reread(ev.(command := v)))
  {
    var fs := AllFields(ev.(command := v));
    hide FoundAt, BringsIn, ParseEvent, Reread;
    forall j | 0 <= j < 8 ensures FoundAt(fs, j) {
      FoundDespite(ev, v, j);
    }
    ParseObject(fs, ev.(command := v), [0, 1, 2, 3, 4, 5, 6, 7]);
  }

  /** The verdict on a tampered line.  A value that does not bring the hash's key in passes exactly
      when the old event is read, or by a collision; one that brings none of the later keys in is
      itself what is read as the command.  Quotes, newlines and any length are allowed. */
  lemma TamperVerdict(sha: Digest, ev: Event, v: string)
    requires Genuine(sha, ev) && NUL !in v
    ensures var ev' := ev.(command := v);
            var (rc, p) := ParseEvent(JsonText(ev'));
            && rc == 0
            && (!BringsIn(v, HASH_KEY) ==>
                  (Passes(sha, JsonText(ev')) <==> p == ev || Collides(sha, CanonicalText(ev), HashInput(p))))
            && (!BringsInKey(v, 2) ==>
                  (Passes(sha, JsonText(ev')) <==>
                     || (CommandReread(v) == ev.command && 0 <= ev.pid)
                     || Collides(sha, CanonicalText(ev), CanonicalText(Reread(ev')))))
  {
    hide ParseEvent, JsonText, CanonicalText, Passes, Collides, CommandReread, BringsIn, BringsInKey, FoundAt;
    hide HashOf, HashInput;
    var ev' := ev.(command := v);
    GenuineHash(sha, ev);
    ParseSucceeds(ev');
    VerdictByHash(sha, ev, JsonText(ev'));
    if !BringsIn(v, HASH_KEY) { HashDespite(ev, v); }
    if !BringsInKey(v, 2) {
      ParseTampered(ev, v);
      RereadFits(ev, v);
      VerdictByHash(sha, ev, JsonText(ev'));
    }
  }

  lemma RereadFits(ev: Event, v: string)
    requires Representable(ev) && NUL !in v
    ensures HashInput(Reread(ev.(command := v))) == CanonicalText(Reread(ev.(command := v)))
  {
    RereadKeepsBounds(ev.(command := v));
    NeverTruncated(Reread(ev.(command := v)));
  }

  lemma HashDespite(ev: Event, v: string)
    requires Representable(ev) && AllQuoteFree(ev) && !BringsIn(v, HASH_KEY)
    ensures ParseEvent(JsonText(ev.(command := v))).1.hash == ev.hash
  {
    assert PATTERNS[7] == HASH_KEY;
    hide BringsIn, ParseEvent, FoundAt;
    FoundDespite(ev, v, 7);
    HashRead(ev.(command := v));
  }

  // --- tampering that is not noticed --------------------------------------------------------------

  /** A backslash put in front of the command, as in `\ls` for `ls`. */
  lemma EscapeUnnoticed(sha: Digest, ev: Event)
    requires Genuine(sha, ev) && Readable(ev) && ev.command != ""
    ensures Passes(sha, JsonText(ev.(command := [BACKSLASH] + ev.command)))
  {
    hide ParseEvent, JsonText, Passes, CommandReread, BringsIn;
    EscapeDropped(ev.command);
    QuoteFreeBringsNoKey([BACKSLASH] + ev.command);
    TamperVerdict(sha, ev, [BACKSLASH] + ev.command);
  }

  /** The text that closes a command and goes on with further members up to the last one's text,
      which the old closing quote ends. */
  function Splice(c: string, ms: seq<Field>): string
    requires ms != []
  {
    c + ("\"," + Render(ms)[..|Render(ms)| - 1])
  }

  lemma {:induction false} RenderEnds(ms: seq<Field>)
    requires ms != [] && ms[|ms| - 1].Text?
    ensures Render(ms) != "" && Render(ms)[|Render(ms)| - 1] == QUOTE
  {
    if |ms| > 1 {
      RenderEnds(ms[1..]);
    }
  }

  function Opening(k: string): string { "\"" + k + "\":\"" }

  lemma TextMember(k: string, v: string)
    ensures Member(Text(k, v)) == Opening(k) + v + "\""
  {
  }

  lemma {:induction false} SplicedMember(c: string, ms: seq<Field>)
    requires ms != [] && ms[|ms| - 1].Text?
    ensures Member(Text("command", Splice(c, ms))) == Member(Text("command", c)) + ("," + Render(ms))
  {
    hide Member, Opening, Render;
    RenderEnds(ms);
    WithoutLast(Render(ms));
    TextMember("command", c);
    TextMember("command", Splice(c, ms));
    hide Splice;
    SplicePlain(c, ms);
    CloseAndGoOn(Opening("command"), c, Render(ms)[..|Render(ms)| - 1]);
  }

  lemma {:induction false} SplicePlain(c: string, ms: seq<Field>)
    requires ms != []
    ensures Splice(c, ms) == c + ("\"," + Render(ms)[..|Render(ms)| - 1])
  {
  }

  lemma WithoutLast(r: string)
    requires r != "" && r[|r| - 1] == QUOTE
    ensures r[..|r| - 1] + "\"" == r
  {
  }

  lemma CloseAndGoOn(k: string, c: string, u: string)
    ensures k + (c + ("\"," + u)) + "\"" == (k + c + "\"") + ("," + (u + "\""))
  {
    var x := "," + u;
    assert "\"," + u == "\"" + x;
    Reassociate(k, c, "\"" + x);
    Reassociate(k + c, "\"", x);
    Reassociate(k + c + "\"", x, "\"");
    Reassociate(",", u, "\"");
  }

  lemma {:induction false} RenderTwo(fs: seq<Field>)
    requires |fs| > 2
    ensures Render(fs) == Member(fs[0]) + "," + (Member(fs[1]) + "," + Render(fs[2..]))
  {
    assert fs[1..][1..] == fs[2..];
  }

  /** The object such a value makes of the line. */
  function Spliced(ev: Event, c: string, ms: seq<Field>): (fs: seq<Field>)
    ensures |fs| == 8 + |ms|
  {
    [AllFields(ev)[0], Text("command", c)] + ms + AllFields(ev)[2..]
  }

  lemma SplicedText(ev: Event, c: string, ms: seq<Field>)
    requires ms != [] && ms[|ms| - 1].Text?
    ensures JsonText(ev.(command := Splice(c, ms))) == Object(Spliced(ev, c, ms))
  {
    var fs, gs, hs := AllFields(ev), AllFields(ev.(command := Splice(c, ms))), Spliced(ev, c, ms);
    assert gs[0] == fs[0] && gs[1] == Text("command", Splice(c, ms)) && gs[2..] == fs[2..];
    assert hs[0] == fs[0] && hs[1] == Text("command", c) && hs[2..] == ms + fs[2..];
    SplicedMember(c, ms);
    hide Member, Render, AllFields, Spliced, Splice;
    RenderTwo(gs);
    RenderTwo(hs);
    RenderAppend(ms, fs[2..]);
    Regroup(Member(hs[1]), Render(ms), Render(fs[2..]));
  }

  lemma Regroup(a: string, b: string, c: string)
    ensures (a + ("," + b)) + "," + c == a + "," + (b + ("," + c))
  {
  }

  lemma ForeignShowsNone(f: Field, j: nat)
    requires QuoteFree(f) && f.key !in KEYS && j < 8
    ensures StrStr(Member(f), PATTERNS[j]).None?
  {
    PatternStarts(j);
    assert KEYS[j] in KEYS;
    if f.Text? { QuoteFreeBringsNone(f.text, KEYS[j], PATTERNS[j]); }
    MemberShows(f, KEYS[j], PATTERNS[j]);
  }

  /** The old members after foreign ones are still found first. */
  lemma SplicedFound(ev: Event, ms: seq<Field>, j: nat)
    requires AllQuoteFree(ev) && j < 8
    requires forall f | f in ms :: QuoteFree(f) && f.key !in KEYS
    ensures FoundAt(Spliced(ev, ev.command, ms), if j < 2 then j else j + |ms|)
  {
    var fs, hs := AllFields(ev), Spliced(ev, ev.command, ms);
    var at := if j < 2 then j else j + |ms|;
    EventKeyed(ev);
    KeyedFound(fs, j);
    PatternIsKey(ev, j);
    assert hs[0] == fs[0] && hs[1] == fs[1] && hs[at] == fs[j];
    hide AllFields, KEYS, PATTERNS, Keyed, QuoteFree;
    forall i | 0 <= i < at ensures StrStr(Member(hs[i]), Pattern(hs[at])).None? {
      if 2 <= i < 2 + |ms| {
        assert hs[i] == ms[i - 2] && hs[i] in ms;
        ForeignShowsNone(hs[i], j);
      } else {
        var was := if i < 2 then i else i - |ms|;
        assert hs[i] == fs[was];
      }
    }
  }

  /** A value that closes the old command and goes on with members of keys the parser does not
      search for. */
  lemma SpliceUnnoticed(sha: Digest, ev: Event, ms: seq<Field>)
    requires Genuine(sha, ev) && Readable(ev) && ms != [] && ms[|ms| - 1].Text?
    requires forall f | f in ms :: QuoteFree(f) && f.key !in KEYS
    ensures Passes(sha, JsonText(ev.(command := Splice(ev.command, ms))))
  {
    GenuineHash(sha, ev);
    RereadReadable(ev);
    hide FoundAt, QuoteFree, KEYS, ParseEvent, JsonText, Object, Spliced, Splice;
    SplicedText(ev, ev.command, ms);
    SplicedCarries(ev, ms);
    ParseObject(Spliced(ev, ev.command, ms), ev, SplicedPlaces(|ms|));
  }

  function SplicedPlaces(n: nat): seq<nat> { [0, 1, 2 + n, 3 + n, 4 + n, 5 + n, 6 + n, 7 + n] }

  lemma SplicedCarries(ev: Event, ms: seq<Field>)
    requires AllQuoteFree(ev)
    requires forall f | f in ms :: QuoteFree(f) && f.key !in KEYS
    ensures Carries(Spliced(ev, ev.command, ms), ev, SplicedPlaces(|ms|))
  {
    var hs, at := Spliced(ev, ev.command, ms), SplicedPlaces(|ms|);
    hide FoundAt, QuoteFree, KEYS;
    forall j | 0 <= j < 8 ensures FoundAt(hs, at[j]) && hs[at[j]] == AllFields(ev)[j] {
      SplicedFound(ev, ms, j);
    }
  }

  /** A value that closes a command and goes on with the rest of another record, and a member that
      takes up what was there. */
  function Forgery(g: Event): string { Splice(g.command, AllFields(g)[2..] + [Text("x", "")]) }

  /** So any line's event can be replaced as a whole by any readable genuine event of its type. */
  lemma ForgeryUnnoticed(sha: Digest, ev: Event, g: Event)
    requires Genuine(sha, g) && Readable(g) && ev.event_type == g.event_type
    ensures ParseEvent(JsonText(ev.(command := Forgery(g)))) == (0, g)
    ensures Passes(sha, JsonText(ev.(command := Forgery(g))))
  {
    var ms := AllFields(g)[2..] + [Text("x", "")];
    GenuineHash(sha, g);
    RereadReadable(g);
    hide FoundAt, ParseEvent, JsonText, Object, Spliced, Splice;
    SplicedText(ev, g.command, ms);
    ForgedCarries(ev, g);
    ParseObject(Spliced(ev, g.command, ms), g, [0, 1, 2, 3, 4, 5, 6, 7]);
  }

  lemma ForgedCarries(ev: Event, g: Event)
    requires AllQuoteFree(g) && ev.event_type == g.event_type
    ensures Carries(Spliced(ev, g.command, AllFields(g)[2..] + [Text("x", "")]), g, [0, 1, 2, 3, 4, 5, 6, 7])
  {
    var gs, hs := AllFields(g), Spliced(ev, g.command, AllFields(g)[2..] + [Text("x", "")]);
    EventKeyed(g);
    assert forall j | 0 <= j < 8 :: hs[j] == gs[j];
    hide FoundAt, Keyed, AllFields, Spliced;
    forall j | 0 <= j < 8 ensures FoundAt(hs, j) {
      KeyedFound(gs, j);
      FoundInLonger(gs, hs, j);
    }
  }

  lemma FoundInLonger(gs: seq<Field>, hs: seq<Field>, j: nat)
    requires FoundAt(gs, j) && |gs| <= |hs| && forall i | 0 <= i < |gs| :: hs[i] == gs[i]
    ensures FoundAt(hs, j)
  {
  }

  // --- whole logs ---------------------------------------------------------------------------------

  lemma TamperedFits(ev: Event, v: string)
    requires Representable(ev) && NUL !in v
    ensures NUL !in JsonText(ev.(command := v))
  {
    TextsFree(ev.(command := v), NUL);
  }

  lemma {:induction false} RewrittenReadsBack(lines: seq<string>, k: nat, v: string)
    requires k < |lines| <= MAX_LINES && forall i | 0 <= i < |lines| :: LogLine(lines[i])
    requires |lines[k]| < READ_BUFFER && Tamperable(lines[k])
    requires NUL !in TamperedLine(lines[k], v) && |TamperedLine(lines[k], v)| <= READ_BUFFER - 2
    requires |lines| + |Split(TamperedLine(lines[k], v))| - 1 <= MAX_LINES
    ensures TestedLines(Some(Written(lines)), k, v) ==
            lines[..k] + Split(TamperedLine(lines[k], v)) + lines[k + 1..]
  {
    hide Tamperable, TamperedLine, TamperedFile, Written, LogLine, Split, ReadLines;
    ReadBack(lines, MAX_LINES);
    TamperRewrites(lines, k, v);
    WithOneReadsBack(lines, k, TamperedLine(lines[k], v));
  }

  lemma {:induction false} WithOneReadsBack(lines: seq<string>, k: nat, line: string)
    requires k < |lines| && forall i | 0 <= i < |lines| :: LogLine(lines[i])
    requires NUL !in line && |line| <= READ_BUFFER - 2 && |lines| + |Split(line)| - 1 <= MAX_LINES
    ensures ReadLines(Written(lines[k := line]), MAX_LINES) == lines[..k] + Split(line) + lines[k + 1..]
  {
    assert forall i | 0 <= i < |lines| :: NUL !in lines[i] && |lines[i]| <= READ_BUFFER - 2;
    hide Written, LogLine, Split, ReadLines, Pieces;
    PiecesAround(lines, k, line);
    ReadBackPieces(lines[k := line], MAX_LINES);
  }

  /** The lines the test reads after line k of a log has been tampered with: the others are kept,
      and the new line falls into as many as its value has newlines. */
  lemma {:induction false} TamperedLog(lines: seq<string>, k: nat, ev: Event, v: string)
    requires k < |lines| <= MAX_LINES && forall i | 0 <= i < |lines| :: LogLine(lines[i])
    requires lines[k] == JsonText(ev) && Representable(ev) && QUOTE !in ev.event_type && QUOTE !in ev.command
    requires NUL !in v && |JsonText(ev.(command := v))| <= READ_BUFFER - 2
    requires |lines| + |Split(JsonText(ev.(command := v)))| - 1 <= MAX_LINES
    ensures TestedLines(Some(Written(lines)), k, v) ==
            lines[..k] + Split(JsonText(ev.(command := v))) + lines[k + 1..]
  {
    TamperReplacesCommand(ev, v);
    TamperedFits(ev, v);
    hide JsonText, Tamperable, TamperedLine, TestedLines, Written, Representable, LogLine, Split;
    RewrittenReadsBack(lines, k, v);
  }

  lemma {:induction false} PiecesAround(lines: seq<string>, k: nat, line: string)
    requires k < |lines| && forall i | 0 <= i < |lines| :: LogLine(lines[i])
    ensures Pieces(lines[k := line]) == lines[..k] + Split(line) + lines[k + 1..]
  {
    var a, b := lines[..k], lines[k + 1..];
    assert lines[k := line] == a + ([line] + b);
    assert ([line] + b)[1..] == b;
    PiecesConcat(a, [line] + b);
    PiecesWhole(a);
    PiecesWhole(b);
    assert Pieces([line] + b) == Split(line) + b;
    Reassociate(a, Split(line), b);
  }

  /** Tampering changes the verdict on no other line: a line before keeps its number, one after is
      shifted, and what the new line falls into is judged by itself. */
  lemma {:induction false} OnlyTamperedJudged(sha: Digest, lines: seq<string>, k: nat, ev: Event, v: string, i: nat)
    requires k < |lines| <= MAX_LINES && forall i | 0 <= i < |lines| :: LogLine(lines[i])
    requires lines[k] == JsonText(ev) && Representable(ev) && QUOTE !in ev.event_type && QUOTE !in ev.command
    requires NUL !in v && |JsonText(ev.(command := v))| <= READ_BUFFER - 2
    requires |lines| + |Split(JsonText(ev.(command := v)))| - 1 <= MAX_LINES
    ensures var pieces := Split(JsonText(ev.(command := v)));
            var tested := TestedLines(Some(Written(lines)), k, v);
            && |tested| == |lines| + |pieces| - 1
            && (i in Failing(sha, tested) <==>
                  if i < k then !Passes(sha, lines[i])
                  else if i < k + |pieces| then !Passes(sha, pieces[i - k])
                  else i < |tested| && !Passes(sha, lines[i - |pieces| + 1]))
  {
    hide JsonText, Representable, Passes, Written, TestedLines, LogLine, Failing;
    TamperedLog(lines, k, ev, v);
    FailingMember(sha, TestedLines(Some(Written(lines)), k, v), i);
  }

  lemma GenuineLine(sha: Digest, ev: Event)
    requires Genuine(sha, ev)
    ensures LogLine(JsonText(ev))
  {
    FreshText(ev);
    TextsFree(ev, '\n');
  }

  /** When tampering that brings no key in is not noticed: the value has no newline and is read
      back as the old command, with a pid that is not negative, or two named texts collide. */
  predicate Missed(sha: Digest, ev: Event, v: string)
  {
    && '\n' !in v
    && ((CommandReread(v) == ev.command && 0 <= ev.pid) ||
        Collides(sha, CanonicalText(ev), CanonicalText(Reread(ev.(command := v)))))
  }

  /** The verdicts on the lines a tampered one falls into. */
  lemma PiecesVerdict(sha: Digest, ev: Event, v: string)
    requires Genuine(sha, ev) && NUL !in v && !BringsInKey(v, 0)
    ensures var pieces := Split(JsonText(ev.(command := v)));
            && ('\n' !in v ==> |pieces| == 1)
            && forall i | 0 <= i < |pieces| :: Passes(sha, pieces[i]) <==> Missed(sha, ev, v)
  {
    var ev' := ev.(command := v);
    GenuineHash(sha, ev);
    if '\n' in v {
      NewlineKept(ev');
      SplitBreaks(JsonText(ev'));
      TamperedBringsNoKey(ev, v);
      hide JsonText, ParseEvent, BringsNoKey, HashOf;
      forall i | 0 <= i < |Split(JsonText(ev'))| ensures !Passes(sha, Split(JsonText(ev'))[i]) {
        NoPieceParses(ev', i);
      }
    } else {
      TextsFree(ev', '\n');
      SplitWhole(JsonText(ev'));
      assert !BringsInKey(v, 2);
      hide JsonText, ParseEvent, Passes, Collides, CommandReread, CanonicalText, HashOf, BringsInKey;
      TamperVerdict(sha, ev, v);
    }
  }

  lemma NewlineKept(ev: Event)
    requires '\n' in ev.command
    ensures '\n' in JsonText(ev)
  {
    hide JsonText, LineHead, LineTail;
    LineParts(ev);
  }

  lemma TamperedBringsNoKey(ev: Event, v: string)
    requires HashFieldsQuoteFree(ev) && !BringsInKey(v, 0)
    ensures BringsNoKey(ev.(command := v))
  {
    hide BringsInKey;
    QuoteFreeBringsNoKey(ev.event_type);
    QuoteFreeBringsNoKey(ev.user);
    QuoteFreeBringsNoKey(ev.cwd);
    QuoteFreeBringsNoKey(ev.timestamp);
  }

  lemma PiecesReported(sha: Digest, lines: seq<string>, k: nat, pieces: seq<string>)
    requires k < |lines| && forall i | 0 <= i < |lines| :: Passes(sha, lines[i])
    ensures var tested := lines[..k] + pieces + lines[k + 1..];
            && ((forall i | 0 <= i < |pieces| :: !Passes(sha, pieces[i])) ==>
                  Failing(sha, tested) == Numbers(k, |pieces|))
            && ((forall i | 0 <= i < |pieces| :: Passes(sha, pieces[i])) ==> Failing(sha, tested) == [])
  {
    hide Passes;
    var tested := lines[..k] + pieces + lines[k + 1..];
    var oks := Verdicts(sha, tested);
    if forall i | 0 <= i < |pieces| :: !Passes(sha, pieces[i]) {
      NegativesBetween(oks, k, k + |pieces|);
    }
    if forall i | 0 <= i < |pieces| :: Passes(sha, pieces[i]) {
      NegativesBetween(oks, 0, 0);
    }
  }

  /** End to end: overwrite the command of line k in a log of readable genuine events with any
      value that brings no key in (any without quotes, for example).  The test reports exactly the
      lines the new one falls into, which is line k alone if the value has no newline, or nothing
      when the value is read back as the old command (without quotes and backslashes, and within
      its buffer: when it is the old command) or two named texts collide. */
  lemma {:induction false} TamperDetected(sha: Digest, evs: seq<Event>, k: nat, v: string)
    requires k < |evs| && forall i | 0 <= i < |evs| :: Genuine(sha, evs[i]) && Readable(evs[i])
    requires NUL !in v && !BringsInKey(v, 0) && |JsonText(evs[k].(command := v))| <= READ_BUFFER - 2
    requires |evs| + |Split(JsonText(evs[k].(command := v)))| - 1 <= MAX_LINES
    ensures var count := |Split(JsonText(evs[k].(command := v)))|;
            var lines := TestedLines(Some(Written(Printouts(evs))), k, v);
            && |lines| == |evs| + count - 1 && ('\n' !in v ==> count == 1)
            && Failing(sha, lines) == if Missed(sha, evs[k], v) then [] else Numbers(k, count)
    ensures QUOTE !in v && BACKSLASH !in v && |v| < COMMAND_MAX ==> CommandReread(v) == v
  {
    hide JsonText, Passes, Missed, CommandReread, BringsInKey, Written, TestedLines, Failing, Genuine, Split;
    hide Readable;
    TamperReports(sha, evs, k, v);
    PiecesVerdict(sha, evs[k], v);
    if QUOTE !in v && BACKSLASH !in v && |v| < COMMAND_MAX {
      PlainReread(v);
    }
  }

  lemma {:induction false} TamperReports(sha: Digest, evs: seq<Event>, k: nat, v: string)
    requires k < |evs| && forall i | 0 <= i < |evs| :: Genuine(sha, evs[i]) && Readable(evs[i])
    requires NUL !in v && |JsonText(evs[k].(command := v))| <= READ_BUFFER - 2
    requires |evs| + |Split(JsonText(evs[k].(command := v)))| - 1 <= MAX_LINES
    ensures var pieces := Split(JsonText(evs[k].(command := v)));
            var lines := TestedLines(Some(Written(Printouts(evs))), k, v);
            && |lines| == |evs| + |pieces| - 1
            && ((forall i | 0 <= i < |pieces| :: !Passes(sha, pieces[i])) ==>
                  Failing(sha, lines) == Numbers(k, |pieces|))
            && ((forall i | 0 <= i < |pieces| :: Passes(sha, pieces[i])) ==> Failing(sha, lines) == [])
  {
    assert Representable(evs[k]) && QUOTE !in evs[k].event_type && QUOTE !in evs[k].command;
    hide JsonText, Passes, Written, TestedLines, LogLine, Failing, Genuine, Readable, Split, Representable;
    GenuineLog(sha, evs);
    TamperedLog(Printouts(evs), k, evs[k], v);
    PiecesReported(sha, Printouts(evs), k, Split(JsonText(evs[k].(command := v))));
  }

  lemma {:induction false} GenuineLog(sha: Digest, evs: seq<Event>)
    requires forall i | 0 <= i < |evs| :: Genuine(sha, evs[i]) && Readable(evs[i])
    ensures forall i | 0 <= i < |evs| :: LogLine(Printouts(evs)[i]) && Passes(sha, Printouts(evs)[i])
  {
    hide JsonText, Passes, LogLine, Genuine, Readable, Collides;
    forall i | 0 <= i < |evs| ensures LogLine(Printouts(evs)[i]) && Passes(sha, Printouts(evs)[i]) {
      GenuineLine(sha, evs[i]);
      GenuineAcceptance(sha, evs[i]);
    }
  }
}
