/** What the printers and the parser of Event do to each other. */
module EventProofs {
  import opened CStrings
  import opened JsonFields
  import opened Crypto
  import opened Event

  const INT_MAX: int := 0x7FFF_FFFF

  /** The values an audit event record can hold: NUL-free texts within their buffers and
      32-bit numbers. */
  predicate Representable(ev: Event)
  {
    && NUL !in ev.event_type && |ev.event_type| < EVENT_TYPE_MAX
    && NUL !in ev.command && |ev.command| < COMMAND_MAX
    && NUL !in ev.user && |ev.user| < USER_MAX
    && NUL !in ev.cwd && |ev.cwd| < CWD_MAX
    && NUL !in ev.timestamp && |ev.timestamp| < TIMESTAMP_MAX
    && NUL !in ev.hash && |ev.hash| < HASH_HEX_SIZE
    && -INT_MAX - 1 <= ev.pid <= INT_MAX
    && -INT_MAX - 1 <= ev.return_code <= INT_MAX
  }

  predicate HashFieldsQuoteFree(ev: Event)
  {
    && QUOTE !in ev.event_type && QUOTE !in ev.command && QUOTE !in ev.user
    && QUOTE !in ev.cwd && QUOTE !in ev.timestamp
  }

  predicate AllQuoteFree(ev: Event) { HashFieldsQuoteFree(ev) && QUOTE !in ev.hash }

  /** What survives printing and parsing besides quote-freedom. */
  predicate Readable(ev: Event) { BACKSLASH !in ev.command && 0 <= ev.pid }

  // --- where the parser's searches land ---------------------------------------------------

  function Following(fs: seq<Field>, j: nat, end: string): string
    requires j < |fs|
  {
    if j + 1 < |fs| then "," + (Render(fs[j + 1..]) + end) else end
  }

  lemma RenderFrom(fs: seq<Field>, j: nat, end: string)
    requires j < |fs|
    ensures Render(fs[j..]) + end == Member(fs[j]) + Following(fs, j, end)
  {
    if j + 1 < |fs| {
      assert fs[j..][1..] == fs[j + 1..];
      RenderTail(fs[j..], end);
    }
  }

  lemma {:induction false} AfterMatch(hay: string, pat: string, rest: string)
    requires StrStr(hay, pat) == Some(pat + rest)
    ensures After(hay, pat) == Some(rest)
  {
    Parts(pat, rest);
  }

  /** Searching the printed object for a member's key lands on that member. */
  lemma SearchLands(fs: seq<Field>, j: nat)
    requires FoundAt(fs, j)
    ensures After(Object(fs), Pattern(fs[j])) == Some(ValueText(fs[j]) + Following(fs, j, "}"))
  {
    var pat, rest := Pattern(fs[j]), ValueText(fs[j]) + Following(fs, j, "}");
    Located(fs, j, "}");
    PatternOpens(fs[j]);
    hide FoundAt, Pattern, Member;
    StrStrSkip("{", Render(fs) + "}", pat);
    RenderFrom(fs, j, "}");
    MemberParts(fs[j]);
    Reassociate(pat, ValueText(fs[j]), Following(fs, j, "}"));
    AfterMatch(Object(fs), pat, rest);
  }

  lemma SearchSucceeds(fs: seq<Field>, j: nat)
    requires j < |fs|
    ensures After(Object(fs), Pattern(fs[j])).Some?
  {
    Present(fs, j, "}");
    StillFound("{", Render(fs) + "}", Pattern(fs[j]));
  }

  /** The literals the parser searches for are the members' patterns. */
  lemma KeyLiterals()
    ensures "\"" + "event_type" + "\":\"" == TYPE_KEY && "\"" + "command" + "\":\"" == COMMAND_KEY
    ensures "\"" + "user" + "\":\"" == USER_KEY && "\"" + "pid" + "\":" == PID_KEY
    ensures "\"" + "cwd" + "\":\"" == CWD_KEY && "\"" + "timestamp" + "\":\"" == TIMESTAMP_KEY
    ensures "\"" + "return_code" + "\":" == RETURN_CODE_KEY && "\"" + "hash" + "\":\"" == HASH_KEY
  {
  }

  const KEYS: seq<string> :=
    ["event_type", "command", "user", "pid", "cwd", "timestamp", "return_code", "hash"]

  const PATTERNS: seq<string> :=
    [TYPE_KEY, COMMAND_KEY, USER_KEY, PID_KEY, CWD_KEY, TIMESTAMP_KEY, RETURN_CODE_KEY, HASH_KEY]

  lemma PatternIsKey(ev: Event, j: nat)
    requires j < 8
    ensures Pattern(AllFields(ev)[j]) == PATTERNS[j]
  {
    KeyLiterals();
  }

  lemma KeyPlain(j: nat)
    requires j < 8
    ensures PlainKey(KEYS[j])
  {
  }

  lemma KeyShape(j: nat)
    requires j < 8
    ensures |KEYS[j]| > 2 && ' ' !in KEYS[j]
  {
  }

  lemma KeysDiffer(i: nat, j: nat)
    requires i < j < 8
    ensures KEYS[i] != KEYS[j]
  {
    assert KEYS[2][0] == 'u' && KEYS[7][0] == 'h' && KEYS[3][0] == 'p' && KEYS[4][0] == 'c';
    assert |KEYS[0]| == 10 && |KEYS[1]| == 7 && |KEYS[5]| == 9 && |KEYS[6]| == 11;
  }

  /** The keys are as listed, and the members of a quote-free event are quote-free. */
  lemma FieldFacts(ev: Event, j: nat)
    requires j < 8
    ensures AllFields(ev)[j].key == KEYS[j] && PlainKey(KEYS[j])
    ensures AllQuoteFree(ev) ==> QuoteFree(AllFields(ev)[j])
  {
    KeyPlain(j);
  }

  /** Quote-free members under different keys. */
  predicate Keyed(fs: seq<Field>)
  {
    && (forall i | 0 <= i < |fs| :: QuoteFree(fs[i]))
    && forall i, j | 0 <= i < j < |fs| :: fs[i].key != fs[j].key
  }

  lemma EventKeyed(ev: Event)
    requires AllQuoteFree(ev)
    ensures Keyed(AllFields(ev))
  {
    hide QuoteFree;
    forall j | 0 <= j < 8 ensures QuoteFree(AllFields(ev)[j]) && AllFields(ev)[j].key == KEYS[j] {
      FieldFacts(ev, j);
    }
    forall i, j | 0 <= i < j < 8 ensures AllFields(ev)[i].key != AllFields(ev)[j].key {
      KeysDiffer(i, j);
    }
  }

  lemma KeyedFound(fs: seq<Field>, j: nat)
    requires Keyed(fs) && j < |fs|
    ensures FoundAt(fs, j)
  {
    PatternOpens(fs[j]);
    forall i | 0 <= i < j ensures StrStr(Member(fs[i]), Pattern(fs[j])).None? {
      if fs[i].Text? { QuoteFreeBringsNone(fs[i].text, fs[j].key, Pattern(fs[j])); }
      MemberShows(fs[i], fs[j].key, Pattern(fs[j]));
    }
  }

  // --- what one copy loop takes from the landing place -------------------------------------

  lemma {:induction false} CopyStops(v: string, rest: string, max: nat)
    requires QUOTE !in v && |v| <= max
    ensures CopyRun(v + ("\"" + rest), max) == v
  {
    if v != [] {
      DropInFirst(v, "\"" + rest, 1);
      CopyStops(v[1..], rest, max - 1);
    }
  }

  /** A command copies to itself when it has no backslash. */
  lemma {:induction false} CommandStops(v: string, rest: string, max: nat)
    requires QUOTE !in v && BACKSLASH !in v && |v| <= max
    ensures UnescapeRun(v + ("\"" + rest), max) == v
  {
    if v != [] {
      DropInFirst(v, "\"" + rest, 1);
      CommandStops(v[1..], rest, max - 1);
    }
  }

  /** The command as read back: at worst an odd trailing backslash swallows the closing
      quote, and the copy goes on to the quote that opens the next key. */
  function CommandReread(command: string): string { UnescapeRun(command + "\",\"", COMMAND_MAX - 1) }

  lemma {:induction false} CommandSees(v: string, rest: string, max: nat)
    ensures UnescapeRun(v + ("\",\"" + rest), max) == UnescapeRun(v + "\",\"", max)
  {
    if v == [] {
      assert v + ("\",\"" + rest) == "\",\"" + rest && v + "\",\"" == "\",\"";
    } else if max > 0 {
      DropInFirst(v, "\",\"" + rest, 1);
      DropInFirst(v, "\",\"", 1);
      if v[0] != BACKSLASH {
        CommandSees(v[1..], rest, max - 1);
      } else if |v| > 1 {
        DropInFirst(v, "\",\"" + rest, 2);
        DropInFirst(v, "\",\"", 2);
        CommandSees(v[2..], rest, max - 1);
      } else {
        SwallowedQuote(v, rest, max);
      }
    }
  }

  /** A single backslash takes the closing quote, then the comma, and stops at the next quote. */
  lemma {:induction false} SwallowedQuote(v: string, rest: string, max: nat)
    requires v == [BACKSLASH] && max > 0
    ensures UnescapeRun(v + ("\",\"" + rest), max) == UnescapeRun(v + "\",\"", max)
  {
    assert (v + ("\",\"" + rest))[2..] == ",\"" + rest && (v + "\",\"")[2..] == ",\"";
    assert (",\"" + rest)[1..] == "\"" + rest && ",\""[1..] == "\"";
    var left := if max > 1 then max - 2 else 0;
    assert UnescapeRun("\"" + rest, left) == [] == UnescapeRun("\"", left);
  }

  // --- the parser on printed events ----------------------------------------------------------

  /** What the parser makes of an event's printed form. */
  function Reread(ev: Event): Event
  {
    ev.(command := CommandReread(ev.command), pid := if ev.pid < 0 then 0 else ev.pid)
  }

  lemma FindsText(fs: seq<Field>, j: nat, max: nat)
    requires FoundAt(fs, j) && fs[j].Text? && QUOTE !in fs[j].text && |fs[j].text| <= max
    ensures FindText(Object(fs), Pattern(fs[j]), max) == Some(fs[j].text)
  {
    SearchLands(fs, j);
    hide Object, Pattern, Following, FoundAt;
    Reassociate(fs[j].text, "\"", Following(fs, j, "}"));
    CopyStops(fs[j].text, Following(fs, j, "}"), max);
  }

  lemma {:induction false} RenderOpensWithQuote(fs: seq<Field>, end: string)
    requires fs != []
    ensures Render(fs) + end == "\"" + (Render(fs) + end)[1..]
  {
    assert Member(fs[0])[0] == QUOTE;
  }

  lemma CloseCommaOpen(v: string, z: string)
    ensures (v + "\"") + ("," + ("\"" + z)) == v + ("\",\"" + z)
  {
  }

  lemma CommandMember(ev: Event)
    ensures Pattern(AllFields(ev)[1]) == COMMAND_KEY && ValueText(AllFields(ev)[1]) == ev.command + "\""
  {
    KeyLiterals();
  }

  lemma FindsCommand(fs: seq<Field>, ev: Event, j: nat)
    requires FoundAt(fs, j) && fs[j] == AllFields(ev)[1] && j + 1 < |fs|
    ensures FindCommand(Object(fs)) == Some(CommandReread(ev.command))
  {
    SearchLands(fs, j);
    CommandMember(ev);
    hide Render, Pattern, ValueText, Object, UnescapeRun, FoundAt, AllFields;
    var next := Render(fs[j + 1..]) + "}";
    RenderOpensWithQuote(fs[j + 1..], "}");
    CloseCommaOpen(ev.command, next[1..]);
    CommandSees(ev.command, next[1..], COMMAND_MAX - 1);
  }

  lemma FindsNumber(fs: seq<Field>, j: nat)
    requires FoundAt(fs, j) && fs[j].Number?
    ensures FindInt(Object(fs), Pattern(fs[j])) == Some(fs[j].number)
    ensures FindNat(Object(fs), Pattern(fs[j])) == Some(if fs[j].number < 0 then 0 else fs[j].number)
  {
    SearchLands(fs, j);
    var n, rest := fs[j].number, Following(fs, j, "}");
    assert StopsDigits(rest);
    hide Object, Pattern, Following, FoundAt;
    ScanIntRoundTrip(n, rest);
    if n >= 0 {
      ScanNatRoundTrip(n, rest);
    } else {
      assert (IntText(n) + rest)[0] == '-';
    }
  }

  lemma FindsType(fs: seq<Field>, ev: Event, j: nat)
    requires FoundAt(fs, j) && fs[j] == AllFields(ev)[0] && OthersFit(ev)
    ensures FindText(Object(fs), TYPE_KEY, EVENT_TYPE_MAX - 1) == Some(ev.event_type)
  {
    KeyLiterals();
    assert Pattern(AllFields(ev)[0]) == TYPE_KEY;
    FindsText(fs, j, EVENT_TYPE_MAX - 1);
  }

  lemma FindsUser(fs: seq<Field>, ev: Event, j: nat)
    requires FoundAt(fs, j) && fs[j] == AllFields(ev)[2] && OthersFit(ev)
    ensures FindText(Object(fs), USER_KEY, USER_MAX - 1) == Some(ev.user)
  {
    KeyLiterals();
    assert Pattern(AllFields(ev)[2]) == USER_KEY;
    FindsText(fs, j, USER_MAX - 1);
  }

  lemma FindsCwd(fs: seq<Field>, ev: Event, j: nat)
    requires FoundAt(fs, j) && fs[j] == AllFields(ev)[4] && OthersFit(ev)
    ensures FindText(Object(fs), CWD_KEY, CWD_MAX - 1) == Some(ev.cwd)
  {
    KeyLiterals();
    assert Pattern(AllFields(ev)[4]) == CWD_KEY;
    FindsText(fs, j, CWD_MAX - 1);
  }

  lemma FindsTimestamp(fs: seq<Field>, ev: Event, j: nat)
    requires FoundAt(fs, j) && fs[j] == AllFields(ev)[5] && OthersFit(ev)
    ensures FindText(Object(fs), TIMESTAMP_KEY, TIMESTAMP_MAX - 1) == Some(ev.timestamp)
  {
    KeyLiterals();
    assert Pattern(AllFields(ev)[5]) == TIMESTAMP_KEY;
    FindsText(fs, j, TIMESTAMP_MAX - 1);
  }

  lemma FindsHash(fs: seq<Field>, ev: Event, j: nat)
    requires FoundAt(fs, j) && fs[j] == AllFields(ev)[7] && OthersFit(ev)
    ensures FindText(Object(fs), HASH_KEY, HASH_HEX_SIZE - 1) == Some(ev.hash)
  {
    KeyLiterals();
    assert Pattern(AllFields(ev)[7]) == HASH_KEY;
    FindsText(fs, j, HASH_HEX_SIZE - 1);
  }

  lemma FindsPid(fs: seq<Field>, ev: Event, j: nat)
    requires FoundAt(fs, j) && fs[j] == AllFields(ev)[3]
    ensures FindNat(Object(fs), PID_KEY) == Some(if ev.pid < 0 then 0 else ev.pid)
  {
    KeyLiterals();
    assert Pattern(AllFields(ev)[3]) == PID_KEY;
    FindsNumber(fs, j);
  }

  lemma FindsReturnCode(fs: seq<Field>, ev: Event, j: nat)
    requires FoundAt(fs, j) && fs[j] == AllFields(ev)[6]
    ensures FindInt(Object(fs), RETURN_CODE_KEY) == Some(ev.return_code)
  {
    KeyLiterals();
    assert Pattern(AllFields(ev)[6]) == RETURN_CODE_KEY;
    FindsNumber(fs, j);
  }

  function AllFound(ev: Event): Found
  {
    Found(Some(ev.event_type), Some(ev.command), Some(ev.user), Some(ev.pid),
          Some(ev.cwd), Some(ev.timestamp), Some(ev.return_code), Some(ev.hash))
  }

  /** The parser succeeds exactly when all eight searches do, with what they find. */
  lemma ParseIsSearch(json: string, ev: Event)
    ensures ParseEvent(json) == (0, ev) <==> Search(json) == AllFound(ev)
  {
    var f := Search(json);
  }

  /** What a parse leaves, also a failed one: each field is what its search found if that and all
      the searches before it succeeded, and zero otherwise; it returns 0 or -1. */
  lemma ParseStops(json: string)
    ensures var (rc, ev) := ParseEvent(json);
            var f := Search(json);
            var t := f.event_type.Some?;
            var c := t && f.command.Some?;
            var u := c && f.user.Some?;
            var p := u && f.pid.Some?;
            var d := p && f.cwd.Some?;
            var s := d && f.timestamp.Some?;
            var r := s && f.return_code.Some?;
            var h := r && f.hash.Some?;
            && rc == (if h then 0 else -1)
            && ev.event_type == (if t then f.event_type.value else "")
            && ev.command == (if c then f.command.value else "")
            && ev.user == (if u then f.user.value else "")
            && ev.pid == (if p then f.pid.value else 0)
            && ev.cwd == (if d then f.cwd.value else "")
            && ev.timestamp == (if s then f.timestamp.value else "")
            && ev.return_code == (if r then f.return_code.value else 0)
            && ev.hash == (if h then f.hash.value else "")
  {
    hide Search;
  }

  /** The texts but the command are quote-free and fit their buffers. */
  predicate OthersFit(ev: Event)
  {
    && QUOTE !in ev.event_type && |ev.event_type| < EVENT_TYPE_MAX
    && QUOTE !in ev.user && |ev.user| < USER_MAX
    && QUOTE !in ev.cwd && |ev.cwd| < CWD_MAX
    && QUOTE !in ev.timestamp && |ev.timestamp| < TIMESTAMP_MAX
    && QUOTE !in ev.hash && |ev.hash| < HASH_HEX_SIZE
  }

  /** The places at which the event's eight members are found first. */
  predicate Carries(fs: seq<Field>, ev: Event, at: seq<nat>)
  {
    && |at| == 8 && (forall j | 0 <= j < 8 :: FoundAt(fs, at[j]) && fs[at[j]] == AllFields(ev)[j])
    && at[1] + 1 < |fs|
  }

  /** The parser on any printed object in which the event's eight members are what is found
      first under their keys, the command not last: it succeeds, and only quotes and backslashes
      in the command and a negative pid are not read back. */
  lemma ParseObject(fs: seq<Field>, ev: Event, at: seq<nat>)
    requires OthersFit(ev) && fs != [] && Carries(fs, ev, at)
    ensures ParseEvent(Object(fs)) == (0, Reread(ev))
  {
    hide Object, FoundAt, OthersFit, AllFields, FindText, FindCommand, FindNat, FindInt, ParseEvent;
    FindsType(fs, ev, at[0]);
    FindsCommand(fs, ev, at[1]);
    FindsUser(fs, ev, at[2]);
    FindsPid(fs, ev, at[3]);
    FindsCwd(fs, ev, at[4]);
    FindsTimestamp(fs, ev, at[5]);
    FindsReturnCode(fs, ev, at[6]);
    FindsHash(fs, ev, at[7]);
    ParseIsSearch(Object(fs), Reread(ev));
  }

  /** In particular on the printed form of any event with quote-free fields. */
  lemma ParsePrinted(ev: Event)
    requires Representable(ev) && AllQuoteFree(ev)
    ensures ParseEvent(JsonText(ev)) == (0, Reread(ev))
  {
    hide ParseEvent, Reread, FoundAt, Keyed;
    var fs := AllFields(ev);
    EventKeyed(ev);
    forall j | 0 <= j < 8 ensures FoundAt(fs, j) {
      KeyedFound(fs, j);
    }
    ParseObject(fs, ev, [0, 1, 2, 3, 4, 5, 6, 7]);
  }

  /** The parser succeeds on the printed form of every event. */
  lemma ParseSucceeds(ev: Event)
    ensures ParseEvent(JsonText(ev)).0 == 0
  {
    var fs := AllFields(ev);
    forall j | 0 <= j < 8 ensures After(Object(fs), PATTERNS[j]).Some? {
      SearchSucceeds(fs, j);
      PatternIsKey(ev, j);
    }
    hide Object, AllFields, After;
    assert After(Object(fs), PATTERNS[0]).Some? && After(Object(fs), PATTERNS[1]).Some?;
    assert After(Object(fs), PATTERNS[2]).Some? && After(Object(fs), PATTERNS[3]).Some?;
    assert After(Object(fs), PATTERNS[4]).Some? && After(Object(fs), PATTERNS[5]).Some?;
    assert After(Object(fs), PATTERNS[6]).Some? && After(Object(fs), PATTERNS[7]).Some?;
  }

  /** A member is found first unless a text before it brings its pattern in. */
  lemma FoundUnlessBroughtIn(ev: Event, j: nat)
    requires j < 8
    requires forall i | 0 <= i < j && AllFields(ev)[i].Text? :: !BringsIn(AllFields(ev)[i].text, PATTERNS[j])
    ensures FoundAt(AllFields(ev), j)
  {
    var fs := AllFields(ev);
    FieldFacts(ev, j);
    PatternIsKey(ev, j);
    PatternOpens(fs[j]);
    forall i | 0 <= i < j ensures StrStr(Member(fs[i]), Pattern(fs[j])).None? {
      FieldFacts(ev, i);
      KeysDiffer(i, j);
      hide AllFields, Pattern, Member, BringsIn;
      MemberShows(fs[i], fs[j].key, Pattern(fs[j]));
    }
  }

  /** Then the hash read is the event's. */
  lemma HashRead(ev: Event)
    requires FoundAt(AllFields(ev), 7) && QUOTE !in ev.hash && |ev.hash| < HASH_HEX_SIZE
    ensures ParseEvent(JsonText(ev)).1.hash == ev.hash
  {
    PatternIsKey(ev, 7);
    FindsText(AllFields(ev), 7, HASH_HEX_SIZE - 1);
    ParseSucceeds(ev);
    hide FoundAt, Object, FindCommand, FindNat, FindInt;
  }

  lemma PatternStarts(j: nat)
    requires j < 8
    ensures PlainKey(KEYS[j]) && "\"" + KEYS[j] + "\":" <= PATTERNS[j]
  {
    FieldFacts(ZERO_EVENT, j);
    PatternIsKey(ZERO_EVENT, j);
    PatternOpens(AllFields(ZERO_EVENT)[j]);
  }

  /** Some key's pattern occurs in the text between its quotes. */
  predicate BringsInKey(v: string, first: nat) { exists j | first <= j < 8 :: BringsIn(v, PATTERNS[j]) }

  lemma QuoteFreeBringsNoKey(v: string)
    requires QUOTE !in v
    ensures !BringsInKey(v, 0)
  {
    hide BringsIn;
    forall j | 0 <= j < 8 ensures !BringsIn(v, PATTERNS[j]) {
      PatternStarts(j);
      QuoteFreeBringsNone(v, KEYS[j], PATTERNS[j]);
    }
  }

  /** No hashed text of the event brings a key's pattern in. */
  predicate BringsNoKey(ev: Event)
  {
    && !BringsInKey(ev.event_type, 0) && !BringsInKey(ev.command, 0) && !BringsInKey(ev.user, 0)
    && !BringsInKey(ev.cwd, 0) && !BringsInKey(ev.timestamp, 0)
  }

  /** No hashed text of the event brings the hash's pattern in: what such a text would pass for. */
  predicate BringsNoHash(ev: Event)
  {
    && !BringsIn(ev.event_type, HASH_KEY) && !BringsIn(ev.command, HASH_KEY) && !BringsIn(ev.user, HASH_KEY)
    && !BringsIn(ev.cwd, HASH_KEY) && !BringsIn(ev.timestamp, HASH_KEY)
  }

  lemma TextIsOne(ev: Event, j: nat)
    requires j < 8 && AllFields(ev)[j].Text?
    ensures AllFields(ev)[j].text in [ev.event_type, ev.command, ev.user, ev.cwd, ev.timestamp, ev.hash]
  {
  }

  lemma HashFoundFirst(ev: Event)
    requires BringsNoHash(ev)
    ensures FoundAt(AllFields(ev), 7)
  {
    LastPattern();
    hide BringsIn, FoundAt, PATTERNS, BringsNoHash;
    forall i | 0 <= i < 7 && AllFields(ev)[i].Text? ensures !BringsIn(AllFields(ev)[i].text, PATTERNS[7]) {
      HashNotIn(ev, i);
    }
    hide AllFields;
    FoundUnlessBroughtIn(ev, 7);
  }

  lemma LastPattern()
    ensures |PATTERNS| == 8 && PATTERNS[7] == HASH_KEY
  {
  }

  lemma HashNotIn(ev: Event, i: nat)
    requires BringsNoHash(ev) && i < 7 && AllFields(ev)[i].Text?
    ensures !BringsIn(AllFields(ev)[i].text, HASH_KEY)
  {
    hide BringsIn;
    var f := AllFields(ev)[i];
    assert f.text == ev.event_type || f.text == ev.command || f.text == ev.user || f.text == ev.cwd ||
           f.text == ev.timestamp;
  }

  lemma OwnHashRead(ev: Event)
    requires BringsNoHash(ev) && QUOTE !in ev.hash && |ev.hash| < HASH_HEX_SIZE
    ensures FoundAt(AllFields(ev), 7) && ParseEvent(JsonText(ev)).1.hash == ev.hash
  {
    HashFoundFirst(ev);
    hide FoundAt, ParseEvent, BringsNoHash;
    HashRead(ev);
  }

  lemma NoKeyNoHash(ev: Event)
    requires BringsNoKey(ev)
    ensures BringsNoHash(ev)
  {
    assert PATTERNS[7] == HASH_KEY;
    hide BringsIn;
  }
}
