/** The integrity test (main.c, cmd_integrity_test): parse every stored line, recompute the
    hash, compare; and what that finds in logs of genuine, unreadable and tampered events. */
module Integrity {
  import opened CStrings
  import opened JsonFields
  import opened Crypto
  import opened Event
  import opened EventProofs
  import opened RoundTrip
  import opened LocalLog
  import opened BrokenLines

  /** A stored line passes when it parses and its hash is the recomputed one. */
  predicate Passes(sha: Digest, line: string)
  {
    var (rc, ev) := ParseEvent(line);
    rc == 0 && HashOf(sha, ev) == ev.hash
  }

  function Verdicts(sha: Digest, lines: seq<string>): (r: seq<bool>)
    ensures |r| == |lines|
  {
    seq(|lines|, i requires 0 <= i < |lines| => Passes(sha, lines[i]))
  }

  /** The positions of the negative verdicts, in order. */
  function Negatives(oks: seq<bool>): (r: seq<nat>)
    ensures |r| <= |oks|
  {
    if oks == [] then []
    else
      var n := |oks| - 1;
      Negatives(oks[..n]) + if oks[n] then [] else [n]
  }

  /** The reported line numbers. */
  function Failing(sha: Digest, lines: seq<string>): seq<nat> { Negatives(Verdicts(sha, lines)) }

  /** The lines the test looks at: those of the file, tampered with first when the line exists. */
  function TestedLines(file: Option<string>, tamperLine: int, value: string): seq<string>
  {
    FileLines(if 0 <= tamperLine < |FileLines(file)| then TamperedFile(file, tamperLine, value) else file)
  }

  method CheckLine(sha: Digest, line: string) returns (ok: bool)
    requires NUL !in line
    ensures ok == Passes(sha, line)
  {
    hide Held, ParseEvent, HashOf;
    var ev := new AuditEvent();
    var rc := ev.FromJson(line);
    if rc != 0 {
      return false;
    }
    ghost var parsed := ev.Value();
    var stored := Held(ev.hash);
    ev.BlankHash();
    HashIgnoresHash(sha, parsed);
    ev.ComputeHash(sha);
    ok := Held(ev.hash) == stored;
  }

  lemma HashIgnoresHash(sha: Digest, ev: Event)
    ensures HashOf(sha, ev) == HashOf(sha, ev.(hash := ""))
  {
    assert HashFields(ev) == HashFields(ev.(hash := ""));
  }

  method IntegrityTest(sha: Digest, log: Log, tamperLine: int, tamperValue: string)
    returns (rc: int, verified: nat, failed: nat, reported: seq<nat>)
    requires log.Valid() && NUL !in tamperValue
    modifies log, log.cached_lines
    ensures log.Valid()
    ensures log.file == if 0 <= tamperLine < |FileLines(old(log.file))|
                        then TamperedFile(old(log.file), tamperLine, tamperValue) else old(log.file)
    ensures var lines := TestedLines(old(log.file), tamperLine, tamperValue);
            && reported == Failing(sha, lines)
            && failed == |reported| && verified + failed == |lines|
    ensures rc == if failed > 0 then 1 else 0
    ensures old(log.file).None? ==> rc == 0 && verified == 0 && reported == [] && log.file.None?
  {
    var count := log.ReadAll();
    if tamperLine >= 0 && tamperLine < count {
      var _ := log.SimulateTamper(tamperLine, tamperValue);
      count := log.ReadAll();
    }
    verified, failed, reported := CheckLines(sha, log, count);
    rc := if failed > 0 then 1 else 0;
  }

  method CheckLines(sha: Digest, log: Log, count: nat) returns (verified: nat, failed: nat, reported: seq<nat>)
    requires log.Valid() && count <= MAX_LINES && log.cached_lines[..count] == FileLines(log.file)
    ensures reported == Failing(sha, FileLines(log.file))
    ensures failed == |reported| && verified + failed == count
  {
    hide Passes;
    ghost var lines := FileLines(log.file);
    ghost var oks := Verdicts(sha, lines);
    verified, failed, reported := 0, 0, [];
    var i := 0;
    while i < count
      invariant 0 <= i <= count == |oks|
      invariant reported == Negatives(oks[..i])
      invariant failed == |reported| && verified + failed == i
    {
      FileLinesFit(log.file, i);
      assert log.cached_lines[i] == lines[i];
      var ok := CheckLine(sha, log.cached_lines[i]);
      assert ok == oks[i];
      assert oks[..i + 1][..i] == oks[..i] && oks[..i + 1][i] == oks[i];
      if ok {
        verified := verified + 1;
      } else {
        failed := failed + 1;
        reported := reported + [i];
      }
      i := i + 1;
    }
    assert oks[..count] == oks;
  }

  // --- one line ---------------------------------------------------------------------------------

  /** A record as it is when it is logged: within its buffers, and hashed. */
  predicate Fresh(sha: Digest, ev: Event)
  {
    Representable(ev) && ev.return_code != -INT_MAX - 1 && ev.hash == HashOf(sha, ev)
  }

  /** One without quotes and newlines in its fields besides. */
  predicate Genuine(sha: Digest, ev: Event)
  {
    Fresh(sha, ev) && HashFieldsQuoteFree(ev) && FieldsFree(ev, '\n')
  }

  lemma GenuineHash(sha: Digest, ev: Event)
    requires ev.hash == HashOf(sha, ev)
    ensures |ev.hash| == 64 && QUOTE !in ev.hash && NUL !in ev.hash && '\n' !in ev.hash
  {
  }

  /** Recomputed and stored hashes agree when the texts do, and otherwise only by a collision. */
  lemma EqualHashes(sha: Digest, a: Event, b: Event)
    requires Representable(a) && Representable(b)
    ensures HashOf(sha, a) == HashOf(sha, b) <==>
              CanonicalText(a) == CanonicalText(b) || Collides(sha, CanonicalText(a), CanonicalText(b))
  {
    NeverTruncated(a);
    NeverTruncated(b);
    if HashOf(sha, a) == HashOf(sha, b) && CanonicalText(a) != CanonicalText(b) {
      EqualHexCollides(sha, CanonicalText(a), CanonicalText(b));
    }
  }

  /** A line from which a fresh event's hash is read passes exactly when what is read from it has
      the event's hash input, or one that collides with it. */
  lemma VerdictByText(sha: Digest, ev: Event, line: string)
    requires Fresh(sha, ev)
    ensures var (rc, p) := ParseEvent(line);
            rc == 0 && p.hash == ev.hash ==>
              (Passes(sha, line) <==>
                 CanonicalText(p) == CanonicalText(ev) || Collides(sha, CanonicalText(ev), HashInput(p)))
  {
    hide ParseEvent, CanonicalText, Representable, HexDigest;
    var (rc, p) := ParseEvent(line);
    NeverTruncated(ev);
    if HashInput(p) != CanonicalText(ev) && HashOf(sha, p) == ev.hash {
      EqualHexCollides(sha, CanonicalText(ev), HashInput(p));
    }
    if Collides(sha, CanonicalText(ev), HashInput(p)) {
      CollisionHashes(sha, CanonicalText(ev), HashInput(p));
    }
  }

  lemma CollisionHashes(sha: Digest, a: string, b: string)
    requires Collides(sha, a, b)
    ensures HexDigest(sha, a) == HexDigest(sha, b)
  {
  }

  /** Any line at all passes only if a genuine event is read from it, or another hash than the
      event's, or by a collision; with the event's hash it passes exactly then. */
  lemma VerdictByHash(sha: Digest, ev: Event, line: string)
    requires Genuine(sha, ev)
    ensures var (rc, p) := ParseEvent(line);
            && (rc == 0 && p.hash == ev.hash ==>
                  (Passes(sha, line) <==> p == ev || Collides(sha, CanonicalText(ev), HashInput(p))))
            && (Passes(sha, line) ==>
                  p == ev || p.hash != ev.hash || Collides(sha, CanonicalText(ev), HashInput(p)))
  {
    VerdictByText(sha, ev, line);
    hide ParseEvent, CanonicalText, Representable, HashOf, HashInput, Collides;
    var (rc, p) := ParseEvent(line);
    if CanonicalText(p) == CanonicalText(ev) && p.hash == ev.hash {
      HashInputInjective(ev, p);
      assert p == Hashed(p).(hash := p.hash) && ev == Hashed(ev).(hash := ev.hash);
    }
  }

  /** A freshly logged event whose own hash is read passes its own test exactly when no field has
      a quote, its command has no backslash and its pid is not negative, or by a collision of two
      named texts.  Its own hash is read unless a field brings in the hash's key. */
  lemma ExactAcceptance(sha: Digest, ev: Event)
    requires Fresh(sha, ev)
    ensures var (rc, p) := ParseEvent(JsonText(ev));
            && rc == 0
            && (p.hash == ev.hash ==>
                  (Passes(sha, JsonText(ev)) <==>
                     (HashFieldsQuoteFree(ev) && Readable(ev)) || Collides(sha, CanonicalText(ev), HashInput(p))))
            && (BringsNoHash(ev) ==> p.hash == ev.hash)
  {
    hide ParseEvent, JsonText, CanonicalText, Passes, Collides, BringsNoHash, HashOf, HashInput;
    GenuineHash(sha, ev);
    ParseSucceeds(ev);
    VerdictByText(sha, ev, JsonText(ev));
    var (rc, p) := ParseEvent(JsonText(ev));
    if p.hash == ev.hash && CanonicalText(p) == CanonicalText(ev) {
      SameTextsReadBack(ev, p);
    }
    if HashFieldsQuoteFree(ev) && Readable(ev) {
      ParsePrinted(ev);
      RereadReadable(ev);
    }
    if BringsNoHash(ev) {
      OwnHashRead(ev);
    }
  }

  /** In particular a quote-free event: what is read is its reread form. */
  lemma GenuineAcceptance(sha: Digest, ev: Event)
    requires Genuine(sha, ev)
    ensures Passes(sha, JsonText(ev)) <==>
              Readable(ev) || Collides(sha, CanonicalText(ev), CanonicalText(Reread(ev)))
  {
    hide ParseEvent, JsonText, CanonicalText, Passes, Collides;
    GenuineHash(sha, ev);
    ParsePrinted(ev);
    RereadKeepsBounds(ev);
    NeverTruncated(Reread(ev));
    ExactAcceptance(sha, ev);
  }

  /** A fresh event with the given command. */
  lemma FreshWith(sha: Digest, command: string) returns (ev: Event)
    requires NUL !in command && |command| < COMMAND_MAX
    ensures Fresh(sha, ev) && ev == ZERO_EVENT.(command := command, hash := ev.hash)
    ensures QUOTE !in command && '\n' !in command ==> Genuine(sha, ev)
  {
    hide HexDigest, HashInput;
    var plain := ZERO_EVENT.(command := command);
    ev := plain.(hash := HashOf(sha, plain));
    HashIgnoresHash(sha, ev);
  }

  /** A genuine event with the command `\ls` is reported although nobody touched it, or the
      two named texts collide. */
  lemma BackslashReported(sha: Digest) returns (ev: Event)
    ensures Genuine(sha, ev) && ev.command == "\\ls"
    ensures !Passes(sha, JsonText(ev)) || Collides(sha, CanonicalText(ev), CanonicalText(ev.(command := "ls")))
  {
    hide ParseEvent, JsonText, CanonicalText, Passes, Collides, CommandReread, HashOf, HexDigest;
    ev := FreshWith(sha, "\\ls");
    GenuineAcceptance(sha, ev);
    EscapeDropped("ls");
    assert [BACKSLASH] + "ls" == "\\ls";
    assert ev.command[0] == BACKSLASH;
  }

  /** So is a fresh event with the command `echo "hi"`. */
  lemma QuoteReported(sha: Digest) returns (ev: Event)
    ensures Fresh(sha, ev) && ev.command == "echo \"hi\"" && BringsNoKey(ev)
    ensures !Passes(sha, JsonText(ev)) ||
            Collides(sha, CanonicalText(ev), HashInput(ParseEvent(JsonText(ev)).1))
  {
    var c := "echo \"hi\"";
    assert NUL !in c && |c| == 9;
    assert c[5] == QUOTE;
    hide ParseEvent, JsonText, CanonicalText, Passes, Collides, CommandReread, HashOf, HexDigest, BringsInKey;
    ev := FreshWith(sha, c);
    EchoBringsNoKey();
    QuoteFreeBringsNoKey("");
    NoKeyNoHash(ev);
    ExactAcceptance(sha, ev);
  }

  lemma EchoBringsNoKey()
    ensures !BringsInKey("echo \"hi\"", 0)
  {
    hide BringsIn;
    forall j | 0 <= j < 8 ensures !BringsIn("echo \"hi\"", PATTERNS[j]) {
      EchoBringsNot(j);
    }
  }

  lemma EchoBringsNot(j: nat)
    requires j < 8
    ensures !BringsIn("echo \"hi\"", PATTERNS[j])
  {
    KeyShape(j);
    assert "echo "[4] == ' ';
    PatternStarts(j);
    hide BringsIn;
    EchoShowsNone(KEYS[j], PATTERNS[j]);
  }

  lemma EchoShowsNone(key: string, pat: string)
    requires PlainKey(key) && key != "echo " && key != "hi" && "\"" + key + "\":" <= pat
    ensures !BringsIn("echo \"hi\"", pat)
  {
    assert "\"" + ("echo \"hi\"" + "\"") == "\"" + ("echo " + ("\"" + ("hi" + ("\"" + ("" + ("\"" + ""))))));
    ThreeQuotes("echo ", "hi", key, pat);
  }

  /** Quotes around texts that are not the key show no key. */
  lemma {:induction false} ThreeQuotes(a: string, b: string, key: string, pat: string)
    requires PlainKey(key) && key != a && key != b && "\"" + key + "\":" <= pat && QUOTE !in a && QUOTE !in b
    ensures StrStr("\"" + (a + ("\"" + (b + ("\"" + ("" + ("\"" + "")))))), pat).None?
  {
    hide StrStr;
    var end := "" + ("\"" + "");
    PassToken(a, b + ("\"" + end), key, pat);
    PassToken(b, end, key, pat);
    PassToken("", "", key, pat);
    OneQuoteShort(key, pat);
  }

  lemma {:induction false} OneQuoteShort(key: string, pat: string)
    requires "\"" + key + "\":" <= pat
    ensures StrStr("\"" + "", pat).None?
  {
    assert "\"" + "" == "\"";
  }

  // --- whole logs ---------------------------------------------------------------------------------

  function Printouts(evs: seq<Event>): (r: seq<string>)
    ensures |r| == |evs| && forall i | 0 <= i < |evs| :: r[i] == JsonText(evs[i])
  {
    if evs == [] then [] else [JsonText(evs[0])] + Printouts(evs[1..])
  }

  lemma FreshText(ev: Event)
    requires Representable(ev)
    ensures NUL !in JsonText(ev) && |JsonText(ev)| <= READ_BUFFER - 2
  {
    NeverTruncated(ev);
    TextsFree(ev, NUL);
  }

  lemma {:induction false} PrintoutsAppend(evs: seq<Event>, ev: Event)
    ensures Printouts(evs + [ev]) == Printouts(evs) + [JsonText(ev)]
  {
    hide JsonText;
    if evs == [] {
      assert ([] + [ev])[1..] == [];
    } else {
      assert (evs + [ev])[1..] == evs[1..] + [ev];
      PrintoutsAppend(evs[1..], ev);
    }
  }

  /** Logging one more event extends the file by exactly its printed form. */
  lemma {:induction false} WriteExtendsLog(evs: seq<Event>, ev: Event)
    requires Representable(ev)
    ensures Written(Printouts(evs)) + (Printed(JsonText(ev), JSON_EVENT_MAX) + "\n") == Written(Printouts(evs + [ev]))
  {
    hide JsonText;
    NeverTruncated(ev);
    PrintoutsAppend(evs, ev);
    WrittenAppend(Printouts(evs), JsonText(ev));
  }

  /** A log of events reads back as the lines their printed forms fall into, up to the cache's
      capacity; without newlines in the fields these are the printed forms. */
  lemma {:induction false} LogReadsBack(evs: seq<Event>)
    requires forall i | 0 <= i < |evs| :: Representable(evs[i])
    ensures var lines := Pieces(Printouts(evs));
            FileLines(Some(Written(Printouts(evs)))) == if |lines| <= MAX_LINES then lines else lines[..MAX_LINES]
    ensures (forall i | 0 <= i < |evs| :: FieldsFree(evs[i], '\n')) ==> Pieces(Printouts(evs)) == Printouts(evs)
  {
    forall i | 0 <= i < |evs|
      ensures NUL !in Printouts(evs)[i] && |Printouts(evs)[i]| <= READ_BUFFER - 2
      ensures FieldsFree(evs[i], '\n') ==> '\n' !in Printouts(evs)[i]
    {
      FreshText(evs[i]);
      if FieldsFree(evs[i], '\n') {
        TextsFree(evs[i], '\n');
      }
    }
    hide JsonText;
    ReadBackPieces(Printouts(evs), MAX_LINES);
    if forall i | 0 <= i < |evs| :: FieldsFree(evs[i], '\n') {
      PiecesWhole(Printouts(evs));
    }
  }

  /** Exactly the lines from a to b fail. */
  lemma {:induction false} NegativesBetween(oks: seq<bool>, a: nat, b: nat)
    requires a <= b <= |oks|
    requires forall i | 0 <= i < |oks| :: oks[i] <==> !(a <= i < b)
    ensures Negatives(oks) == Numbers(a, b - a)
  {
    if oks != [] {
      var n := |oks| - 1;
      if b <= n {
        NegativesBetween(oks[..n], a, b);
      } else if a <= n {
        NegativesBetween(oks[..n], a, n);
        assert Numbers(a, b - a) == Numbers(a, n - a) + [n];
      } else {
        NegativesBetween(oks[..n], n, n);
      }
    }
  }

  /** `count` line numbers from `first` on. */
  function Numbers(first: nat, count: nat): (r: seq<nat>)
    ensures |r| == count && forall i | 0 <= i < count :: r[i] == first + i
  {
    seq(count, i requires 0 <= i < count => first + i)
  }

  lemma {:induction false} NegativesMember(oks: seq<bool>, i: nat)
    ensures i in Negatives(oks) <==> i < |oks| && !oks[i]
  {
    if oks != [] {
      NegativesMember(oks[..|oks| - 1], i);
    }
  }

  lemma FailingMember(sha: Digest, lines: seq<string>, i: nat)
    ensures i in Failing(sha, lines) <==> i < |lines| && !Passes(sha, lines[i])
  {
    hide Passes;
    NegativesMember(Verdicts(sha, lines), i);
  }

  /** An untouched log of readable genuine events passes completely. */
  lemma {:induction false} UntamperedPasses(sha: Digest, evs: seq<Event>, tamperLine: int, v: string)
    requires |evs| <= MAX_LINES && !(0 <= tamperLine < |evs|)
    requires forall i | 0 <= i < |evs| :: Genuine(sha, evs[i]) && Readable(evs[i])
    ensures var lines := TestedLines(Some(Written(Printouts(evs))), tamperLine, v);
            |lines| == |evs| && Failing(sha, lines) == []
  {
    hide JsonText, Passes, Representable, HashOf, Written, HashFieldsQuoteFree;
    LogReadsBack(evs);
    var oks := Verdicts(sha, Printouts(evs));
    forall i | 0 <= i < |evs| ensures oks[i] {
      GenuineAcceptance(sha, evs[i]);
    }
    NegativesBetween(oks, 0, 0);
  }

  /** No newline, no quote, no backslash in the command and no negative pid; or what is read from
      the unbroken line has a colliding hash input. */
  predicate Accepted(sha: Digest, ev: Event)
  {
    && '\n' !in JsonText(ev)
    && ((HashFieldsQuoteFree(ev) && Readable(ev)) ||
        Collides(sha, CanonicalText(ev), HashInput(ParseEvent(JsonText(ev)).1)))
  }

  /** Which lines are reported in any log of fresh events: line m of event i is reported exactly
      when it fails, and if no field of the event brings a key in, that is when the event falls
      into several lines, or has a quote, a backslash in its command or a negative pid, unless
      two named texts collide. */
  lemma {:induction false} ReportedLines(sha: Digest, evs: seq<Event>, i: nat, m: nat)
    requires |Pieces(Printouts(evs))| <= MAX_LINES
    requires forall j | 0 <= j < |evs| :: Fresh(sha, evs[j])
    requires i < |evs| && m < |Split(JsonText(evs[i]))|
    ensures var n := FirstPiece(Printouts(evs), i) + m;
            var lines := FileLines(Some(Written(Printouts(evs))));
            && n < |lines| && lines[n] == Split(JsonText(evs[i]))[m]
            && (n in Failing(sha, lines) <==> !Passes(sha, lines[n]))
            && (BringsNoKey(evs[i]) ==> (n in Failing(sha, lines) <==> !Accepted(sha, evs[i])))
  {
    hide *;
    FreshAreRepresentable(sha, evs);
    LineRead(evs, i, m);
    PieceReported(sha, FileLines(Some(Written(Printouts(evs)))), FirstPiece(Printouts(evs), i) + m, evs[i], m);
  }

  lemma FreshAreRepresentable(sha: Digest, evs: seq<Event>)
    requires forall j | 0 <= j < |evs| :: Fresh(sha, evs[j])
    ensures forall j | 0 <= j < |evs| :: Representable(evs[j])
  {
    hide Representable, HashOf;
  }

  lemma PieceReported(sha: Digest, lines: seq<string>, n: nat, ev: Event, m: nat)
    requires n < |lines| && m < |Split(JsonText(ev))| && lines[n] == Split(JsonText(ev))[m] && Fresh(sha, ev)
    ensures n in Failing(sha, lines) <==> !Passes(sha, lines[n])
    ensures BringsNoKey(ev) ==> (n in Failing(sha, lines) <==> !Accepted(sha, ev))
  {
    hide *;
    FailingMember(sha, lines, n);
    if BringsNoKey(ev) {
      PieceVerdict(sha, ev, m);
    }
  }

  lemma {:induction false} LineRead(evs: seq<Event>, i: nat, m: nat)
    requires |Pieces(Printouts(evs))| <= MAX_LINES && forall j | 0 <= j < |evs| :: Representable(evs[j])
    requires i < |evs| && m < |Split(JsonText(evs[i]))|
    ensures var n := FirstPiece(Printouts(evs), i) + m;
            var lines := FileLines(Some(Written(Printouts(evs))));
            n < |lines| && lines[n] == Split(JsonText(evs[i]))[m]
  {
    hide JsonText, Representable, Written, FileLines, FirstPiece, Pieces, Split;
    LogReadsBack(evs);
    PiecesAt(Printouts(evs), i, m);
  }

  lemma PieceVerdict(sha: Digest, ev: Event, m: nat)
    requires Fresh(sha, ev) && BringsNoKey(ev) && m < |Split(JsonText(ev))|
    ensures Passes(sha, Split(JsonText(ev))[m]) <==> Accepted(sha, ev)
  {
    hide JsonText, CanonicalText, Collides, HashOf, HashInput, ParseEvent;
    GenuineHash(sha, ev);
    if '\n' in JsonText(ev) {
      SplitBreaks(JsonText(ev));
      NoPieceParses(ev, m);
    } else {
      SplitWhole(JsonText(ev));
      NoKeyNoHash(ev);
      ExactAcceptance(sha, ev);
    }
  }
}
