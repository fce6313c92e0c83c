/** The audit event: the record, its two printed forms, and the parser (event.h, event.c). */
module Event {
  import opened CStrings
  import opened Crypto
  import opened JsonFields

  const EVENT_TYPE_MAX: nat := 16
  const COMMAND_MAX: nat := 4096
  const USER_MAX: nat := 64
  const CWD_MAX: nat := 1024
  const TIMESTAMP_MAX: nat := 32
  const JSON_EVENT_MAX: nat := 8192

  /** The value of an audit event record. */
  datatype Event = Event(
    event_type: string, command: string, user: string, pid: int,
    cwd: string, timestamp: string, return_code: int, hash: string)

  const ZERO_EVENT := Event("", "", "", 0, "", "", 0, "")

  // --- printed forms --------------------------------------------------------------

  /** The members of the hash input, in the order of its format string. */
  function HashFields(ev: Event): (fs: seq<Field>)
    ensures |fs| == 7
  {
    [Text("event_type", ev.event_type), Text("command", ev.command), Text("user", ev.user),
     Number("pid", ev.pid), Text("cwd", ev.cwd), Text("timestamp", ev.timestamp),
     Number("return_code", ev.return_code)]
  }

  /** The stored and posted form has the hash as an eighth member. */
  function AllFields(ev: Event): (fs: seq<Field>)
    ensures |fs| == 8
  {
    HashFields(ev) + [Text("hash", ev.hash)]
  }

  /** `{"event_type":"%s","command":"%s",..,"return_code":%d}` */
  function CanonicalText(ev: Event): string { Object(HashFields(ev)) }

  /** The same with `,"hash":"%s"` before the closing brace. */
  function JsonText(ev: Event): string { Object(AllFields(ev)) }

  predicate FieldsFree(ev: Event, c: char)
  {
    && c !in ev.event_type && c !in ev.command && c !in ev.user
    && c !in ev.cwd && c !in ev.timestamp && c !in ev.hash
  }

  lemma FieldFree(ev: Event, c: char, j: nat)
    requires (c == NUL || c == '\n') && FieldsFree(ev, c) && j < 8
    ensures c !in AllFields(ev)[j].key && (AllFields(ev)[j].Text? ==> c !in AllFields(ev)[j].text)
  {
  }

  /** A NUL or newline outside the fields is in neither text. */
  lemma TextsFree(ev: Event, c: char)
    requires (c == NUL || c == '\n') && FieldsFree(ev, c)
    ensures c !in CanonicalText(ev) && c !in JsonText(ev)
  {
    forall j | 0 <= j < 8
      ensures c !in AllFields(ev)[j].key && (AllFields(ev)[j].Text? ==> c !in AllFields(ev)[j].text)
    {
      FieldFree(ev, c, j);
    }
    assert forall j | 0 <= j < 7 :: HashFields(ev)[j] == AllFields(ev)[j];
    RenderFree(HashFields(ev), c);
    RenderFree(AllFields(ev), c);
  }

  /** What `snprintf` leaves in a buffer of `size` bytes. */
  function Printed(text: string, size: nat): (r: string)
    requires 0 < size
    ensures r <= text && |r| < size && (r == text || |r| == size - 1)
  {
    if |text| < size then text else text[..size - 1]
  }

  /** The text whose digest is the event's hash. */
  function HashInput(ev: Event): string { Printed(CanonicalText(ev), JSON_EVENT_MAX) }

  function HashOf(sha: Digest, ev: Event): string { HexDigest(sha, HashInput(ev)) }

  // --- the parser, as a function ----------------------------------------------------

  /** What a bounded copy loop takes: up to a quote, the end, or `max` characters. */
  function CopyRun(s: string, max: nat): (r: string)
    ensures QUOTE !in r && |r| <= max && r <= s
  {
    if s == [] || s[0] == QUOTE || max == 0 then [] else [s[0]] + CopyRun(s[1..], max - 1)
  }

  /** The command's copy loop: a backslash is dropped and the next character taken as it is. */
  function UnescapeRun(s: string, max: nat): (r: string)
    ensures |r| <= max && |r| <= |s| && forall c | c in r :: c in s
  {
    if s == [] || s[0] == QUOTE || max == 0 then []
    else if s[0] == BACKSLASH && |s| > 1 then [s[1]] + UnescapeRun(s[2..], max - 1)
    else [s[0]] + UnescapeRun(s[1..], max - 1)
  }

  const TYPE_KEY := "\"event_type\":\""
  const COMMAND_KEY := "\"command\":\""
  const USER_KEY := "\"user\":\""
  const PID_KEY := "\"pid\":"
  const CWD_KEY := "\"cwd\":\""
  const TIMESTAMP_KEY := "\"timestamp\":\""
  const RETURN_CODE_KEY := "\"return_code\":"
  const HASH_KEY := "\"hash\":\""

  function FindText(json: string, key: string, max: nat): Option<string>
  {
    match After(json, key)
    case None => None
    case Some(s) => Some(CopyRun(s, max))
  }

  function FindCommand(json: string): Option<string>
  {
    match After(json, COMMAND_KEY)
    case None => None
    case Some(s) => Some(UnescapeRun(s, COMMAND_MAX - 1))
  }

  function FindNat(json: string, key: string): Option<int>
  {
    match After(json, key)
    case None => None
    case Some(s) => Some(ScanNat(s, 0))
  }

  function FindInt(json: string, key: string): Option<int>
  {
    match After(json, key)
    case None => None
    case Some(s) => Some(ScanInt(s))
  }

  /** What each of the eight searches finds; every one starts at the beginning of the text. */
  datatype Found = Found(
    event_type: Option<string>, command: Option<string>, user: Option<string>, pid: Option<int>,
    cwd: Option<string>, timestamp: Option<string>, return_code: Option<int>, hash: Option<string>)

  function Search(json: string): Found
  {
    Found(
      FindText(json, TYPE_KEY, EVENT_TYPE_MAX - 1),
      FindCommand(json),
      FindText(json, USER_KEY, USER_MAX - 1),
      FindNat(json, PID_KEY),
      FindText(json, CWD_KEY, CWD_MAX - 1),
      FindText(json, TIMESTAMP_KEY, TIMESTAMP_MAX - 1),
      FindInt(json, RETURN_CODE_KEY),
      FindText(json, HASH_KEY, HASH_HEX_SIZE - 1))
  }

  /** The first four results go into the record until one search fails. */
  function FillFirst(f: Found, e0: Event): (int, Event)
  {
    if f.event_type.None? then (-1, e0) else
    var e1 := e0.(event_type := f.event_type.value);
    if f.command.None? then (-1, e1) else
    var e2 := e1.(command := f.command.value);
    if f.user.None? then (-1, e2) else
    var e3 := e2.(user := f.user.value);
    if f.pid.None? then (-1, e3) else (0, e3.(pid := f.pid.value))
  }

  function FillLast(f: Found, e4: Event): (int, Event)
  {
    if f.cwd.None? then (-1, e4) else
    var e5 := e4.(cwd := f.cwd.value);
    if f.timestamp.None? then (-1, e5) else
    var e6 := e5.(timestamp := f.timestamp.value);
    if f.return_code.None? then (-1, e6) else
    var e7 := e6.(return_code := f.return_code.value);
    if f.hash.None? then (-1, e7) else (0, e7.(hash := f.hash.value))
  }

  /** `audit_event_from_json`: the return code, and the record as the call leaves it. */
  function ParseEvent(json: string): (int, Event)
  {
    var f := Search(json);
    var (rc, e) := FillFirst(f, ZERO_EVENT);
    if rc != 0 then (rc, e) else FillLast(f, e)
  }

  // --- library calls on buffers -----------------------------------------------------

  method MemZero(dst: array<char>)
    modifies dst
    ensures forall k | 0 <= k < dst.Length :: dst[k] == NUL
    ensures 0 < dst.Length ==> Held(dst) == ""
  {
    forall k | 0 <= k < dst.Length {
      dst[k] := NUL;
    }
  }

  /** `strncpy`: at most `n` characters, padded with NULs; what lies beyond is untouched. */
  method StrNCpy(dst: array<char>, src: string, n: nat)
    requires NUL !in src && n < dst.Length && dst[n] == NUL
    modifies dst
    ensures Held(dst) == if |src| <= n then src else src[..n]
  {
    var i := 0;
    while i < n
      invariant 0 <= i <= n && dst[n] == NUL
      invariant forall k | 0 <= k < i :: dst[k] == if k < |src| then src[k] else NUL
    {
      dst[i] := if i < |src| then src[i] else NUL;
      i := i + 1;
    }
    var text := if |src| <= n then src else src[..n];
    assert text == dst[..|text|];
    CStrIs(dst[..], text);
  }

  /** `snprintf(buf, sizeof(buf), ..)` of an already expanded text. */
  method SnPrintf(buf: array<char>, text: string)
    requires 0 < buf.Length && NUL !in text
    modifies buf
    ensures Held(buf) == Printed(text, buf.Length)
  {
    var n := if |text| < buf.Length then |text| else buf.Length - 1;
    forall k | 0 <= k < n {
      buf[k] := text[k];
    }
    buf[n] := NUL;
    assert buf[..n] == text[..n];
    CStrIs(buf[..], text[..n]);
  }

  // --- the copy and digit loops -------------------------------------------------------

  lemma CopyStep(done: string, s: string, max: nat)
    requires s != "" && s[0] != QUOTE && max > 0
    ensures done + CopyRun(s, max) == (done + [s[0]]) + CopyRun(s[1..], max - 1)
  {
    Reassociate(done, [s[0]], CopyRun(s[1..], max - 1));
  }

  lemma UnescapeStep(done: string, s: string, max: nat)
    requires s != "" && s[0] != QUOTE && max > 0
    ensures var k := if s[0] == BACKSLASH && |s| > 1 then 1 else 0;
            done + UnescapeRun(s, max) == (done + [s[k]]) + UnescapeRun(s[k + 1..], max - 1)
  {
    var k := if s[0] == BACKSLASH && |s| > 1 then 1 else 0;
    Reassociate(done, [s[k]], UnescapeRun(s[k + 1..], max - 1));
  }

  method PutChar(dst: array<char>, i: nat, c: char)
    requires i < dst.Length
    modifies dst
    ensures dst[..i + 1] == old(dst[..i]) + [c]
  {
    dst[i] := c;
  }

  lemma {:induction false} CopyEnd(s: string, max: nat)
    requires s == "" || s[0] == QUOTE || max == 0
    ensures CopyRun(s, max) == "" && UnescapeRun(s, max) == ""
  {
  }

  method CopyUntilQuote(s: string, dst: array<char>)
    requires NUL !in s && 0 < dst.Length
    modifies dst
    ensures Held(dst) == CopyRun(s, dst.Length - 1)
  {
    hide CStr, Held, CopyRun;
    var max := dst.Length - 1;
    var p, i := 0, 0;
    ghost var done := "";
    while p < |s| && s[p] != QUOTE && i < max
      invariant 0 <= p <= |s| && 0 <= i <= max
      invariant done == dst[..i] && NUL !in done
      invariant CopyRun(s, max) == done + CopyRun(s[p..], max - i)
    {
      CopyStep(done, s[p..], max - i);
      assert s[p..][1..] == s[p + 1..];
      PutChar(dst, i, s[p]);
      done := done + [s[p]];
      i, p := i + 1, p + 1;
    }
    CopyEnd(s[p..], max - i);
    dst[i] := NUL;
    HeldIs(dst, done);
  }

  method CopyCommand(s: string, dst: array<char>)
    requires NUL !in s && 0 < dst.Length
    modifies dst
    ensures Held(dst) == UnescapeRun(s, dst.Length - 1)
  {
    hide CStr, Held, UnescapeRun;
    var max := dst.Length - 1;
    var p, i := 0, 0;
    ghost var done := "";
    while p < |s| && s[p] != QUOTE && i < max
      invariant 0 <= p <= |s| && 0 <= i <= max
      invariant done == dst[..i] && NUL !in done
      invariant UnescapeRun(s, max) == done + UnescapeRun(s[p..], max - i)
    {
      UnescapeStep(done, s[p..], max - i);
      ghost var rest := s[p..];
      if s[p] == BACKSLASH && p + 1 < |s| {
        assert rest[2..] == s[p + 2..] && rest[1] == s[p + 1];
        p := p + 1;
      } else {
        assert rest[1..] == s[p + 1..];
      }
      PutChar(dst, i, s[p]);
      done := done + [s[p]];
      i, p := i + 1, p + 1;
    }
    CopyEnd(s[p..], max - i);
    dst[i] := NUL;
    HeldIs(dst, done);
  }

  method ReadDigits(s: string) returns (v: nat)
    ensures v == ScanNat(s, 0)
  {
    v := 0;
    var p := 0;
    while p < |s| && '0' <= s[p] <= '9'
      invariant 0 <= p <= |s|
      invariant ScanNat(s, 0) == ScanNat(s[p..], v)
    {
      assert s[p..][1..] == s[p + 1..];
      v := v * 10 + (s[p] as int - '0' as int);
      p := p + 1;
    }
  }

  /** Search from the start of the text, then copy. */
  method ScanText(json: string, key: string, dst: array<char>) returns (found: bool)
    requires NUL !in json && 0 < dst.Length
    modifies dst
    ensures found == FindText(json, key, dst.Length - 1).Some?
    ensures Held(dst) == if found then FindText(json, key, dst.Length - 1).value else old(Held(dst))
  {
    var p := After(json, key);
    found := p.Some?;
    if found {
      CopyUntilQuote(p.value, dst);
    }
  }

  method ScanCommand(json: string, dst: array<char>) returns (found: bool)
    requires NUL !in json && dst.Length == COMMAND_MAX
    modifies dst
    ensures found == FindCommand(json).Some?
    ensures Held(dst) == if found then FindCommand(json).value else old(Held(dst))
  {
    var p := After(json, COMMAND_KEY);
    found := p.Some?;
    if found {
      CopyCommand(p.value, dst);
    }
  }

  method ReadSigned(s: string) returns (v: int)
    ensures v == ScanInt(s)
  {
    var digits, sign := s, 1;
    if s != "" && s[0] == '-' {
      digits, sign := s[1..], -1;
    }
    v := ReadDigits(digits);
    v := v * sign;
  }

  // --- the record ---------------------------------------------------------------------

  class AuditEvent {
    const event_type: array<char>
    const command: array<char>
    const user: array<char>
    var pid: int
    const cwd: array<char>
    const timestamp: array<char>
    var return_code: int
    const hash: array<char>

    /** The buffers have the declared sizes; as these differ, no two buffers are one. */
    ghost predicate Valid()
    {
      && event_type.Length == EVENT_TYPE_MAX
      && command.Length == COMMAND_MAX
      && user.Length == USER_MAX
      && cwd.Length == CWD_MAX
      && timestamp.Length == TIMESTAMP_MAX
      && hash.Length == HASH_HEX_SIZE
    }

    function Value(): (v: Event)
      reads this, event_type, command, user, cwd, timestamp, hash
    {
      Event(Held(event_type), Held(command), Held(user), pid,
            Held(cwd), Held(timestamp), return_code, Held(hash))
    }

    constructor ()
      ensures Valid() && fresh(event_type) && fresh(command) && fresh(user)
      ensures fresh(cwd) && fresh(timestamp) && fresh(hash)
    {
      event_type := new char[EVENT_TYPE_MAX];
      command := new char[COMMAND_MAX];
      user := new char[USER_MAX];
      pid := 0;
      cwd := new char[CWD_MAX];
      timestamp := new char[TIMESTAMP_MAX];
      return_code := 0;
      hash := new char[HASH_HEX_SIZE];
    }

    /** `memset(ev, 0, sizeof(AuditEvent))`. */
    method Zero()
      requires Valid()
      modifies this, event_type, command, user, cwd, timestamp, hash
      ensures Value() == ZERO_EVENT
      ensures event_type[EVENT_TYPE_MAX - 1] == command[COMMAND_MAX - 1] == user[USER_MAX - 1] == NUL
      ensures cwd[CWD_MAX - 1] == NUL
    {
      MemZero(event_type);
      MemZero(command);
      MemZero(user);
      pid := 0;
      MemZero(cwd);
      MemZero(timestamp);
      return_code := 0;
      MemZero(hash);
    }

    method Init(kind: string, cmd: string, pid: int, return_code: int)
      requires Valid() && NUL !in kind && NUL !in cmd
      modifies this, event_type, command, user, cwd, timestamp, hash
      ensures Value() == Event(Printed(kind, EVENT_TYPE_MAX), Printed(cmd, COMMAND_MAX), "unknown", pid,
                               "/", "", return_code, "")
    {
      hide Held;
      Zero();
      StrNCpy(event_type, kind, EVENT_TYPE_MAX - 1);
      StrNCpy(command, cmd, COMMAND_MAX - 1);
      this.pid := pid;
      this.return_code := return_code;
      StrNCpy(user, "unknown", USER_MAX - 1);
      StrNCpy(cwd, "/", CWD_MAX - 1);
    }

    /** `ev.hash[0] = '\\0'`. */
    method BlankHash()
      requires Valid()
      modifies hash
      ensures Value() == old(Value()).(hash := "")
    {
      hash[0] := NUL;
    }

    method ComputeHash(sha: Digest)
      requires Valid()
      modifies hash
      ensures Value() == old(Value()).(hash := HashOf(sha, old(Value())))
    {
      hide Held;
      var buf := new char[JSON_EVENT_MAX];
      TextsFree(Value(), NUL);
      SnPrintf(buf, CanonicalText(Value()));
      Sha256Hash(sha, Held(buf), hash);
    }

    method ToJson(buf: array<char>)
      requires Valid() && 0 < buf.Length
      requires buf !in {event_type, command, user, cwd, timestamp, hash}
      modifies buf
      ensures Value() == old(Value())
      ensures Held(buf) == Printed(JsonText(Value()), buf.Length)
    {
      hide Held;
      TextsFree(Value(), NUL);
      SnPrintf(buf, JsonText(Value()));
    }

    method SetPid(v: int)
      requires Valid()
      modifies `pid
      ensures Value() == old(Value()).(pid := v)
    {
      pid := v;
    }

    method SetReturnCode(v: int)
      requires Valid()
      modifies `return_code
      ensures Value() == old(Value()).(return_code := v)
    {
      return_code := v;
    }

    method ReadFirst(json: string) returns (rc: int)
      requires Valid() && NUL !in json
      modifies this, event_type, command, user, cwd, timestamp, hash
      ensures (rc, Value()) == FillFirst(Search(json), old(Value()))
    {
      hide Held;
      ghost var e := Value();
      var found := ScanText(json, TYPE_KEY, event_type);
      if !found { return -1; }
      e := e.(event_type := Held(event_type));
      assert Value() == e;
      found := ScanCommand(json, command);
      if !found { return -1; }
      e := e.(command := Held(command));
      assert Value() == e;
      found := ScanText(json, USER_KEY, user);
      if !found { return -1; }
      e := e.(user := Held(user));
      assert Value() == e;
      var p := After(json, PID_KEY);
      if p.None? { return -1; }
      var v := ReadDigits(p.value);
      SetPid(v);
      return 0;
    }

    method ReadLast(json: string) returns (rc: int)
      requires Valid() && NUL !in json
      modifies this, event_type, command, user, cwd, timestamp, hash
      ensures (rc, Value()) == FillLast(Search(json), old(Value()))
    {
      hide Held;
      ghost var e := Value();
      var found := ScanText(json, CWD_KEY, cwd);
      if !found { return -1; }
      e := e.(cwd := Held(cwd));
      assert Value() == e;
      found := ScanText(json, TIMESTAMP_KEY, timestamp);
      if !found { return -1; }
      e := e.(timestamp := Held(timestamp));
      assert Value() == e;
      var p := After(json, RETURN_CODE_KEY);
      if p.None? { return -1; }
      var v := ReadSigned(p.value);
      SetReturnCode(v);
      found := ScanText(json, HASH_KEY, hash);
      if !found { return -1; }
      return 0;
    }

    method FromJson(json: string) returns (rc: int)
      requires Valid() && NUL !in json
      modifies this, event_type, command, user, cwd, timestamp, hash
      ensures (rc, Value()) == ParseEvent(json)
    {
      Zero();
      rc := ReadFirst(json);
      if rc == 0 {
        rc := ReadLast(json);
      }
    }
  }
}
