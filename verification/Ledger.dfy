/** The blockchain side: the chaincode's put-by-hash over the peer's key-value state
    (chaincode/index.js) and the gateway in front of it (gateway/src/handlers.js).
    JavaScript's JSON functions are parameters. */
module Ledger {
  import opened CStrings
  import opened JsonFields
  import opened Crypto
  import opened Event
  import opened EventProofs
  import opened RoundTrip
  import opened Integrity
  import opened JsonReader

  datatype Result<+T> = Ok(value: T) | Err(error: string)

  /** `JSON.parse` and `JSON.stringify` on event objects. */
  datatype Json = Json(parse: string -> Option<Event>, stringify: Event -> string)

  /** The JSON functions read this event back unchanged. */
  predicate Faithful(js: Json, ev: Event) { js.parse(js.stringify(ev)) == Some(ev) }

  /** Both by RFC 8259, on objects that are events. */
  const STANDARD := Json(ParseJson, StringifyJson)

  type WorldState = map<string, string>

  /** The state after one successful submission of an event. */
  function Put(js: Json, state: WorldState, ev: Event): WorldState { state[ev.hash := js.stringify(ev)] }

  /** The state after submissions in order, starting from an empty ledger. */
  function Submitted(js: Json, evs: seq<Event>): WorldState
  {
    if evs == [] then map[] else Put(js, Submitted(js, evs[..|evs| - 1]), evs[|evs| - 1])
  }

  /** The parseable values under the given keys, in their order. */
  function Listed(js: Json, state: WorldState, keys: seq<string>): (r: seq<Event>)
    requires forall k | k in keys :: k in state
    ensures |r| <= |keys|
  {
    if keys == [] then []
    else
      var n := |keys| - 1;
      var rest := Listed(js, state, keys[..n]);
      match js.parse(state[keys[n]])
      case None => rest
      case Some(ev) => rest + [ev]
  }

  /** What an iterator over the full range yields: every key once, in some order. */
  predicate Range(state: WorldState, keys: seq<string>)
  {
    && (forall k | k in keys :: k in state) && (forall k | k in state :: k in keys)
    && forall i, j | 0 <= i < j < |keys| :: keys[i] != keys[j]
  }

  class Chaincode {
    const js: Json
    var state: WorldState

    constructor (js: Json)
      ensures this.js == js && state == map[]
    {
      this.js := js;
      state := map[];
    }

    method CreateEvent(eventJSON: string) returns (r: Result<string>)
      modifies this
      ensures match js.parse(eventJSON)
              case None => r.Err? && state == old(state)
              case Some(ev) =>
                if ev.hash == "" then r.Err? && state == old(state)
                else r == Ok(ev.hash) && state == old(state)[ev.hash := eventJSON]
    {
      var event := js.parse(eventJSON);
      if event.None? {
        return Err("failed to parse event JSON");
      }
      if event.value.hash == "" {
        return Err("event hash is required");
      }
      state := state[event.value.hash := eventJSON];
      r := Ok(event.value.hash);
    }

    method QueryByHash(hash: string) returns (r: Result<string>)
      ensures r == Queried(state, hash)
    {
      if hash !in state || state[hash] == "" {
        return Err("event not found: " + hash);
      }
      r := Ok(state[hash]);
    }

    method GetAllEvents(keys: seq<string>) returns (events: seq<Event>)
      requires Range(state, keys)
      ensures events == Listed(js, state, keys)
    {
      events := [];
      var i := 0;
      while i < |keys|
        invariant 0 <= i <= |keys|
        invariant events == Listed(js, state, keys[..i])
      {
        assert keys[..i + 1][..i] == keys[..i] && keys[i] in keys;
        var event := js.parse(state[keys[i]]);
        if event.Some? {
          events := events + [event.value];
        }
        i := i + 1;
      }
      assert keys[..|keys|] == keys;
    }

    method GetTotalCount(keys: seq<string>) returns (count: nat)
      requires Range(state, keys)
      ensures count == |Listed(js, state, keys)|
    {
      var events := GetAllEvents(keys);
      count := |events|;
    }

    /** The gateway's POST handler: the status, and the submission when it gets that far. */
    method PostEvent(healthy: bool, body: Option<Event>) returns (status: nat)
      modifies this
      ensures (status, state) == Received(js, old(state), healthy, body)
      ensures status == 400 <==> body.None? || body.value.hash == ""
      ensures status == 201 <==>
                && body.Some? && body.value.hash != "" && healthy
                && js.parse(js.stringify(body.value)).Some?
                && js.parse(js.stringify(body.value)).value.hash != ""
      ensures status == 400 || status == 201 || status == 422
      ensures status != 201 ==> state == old(state)
      ensures status == 201 ==>
                var text := js.stringify(body.value);
                state == old(state)[js.parse(text).value.hash := text]
      ensures status == 201 && Faithful(js, body.value) ==> state == Put(js, old(state), body.value)
    {
      if body.None? || body.value.hash == "" {
        return 400;
      }
      if !healthy {
        return 422;
      }
      var r := CreateEvent(js.stringify(body.value));
      status := if r.Ok? then 201 else 422;
    }
  }

  predicate Submittable(js: Json, ev: Event)
  {
    var parsed := js.parse(js.stringify(ev));
    parsed.Some? && parsed.value.hash != ""
  }

  /** What the POST handler answers and leaves, for a body as the JSON middleware parsed it. */
  function Received(js: Json, state: WorldState, healthy: bool, body: Option<Event>): (int, WorldState)
  {
    if body.None? || body.value.hash == "" then (400, state)
    else if !healthy || !Submittable(js, body.value) then (422, state)
    else
      var text := js.stringify(body.value);
      (201, state[js.parse(text).value.hash := text])
  }

  /** The three answers, and what each leaves. */
  lemma Answers(js: Json, state: WorldState, healthy: bool, body: Option<Event>)
    ensures var (status, after) := Received(js, state, healthy, body);
            var hashed := body.Some? && body.value.hash != "";
            var read := if body.Some? then js.parse(js.stringify(body.value)) else None;
            && (status == 400 <==> !hashed)
            && (status == 201 <==> hashed && healthy && read.Some? && read.value.hash != "")
            && (status == 422 <==> hashed && !(healthy && read.Some? && read.value.hash != ""))
            && (status != 201 ==> after == state)
            && (status == 201 ==>
                  && read.value.hash in after && after[read.value.hash] == js.stringify(body.value)
                  && after - {read.value.hash} == state - {read.value.hash})
  {
  }

  function Queried(state: WorldState, hash: string): Result<string>
  {
    if hash in state && state[hash] != "" then Ok(state[hash]) else Err("event not found: " + hash)
  }

  // --- what a post of the auditor stores --------------------------------------------------------

  /** The ledger after a post that commits: the client prints the event into its buffer, and
      the gateway parses that text and submits what it read. */
  function Posted(js: Json, state: WorldState, ev: Event): WorldState
  {
    Received(js, state, true, js.parse(Printed(JsonText(ev), JSON_EVENT_MAX))).1
  }

  /** The ledger after such posts in order, starting from an empty one. */
  function Committed(js: Json, evs: seq<Event>): WorldState
  {
    if evs == [] then map[] else Posted(js, Committed(js, evs[..|evs| - 1]), evs[|evs| - 1])
  }

  /** The gateway reads the auditor's text as the event it was printed from, and the chaincode
      reads the gateway's text so. */
  predicate Understood(js: Json, ev: Event) { js.parse(JsonText(ev)) == Some(ev) && Faithful(js, ev) }

  /** A committed post stores what the gateway reads from the auditor's text. */
  lemma PostStoresReading(js: Json, state: WorldState, ev: Event, other: Event)
    requires Representable(ev) && js.parse(JsonText(ev)) == Some(other)
    requires other.hash != "" && Faithful(js, other)
    ensures Posted(js, state, ev) == Put(js, state, other)
  {
    hide JsonText;
    NeverTruncated(ev);
  }

  /** Under a hash not bound yet that is the event itself exactly when the gateway reads the
      event itself. */
  lemma PostStoresEvent(js: Json, state: WorldState, ev: Event, other: Event)
    requires Representable(ev) && js.parse(JsonText(ev)) == Some(other)
    requires other.hash != "" && Faithful(js, other) && Faithful(js, ev) && ev.hash !in state
    ensures Posted(js, state, ev) == Put(js, state, ev) <==> other == ev
  {
    PostStoresReading(js, state, ev, other);
    if Put(js, state, other) == Put(js, state, ev) {
      assert ev.hash in Put(js, state, other);
      assert Put(js, state, other)[ev.hash] == js.stringify(other);
    }
  }

  lemma {:induction false} CommittedIsSubmitted(sha: Digest, js: Json, evs: seq<Event>)
    requires forall ev | ev in evs :: Genuine(sha, ev) && Understood(js, ev)
    ensures Committed(js, evs) == Submitted(js, evs)
  {
    hide JsonText, Posted, Put;
    if evs != [] {
      var n := |evs| - 1;
      CommittedIsSubmitted(sha, js, evs[..n]);
      assert evs[n] in evs;
      GenuineHash(sha, evs[n]);
      PostStoresReading(js, Committed(js, evs[..n]), evs[n], evs[n]);
    }
  }

  /** Every event survives being stringified and parsed. */
  lemma StandardFaithful(ev: Event)
    ensures Faithful(STANDARD, ev)
  {
    StringifyReads(ev);
  }

  /** The gateway understands exactly the events without quotes, backslashes and control
      characters in their fields. */
  lemma UnderstoodIffPlain(ev: Event)
    ensures Understood(STANDARD, ev) <==> PlainEvent(ev)
  {
    StandardFaithful(ev);
    ReadsItselfIffPlain(ev);
  }

  /** So under a hash not bound yet a post stores exactly these as they are. */
  lemma StoredIffPlain(state: WorldState, ev: Event)
    requires Representable(ev) && ev.hash != "" && ev.hash !in state
    ensures Posted(STANDARD, state, ev) == Put(STANDARD, state, ev) <==> PlainEvent(ev)
  {
    hide JsonText, ParseJson, StringifyJson;
    StandardFaithful(ev);
    UnderstoodIffPlain(ev);
    NeverTruncated(ev);
    match ParseJson(JsonText(ev))
    case None =>
    case Some(other) =>
      StandardFaithful(other);
      if other.hash != "" {
        PostStoresEvent(STANDARD, state, ev, other);
      }
  }

  /** An event that is stored differently: in the command `a\tb` the gateway reads a tab, so the
      ledger holds another event under the event's own hash. */
  lemma EscapeIsRewritten(sha: Digest) returns (ev: Event, other: Event)
    ensures Genuine(sha, ev) && ev.command == "a\\tb" && other == ev.(command := "a\tb")
    ensures Posted(STANDARD, map[], ev) == map[ev.hash := STANDARD.stringify(other)] != Put(STANDARD, map[], ev)
  {
    hide JsonText, Posted, ParseJson, StringifyJson, HashOf;
    ev := FreshWith(sha, "a\\tb");
    other := ev.(command := "a\tb");
    GenuineHash(sha, ev);
    assert |ev.command| == 4 && |other.command| == 3;
    HashIsPlain(sha, ev);
    TabIsRead(ev);
    StandardFaithful(ev);
    StandardFaithful(other);
    PostStoresReading(STANDARD, map[], ev, other);
    PostStoresEvent(STANDARD, map[], ev, other);
  }

  lemma HashIsPlain(sha: Digest, ev: Event)
    requires ev.hash == HashOf(sha, ev)
    ensures PlainText(ev.hash)
  {
  }

  lemma TabIsRead(ev: Event)
    requires ev.command == "a\\tb" && PlainEvent(ev.(command := ""))
    ensures ParseJson(JsonText(ev)) == Some(ev.(command := "a\tb"))
  {
    var other := ev.(command := "a\tb");
    PlainReads(ev.event_type);
    PlainReads(ev.user);
    PlainReads(ev.cwd);
    PlainReads(ev.timestamp);
    PlainReads(ev.hash);
    EscapedReads(other.command);
    TabEscaped();
    hide Reads, ParseJson, Escaped;
    PrintedReads(ev, other);
  }

  lemma TabEscaped()
    ensures Escaped("a\tb") == "a\\tb"
  {
    assert "a\tb"[1..] == "\tb" && "\tb"[1..] == "b" && "b"[1..] == "";
    assert Escaped("b") == "b" && Escaped("\tb") == "\\t" + "b";
    assert Escaped("a\tb") == "a" + ("\\t" + "b");
  }

  // --- stability under resends ------------------------------------------------------------------

  /** Two genuine events with one hash are one event, or their hash inputs collide. */
  lemma SameHashSameEvent(sha: Digest, a: Event, b: Event)
    requires Genuine(sha, a) && Genuine(sha, b) && a.hash == b.hash
    ensures a == b || Collides(sha, CanonicalText(a), CanonicalText(b))
  {
    EqualHashes(sha, a, b);
    if CanonicalText(a) == CanonicalText(b) {
      HashInputInjective(a, b);
      assert a == Hashed(a).(hash := a.hash) && b == Hashed(b).(hash := b.hash);
    }
  }

  predicate NoCollision(sha: Digest, evs: seq<Event>)
  {
    forall a, b | a in evs && b in evs :: !Collides(sha, CanonicalText(a), CanonicalText(b))
  }

  predicate HashIdentifies(evs: seq<Event>)
  {
    forall a, b | a in evs && b in evs && a.hash == b.hash :: a == b
  }

  /** Among genuine events without collisions a hash stands for one event. */
  lemma NoCollisionIdentifies(sha: Digest, evs: seq<Event>)
    requires forall ev | ev in evs :: Genuine(sha, ev)
    requires NoCollision(sha, evs)
    ensures HashIdentifies(evs)
  {
    hide Genuine, Collides, CanonicalText;
    forall a, b | a in evs && b in evs && a.hash == b.hash ensures a == b {
      SameHashSameEvent(sha, a, b);
    }
  }

  /** The ledger holds exactly the submitted events, each under its hash. */
  ghost predicate Holds(js: Json, state: WorldState, evs: seq<Event>)
  {
    && (forall ev | ev in evs :: ev.hash in state && state[ev.hash] == js.stringify(ev))
    && (forall h | h in state :: exists ev :: ev in evs && ev.hash == h)
  }

  lemma {:induction false} SubmittedHolds(js: Json, evs: seq<Event>)
    requires HashIdentifies(evs)
    ensures Holds(js, Submitted(js, evs), evs)
  {
    if evs != [] {
      var n := |evs| - 1;
      var before, last := evs[..n], evs[n];
      assert evs == before + [last];
      SubmittedHolds(js, before);
    }
  }

  /** Whatever genuine events are submitted, however often and in whatever order, every one
      of them stays under its hash, unless two of them collide. */
  lemma {:induction false} LedgerHolds(sha: Digest, js: Json, evs: seq<Event>)
    requires forall ev | ev in evs :: Genuine(sha, ev)
    requires NoCollision(sha, evs)
    ensures Holds(js, Submitted(js, evs), evs)
  {
    NoCollisionIdentifies(sha, evs);
    SubmittedHolds(js, evs);
  }

  /** A bound key keeps its value: submitting a genuine event again, or any other one whose
      hash is taken, changes nothing, unless it collides with a submitted event. */
  lemma {:induction false} ResendChangesNothing(sha: Digest, js: Json, evs: seq<Event>, ev: Event)
    requires forall e | e in evs + [ev] :: Genuine(sha, e)
    requires NoCollision(sha, evs + [ev])
    requires ev.hash in Submitted(js, evs)
    ensures Put(js, Submitted(js, evs), ev) == Submitted(js, evs) && ev in evs
  {
    hide Genuine, NoCollision;
    NoCollisionIdentifies(sha, evs + [ev]);
    assert forall e | e in evs :: e in evs + [ev];
    SubmittedHolds(js, evs);
    var stored :| stored in evs && stored.hash == ev.hash;
    assert stored in evs + [ev] && ev in evs + [ev];
  }

  /** Queries after any genuine submissions: an answer comes exactly for the hashes of submitted
      events, and it reads as the event with that hash. */
  lemma {:induction false} QueryFindsSubmitted(sha: Digest, js: Json, evs: seq<Event>, hash: string)
    requires forall ev | ev in evs :: Genuine(sha, ev) && Faithful(js, ev)
    requires NoCollision(sha, evs) && js.parse("").None?
    ensures var r := Queried(Submitted(js, evs), hash);
            && (r.Ok? <==> exists ev :: ev in evs && ev.hash == hash)
            && (forall ev | ev in evs && ev.hash == hash :: r == Ok(js.stringify(ev)) && js.parse(r.value) == Some(ev))
  {
    hide Genuine, NoCollision;
    LedgerHolds(sha, js, evs);
  }

  function Distinct(evs: seq<Event>): set<Event> { set ev | ev in evs }

  lemma Grows<T>(s: set<T>, x: T)
    ensures |s + {x}| == |s| + if x in s then 0 else 1
  {
    if x in s {
      assert s + {x} == s;
    }
  }

  /** Of identified events, a hash is taken exactly by the event itself. */
  lemma {:induction false} HashTaken(js: Json, before: seq<Event>, last: Event)
    requires HashIdentifies(before + [last]) && HashIdentifies(before)
    ensures last.hash in Submitted(js, before) <==> last in before
  {
    SubmittedHolds(js, before);
    if last.hash in Submitted(js, before) {
      var stored :| stored in before && stored.hash == last.hash;
      assert stored in before + [last] && last in before + [last];
    }
  }

  lemma {:induction false} SubmittedSize(js: Json, evs: seq<Event>)
    requires HashIdentifies(evs)
    ensures |Submitted(js, evs)| == |Distinct(evs)|
  {
    if evs != [] {
      var n := |evs| - 1;
      var before, last := evs[..n], evs[n];
      assert evs == before + [last];
      SubmittedSize(js, before);
      OneMoreSize(js, before, last);
    }
  }

  lemma GrowTogether(state: WorldState, key: string, value: string, seen: set<Event>, ev: Event)
    requires key in state <==> ev in seen
    ensures |state[key := value]| - |state| == |seen + {ev}| - |seen|
  {
    assert state[key := value].Keys == state.Keys + {key};
    Grows(state.Keys, key);
    Grows(seen, ev);
  }

  lemma DistinctAppend(evs: seq<Event>, ev: Event)
    ensures Distinct(evs + [ev]) == Distinct(evs) + {ev}
  {
  }

  lemma {:induction false} OneMoreSize(js: Json, before: seq<Event>, last: Event)
    requires HashIdentifies(before + [last]) && HashIdentifies(before)
    ensures |Put(js, Submitted(js, before), last)| - |Submitted(js, before)| ==
            |Distinct(before + [last])| - |Distinct(before)|
  {
    HashTaken(js, before, last);
    assert last in Distinct(before) <==> last in before;
    hide HashIdentifies, Submitted, Distinct;
    DistinctAppend(before, last);
    GrowTogether(Submitted(js, before), last.hash, js.stringify(last), Distinct(before), last);
  }

  lemma {:induction false} AllListed(js: Json, state: WorldState, keys: seq<string>)
    requires forall k | k in keys :: k in state && js.parse(state[k]).Some?
    ensures |Listed(js, state, keys)| == |keys|
  {
    if keys != [] {
      AllListed(js, state, keys[..|keys| - 1]);
    }
  }

  lemma {:induction false} RangeSize(state: WorldState, keys: seq<string>)
    requires Range(state, keys)
    ensures |keys| == |state|
  {
    var s := set k | k in keys;
    assert s == state.Keys;
    DistinctSize(keys);
  }

  lemma {:induction false} DistinctSize(keys: seq<string>)
    requires forall i, j | 0 <= i < j < |keys| :: keys[i] != keys[j]
    ensures |set k | k in keys| == |keys|
  {
    if keys != [] {
      var n := |keys| - 1;
      DistinctSize(keys[..n]);
      assert (set k | k in keys) == (set k | k in keys[..n]) + {keys[n]};
      assert keys[n] !in keys[..n];
    }
  }

  /** The total count reported for any history of genuine submissions is the number of
      distinct events among them, unless two collide. */
  lemma {:induction false} TotalCountsDistinct(sha: Digest, js: Json, evs: seq<Event>, keys: seq<string>)
    requires forall ev | ev in evs :: Genuine(sha, ev) && Faithful(js, ev)
    requires NoCollision(sha, evs) && Range(Submitted(js, evs), keys)
    ensures |Listed(js, Submitted(js, evs), keys)| == |Distinct(evs)|
  {
    NoCollisionIdentifies(sha, evs);
    SubmittedHolds(js, evs);
    SubmittedSize(js, evs);
    RangeSize(Submitted(js, evs), keys);
    AllListed(js, Submitted(js, evs), keys);
  }

  /** The listing goes through the keys in their order, leaving out what does not parse. */
  lemma {:induction false} ListedInOrder(js: Json, state: WorldState, a: seq<string>, b: seq<string>)
    requires forall k | k in a + b :: k in state
    ensures (forall k | k in a :: k in state) && (forall k | k in b :: k in state)
    ensures Listed(js, state, a + b) == Listed(js, state, a) + Listed(js, state, b)
    ensures |b| == 1 ==> Listed(js, state, b) == match js.parse(state[b[0]]) case None => [] case Some(ev) => [ev]
  {
    forall k | k in b ensures k in state { assert k in a + b; }
    forall k | k in a ensures k in state { assert k in a + b; }
    if b == [] {
      assert a + b == a;
    } else {
      var n := |b| - 1;
      assert (a + b)[..|a| + n] == a + b[..n];
      assert forall k | k in a + b[..n] :: k in a + b;
      ListedInOrder(js, state, a, b[..n]);
      assert b[n] in b && (a + b)[|a| + n] == b[n];
      if |b| == 1 { assert b[..n] == []; }
    }
  }

  /** Over a ledger of events the listing names them by their keys, in the order of the keys. */
  lemma {:induction false} ListedByKeys(js: Json, state: WorldState, evs: seq<Event>, keys: seq<string>)
    requires Holds(js, state, evs) && (forall ev | ev in evs :: Faithful(js, ev))
    requires forall k | k in keys :: k in state
    ensures Hashes(Listed(js, state, keys)) == keys
  {
    if keys != [] {
      var n := |keys| - 1;
      ListedByKeys(js, state, evs, keys[..n]);
      assert keys[n] in keys && keys[n] in state;
      var stored :| stored in evs && stored.hash == keys[n];
      assert js.parse(state[keys[n]]) == Some(stored);
      assert keys == keys[..n] + [keys[n]];
    }
  }

  // --- the gateway's own verification ---------------------------------------------------------------

  /** The gateway's hash input: the bare values, one after the other. */
  function GatewayText(ev: Event): string
  {
    ev.event_type + (ev.command + (ev.user + (IntText(ev.pid) + (ev.cwd + (ev.timestamp + IntText(ev.return_code))))))
  }

  predicate GatewayAgrees(sha: Digest, ev: Event) { ev.hash == HexDigest(sha, GatewayText(ev)) }

  /** The hashes listed as failed, in order. */
  function Disputed(sha: Digest, evs: seq<Event>): seq<string>
  {
    if evs == [] then []
    else
      var n := |evs| - 1;
      Disputed(sha, evs[..n]) + if GatewayAgrees(sha, evs[n]) then [] else [evs[n].hash]
  }

  /** The verification handler: list the ledger, recompute every hash. */
  method HandleVerify(sha: Digest, chaincode: Chaincode, keys: seq<string>)
    returns (verified: bool, total: nat, failed: seq<string>)
    requires Range(chaincode.state, keys)
    ensures var events := Listed(chaincode.js, chaincode.state, keys);
            failed == Disputed(sha, events) && total == |events|
    ensures verified <==> failed == []
  {
    hide GatewayText, HexDigest;
    var events := chaincode.GetAllEvents(keys);
    verified, failed := true, [];
    var i := 0;
    while i < |events|
      invariant 0 <= i <= |events|
      invariant failed == Disputed(sha, events[..i]) && (verified <==> failed == [])
    {
      assert events[..i + 1][..i] == events[..i];
      var expectedHash := HexDigest(sha, GatewayText(events[i]));
      if events[i].hash != expectedHash {
        verified := false;
        failed := failed + [events[i].hash];
      }
      i := i + 1;
    }
    assert events[..|events|] == events;
    total := |events|;
  }

  /** The gateway accepts exactly the events whose hash is the printed digest of their seven values,
      one after the other. */
  lemma GatewayAccepts(sha: Digest, ev: Event)
    ensures GatewayAgrees(sha, ev) <==>
              ev.hash == HexDigest(sha, ev.event_type + ev.command + ev.user + IntText(ev.pid) + ev.cwd +
                                        ev.timestamp + IntText(ev.return_code))
  {
    var a, b, c, d := ev.event_type, ev.command, ev.user, IntText(ev.pid);
    var e, f, g := ev.cwd, ev.timestamp, IntText(ev.return_code);
    Reassociate(a, b, c + (d + (e + (f + g))));
    Reassociate(a + b, c, d + (e + (f + g)));
    Reassociate(a + b + c, d, e + (f + g));
    Reassociate(a + b + c + d, e, f + g);
    Reassociate(a + b + c + d + e, f, g);
  }

  /** So it cannot tell where one value ends and the next begins: characters moved from the end
      of the command to the start of the user leave its verdict as it was. */
  lemma GatewayConfuses(sha: Digest, ev: Event, command: string, moved: string)
    requires ev.command == command + moved
    ensures GatewayAgrees(sha, ev) <==> GatewayAgrees(sha, ev.(command := command, user := moved + ev.user))
  {
    var rest := IntText(ev.pid) + (ev.cwd + (ev.timestamp + IntText(ev.return_code)));
    Reassociate(command, moved, ev.user + rest);
    Reassociate(moved, ev.user, rest);
  }

  /** The disputed hashes come in the order of the events, one for each that is not accepted. */
  lemma {:induction false} DisputedInOrder(sha: Digest, a: seq<Event>, b: seq<Event>)
    ensures Disputed(sha, a + b) == Disputed(sha, a) + Disputed(sha, b)
    ensures |b| == 1 ==> Disputed(sha, b) == if GatewayAgrees(sha, b[0]) then [] else [b[0].hash]
  {
    hide GatewayAgrees;
    if b == [] {
      assert a + b == a;
    } else {
      var n := |b| - 1;
      var last := if GatewayAgrees(sha, b[n]) then [] else [b[n].hash];
      assert (a + b)[..|a| + n] == a + b[..n] && (a + b)[|a| + n] == b[n];
      DisputedInOrder(sha, a, b[..n]);
      Reassociate(Disputed(sha, a), Disputed(sha, b[..n]), last);
      if n == 0 { assert b[..n] == []; }
    }
  }

  /** The gateway's hash input is always shorter than the auditor's. */
  lemma GatewayTextShorter(ev: Event)
    ensures |GatewayText(ev)| < |CanonicalText(ev)|
  {
    var fs := HashFields(ev);
    RenderLength(fs);
    TotalOfSeven(fs);
    assert |Member(fs[0])| > |ev.event_type| && |Member(fs[1])| > |ev.command| && |Member(fs[2])| > |ev.user|;
    assert |Member(fs[3])| > |IntText(ev.pid)| && |Member(fs[4])| > |ev.cwd| && |Member(fs[5])| > |ev.timestamp|;
    assert |Member(fs[6])| > |IntText(ev.return_code)|;
  }

  /** So the gateway disputes every genuine event, except by a collision. */
  lemma GatewayDisputes(sha: Digest, ev: Event)
    requires Genuine(sha, ev)
    ensures GatewayAgrees(sha, ev) <==> Collides(sha, CanonicalText(ev), GatewayText(ev))
  {
    NeverTruncated(ev);
    GatewayTextShorter(ev);
    if GatewayAgrees(sha, ev) {
      EqualHexCollides(sha, CanonicalText(ev), GatewayText(ev));
    }
  }

  /** A genuine event the gateway disputes, or two named texts collide. */
  lemma PlainEventDisputed(sha: Digest) returns (ev: Event)
    ensures Genuine(sha, ev) && ev.command == "ls"
    ensures !GatewayAgrees(sha, ev) || Collides(sha, CanonicalText(ev), GatewayText(ev))
  {
    hide Genuine, Collides, GatewayAgrees, CanonicalText, GatewayText;
    ev := FreshWith(sha, "ls");
    GatewayDisputes(sha, ev);
  }

  function Hashes(evs: seq<Event>): (r: seq<string>)
    ensures |r| == |evs| && forall i | 0 <= i < |evs| :: r[i] == evs[i].hash
  {
    seq(|evs|, i requires 0 <= i < |evs| => evs[i].hash)
  }

  /** Without such collisions it lists every one of a list of genuine events as failed. */
  lemma {:induction false} GatewayDisputesAll(sha: Digest, evs: seq<Event>)
    requires forall ev | ev in evs :: Genuine(sha, ev) && !Collides(sha, CanonicalText(ev), GatewayText(ev))
    ensures Disputed(sha, evs) == Hashes(evs)
  {
    hide Genuine, Collides, GatewayAgrees, GatewayText;
    if evs != [] {
      var n := |evs| - 1;
      GatewayDisputesAll(sha, evs[..n]);
      assert evs[n] in evs;
      GatewayDisputes(sha, evs[n]);
      assert Hashes(evs) == Hashes(evs[..n]) + [evs[n].hash];
    }
  }

  /** What is listed was submitted. */
  lemma {:induction false} ListedEvents(js: Json, state: WorldState, evs: seq<Event>, keys: seq<string>)
    requires Holds(js, state, evs) && forall ev | ev in evs :: Faithful(js, ev)
    requires forall k | k in keys :: k in state
    ensures Distinct(Listed(js, state, keys)) == set ev | ev in evs && ev.hash in keys
  {
    if keys != [] {
      var n := |keys| - 1;
      ListedEvents(js, state, evs, keys[..n]);
      assert keys[n] in keys && keys[n] in state;
      var stored :| stored in evs && stored.hash == keys[n];
      assert forall ev | ev in evs && ev.hash == keys[n] :: js.parse(state[keys[n]]) == Some(ev);
      assert forall k :: k in keys <==> k in keys[..n] || k == keys[n];
      DistinctAppend(Listed(js, state, keys[..n]), stored);
      assert (set ev | ev in evs && ev.hash in keys) == (set ev | ev in evs && ev.hash in keys[..n]) + {stored};
    }
  }

  /** The chaincode lists each distinct submitted event once and nothing else, and the gateway
      disputes them all: any history of genuine submissions, no two of them colliding. */
  lemma {:induction false} LedgerDisputed(sha: Digest, js: Json, evs: seq<Event>, keys: seq<string>)
    requires forall ev | ev in evs :: Genuine(sha, ev) && Faithful(js, ev)
    requires forall ev | ev in evs :: !Collides(sha, CanonicalText(ev), GatewayText(ev))
    requires NoCollision(sha, evs) && Range(Submitted(js, evs), keys)
    ensures var l := Listed(js, Submitted(js, evs), keys);
            && Distinct(l) == Distinct(evs) && |l| == |Distinct(evs)|
            && Disputed(sha, l) == Hashes(l) == keys
  {
    hide Genuine, NoCollision, Collides, Faithful, GatewayText;
    LedgerHolds(sha, js, evs);
    TotalCountsDistinct(sha, js, evs, keys);
    ListedEvents(js, Submitted(js, evs), evs, keys);
    ListedByKeys(js, Submitted(js, evs), evs, keys);
    var l := Listed(js, Submitted(js, evs), keys);
    assert Distinct(l) == Distinct(evs);
    forall ev | ev in l ensures ev in evs {
      assert ev in Distinct(l);
    }
    GatewayDisputesAll(sha, l);
  }
}
