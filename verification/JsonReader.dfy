/** What `JSON.parse` and `JSON.stringify` do with flat objects of texts and whole numbers, by
    RFC 8259: escapes in strings (section 7), no control characters, no leading zeros (section 6),
    and the last of several members with one name.  Only texts without white space between the
    tokens are read, and an object is an event when it has the eight keys with their types. */
module JsonReader {
  import opened CStrings
  import opened JsonFields
  import opened Crypto
  import opened Event
  import opened EventProofs
  import opened RoundTrip

  // --- reading --------------------------------------------------------------------------------

  /** Four hexadecimal digits; halves of surrogate pairs are not read. */
  function ReadUnit(s: string): Option<char>
    requires |s| >= 4
  {
    match (HexValue(s[0]), HexValue(s[1]), HexValue(s[2]), HexValue(s[3]))
    case (Some(a), Some(b), Some(c), Some(d)) =>
      var n := ((a * 16 + b) * 16 + c) * 16 + d;
      if n < 0xD800 || 0xE000 <= n < 0x1_0000 then Some(n as char) else None
    case _ => None
  }

  /** An escape sequence after its backslash, and what follows it. */
  function ReadEscape(s: string): (r: Option<(char, string)>)
    ensures r.Some? ==> |r.value.1| < |s|
  {
    if s == "" then None
    else if s[0] == QUOTE || s[0] == BACKSLASH || s[0] == '/' then Some((s[0], s[1..]))
    else if s[0] == 'b' then Some(('\U{08}', s[1..]))
    else if s[0] == 'f' then Some(('\U{0C}', s[1..]))
    else if s[0] == 'n' then Some(('\n', s[1..]))
    else if s[0] == 'r' then Some(('\r', s[1..]))
    else if s[0] == 't' then Some(('\t', s[1..]))
    else if s[0] == 'u' && |s| >= 5 then
      match ReadUnit(s[1..])
      case None => None
      case Some(c) => Some((c, s[5..]))
    else None
  }

  /** A string after its opening quote, and what follows its closing one. */
  function ReadText(s: string): (r: Option<(string, string)>)
    ensures r.Some? ==> |r.value.1| < |s|
  {
    if s == "" || s[0] < ' ' then None
    else if s[0] == QUOTE then Some(("", s[1..]))
    else if s[0] == BACKSLASH then
      match ReadEscape(s[1..])
      case None => None
      case Some((c, more)) => Prefixed(c, ReadText(more))
    else Prefixed(s[0], ReadText(s[1..]))
  }

  function Prefixed(c: char, r: Option<(string, string)>): Option<(string, string)>
  {
    match r
    case None => None
    case Some((v, rest)) => Some(([c] + v, rest))
  }

  function Digits(s: string): (n: nat)
    ensures n <= |s|
  {
    if s == "" || !IsDigit(s[0]) then 0 else 1 + Digits(s[1..])
  }

  function ReadNumber(s: string): (r: Option<(int, string)>)
    ensures r.Some? ==> |r.value.1| < |s|
  {
    var t := if s != "" && s[0] == '-' then s[1..] else s;
    var n := Digits(t);
    if n == 0 || (n > 1 && t[0] == '0') then None else Some((ScanInt(s), t[n..]))
  }

  function ReadMember(s: string): (r: Option<(Field, string)>)
    ensures r.Some? ==> |r.value.1| < |s|
  {
    if s == "" || s[0] != QUOTE then None
    else
      match ReadText(s[1..])
      case None => None
      case Some((k, r)) => ReadValue(k, r)
  }

  /** The colon and the value. */
  function ReadValue(k: string, r: string): (m: Option<(Field, string)>)
    ensures m.Some? ==> |m.value.1| < |r|
  {
    if |r| < 2 || r[0] != ':' then None
    else if r[1] == QUOTE then
      match ReadText(r[2..])
      case None => None
      case Some((v, rest)) => Some((Text(k, v), rest))
    else
      match ReadNumber(r[1..])
      case None => None
      case Some((n, rest)) => Some((Number(k, n), rest))
  }

  /** The members up to the closing brace, which ends the text. */
  function ReadMembers(s: string): (r: Option<seq<Field>>)
    ensures r.Some? ==> r.value != []
    decreases |s|
  {
    match ReadMember(s)
    case None => None
    case Some((f, rest)) =>
      if rest == "}" then Some([f])
      else if rest == "" || rest[0] != ',' then None
      else
        match ReadMembers(rest[1..])
        case None => None
        case Some(fs) => Some([f] + fs)
  }

  /** The last member with this name. */
  function Last(fs: seq<Field>, key: string): Option<Field>
  {
    if fs == [] then None
    else if fs[|fs| - 1].key == key then Some(fs[|fs| - 1])
    else Last(fs[..|fs| - 1], key)
  }

  /** The event that has these members. */
  predicate IsEvent(fs: seq<Field>, ev: Event)
  {
    forall j | 0 <= j < 8 :: Last(fs, KEYS[j]) == Some(AllFields(ev)[j])
  }

  function LastText(fs: seq<Field>, key: string): string
  {
    match Last(fs, key)
    case Some(Text(_, v)) => v
    case _ => ""
  }

  function LastNumber(fs: seq<Field>, key: string): int
  {
    match Last(fs, key)
    case Some(Number(_, n)) => n
    case _ => 0
  }

  function AsEvent(fs: seq<Field>): Option<Event>
  {
    var ev := Event(
      LastText(fs, KEYS[0]), LastText(fs, KEYS[1]), LastText(fs, KEYS[2]), LastNumber(fs, KEYS[3]),
      LastText(fs, KEYS[4]), LastText(fs, KEYS[5]), LastNumber(fs, KEYS[6]), LastText(fs, KEYS[7]));
    if IsEvent(fs, ev) then Some(ev) else None
  }

  function ParseJson(s: string): Option<Event>
  {
    if s == "" || s[0] != '{' then None
    else
      match ReadMembers(s[1..])
      case None => None
      case Some(fs) => AsEvent(fs)
  }

  // --- writing --------------------------------------------------------------------------------

  predicate PlainChar(c: char) { c != QUOTE && c != BACKSLASH && c >= ' ' }

  function Escape(c: char): string
  {
    if PlainChar(c) then [c]
    else if c == '\U{08}' then "\\b"
    else if c == '\U{0C}' then "\\f"
    else if c == '\n' then "\\n"
    else if c == '\r' then "\\r"
    else if c == '\t' then "\\t"
    else if c < ' ' then "\\u00" + [HexDigit(c as int / 16), HexDigit(c as int % 16)]
    else [BACKSLASH, c]
  }

  function Escaped(v: string): string
  {
    if v == "" then "" else Escape(v[0]) + Escaped(v[1..])
  }

  function EscapedEvent(ev: Event): Event
  {
    Event(Escaped(ev.event_type), Escaped(ev.command), Escaped(ev.user), ev.pid,
          Escaped(ev.cwd), Escaped(ev.timestamp), ev.return_code, Escaped(ev.hash))
  }

  /** The keys come in the order in which the auditor printed them. */
  function StringifyJson(ev: Event): string { JsonText(EscapedEvent(ev)) }

  // --- what is read of a printed event -----------------------------------------------------------

  /** Between quotes the first text is read as the second. */
  ghost predicate Reads(raw: string, v: string)
  {
    forall rest :: ReadText(raw + ("\"" + rest)) == Some((v, rest))
  }

  predicate PlainText(v: string) { forall c | c in v :: PlainChar(c) }

  lemma {:induction false} PlainReadsAt(v: string, rest: string)
    requires PlainText(v)
    ensures ReadText(v + ("\"" + rest)) == Some((v, rest))
  {
    if v == "" {
      assert v + ("\"" + rest) == "\"" + rest;
    } else {
      assert v[0] in v;
      DropInFirst(v, "\"" + rest, 1);
      PlainReadsAt(v[1..], rest);
      assert [v[0]] + v[1..] == v;
    }
  }

  lemma PlainReads(v: string)
    requires PlainText(v)
    ensures Reads(v, v)
  {
    forall rest ensures ReadText(v + ("\"" + rest)) == Some((v, rest)) {
      PlainReadsAt(v, rest);
    }
  }

  lemma {:induction false} EscapeReads(c: char, more: string)
    ensures ReadText(Escape(c) + more) == Prefixed(c, ReadText(more))
  {
    var s := Escape(c) + more;
    if PlainChar(c) {
      assert s[1..] == more;
    } else if Escape(c)[1] == 'u' {
      HexEscapeReads(c, more);
    } else {
      assert s[1..][1..] == more;
    }
  }

  lemma {:induction false} HexEscapeReads(c: char, more: string)
    requires c < ' ' && |Escape(c)| == 6
    ensures ReadText(Escape(c) + more) == Prefixed(c, ReadText(more))
  {
    var s, digits := Escape(c) + more, "00" + [HexDigit(c as int / 16), HexDigit(c as int % 16)];
    HexReads(c);
    assert s[1..] == "u" + (digits + more);
    assert s[1..][1..][..4] == digits && s[1..][5..] == more;
    hide ReadUnit;
    UnitOfFour(s[1..][1..], digits);
  }

  lemma UnitOfFour(s: string, four: string)
    requires |s| >= 4 && s[..4] == four
    ensures ReadUnit(s) == ReadUnit(four)
  {
    assert s[0] == four[0] && s[1] == four[1] && s[2] == four[2] && s[3] == four[3];
  }

  lemma HexReads(c: char)
    requires c < ' '
    ensures ReadUnit("00" + [HexDigit(c as int / 16), HexDigit(c as int % 16)]) == Some(c)
  {
  }

  lemma {:induction false} EscapedReadsAt(v: string, rest: string)
    ensures ReadText(Escaped(v) + ("\"" + rest)) == Some((v, rest))
  {
    if v == "" {
      assert Escaped(v) + ("\"" + rest) == "\"" + rest;
    } else {
      Reassociate(Escape(v[0]), Escaped(v[1..]), "\"" + rest);
      EscapeReads(v[0], Escaped(v[1..]) + ("\"" + rest));
      EscapedReadsAt(v[1..], rest);
      assert [v[0]] + v[1..] == v;
    }
  }

  lemma {:induction false} EscapedReads(v: string)
    ensures Reads(Escaped(v), v)
  {
    forall rest ensures ReadText(Escaped(v) + ("\"" + rest)) == Some((v, rest)) {
      EscapedReadsAt(v, rest);
    }
  }

  lemma {:induction false} DigitsOf(a: string, rest: string)
    requires StopsDigits(rest) && forall c | c in a :: IsDigit(c)
    ensures Digits(a + rest) == |a|
  {
    if a == "" {
      assert a + rest == rest;
    } else {
      assert a[0] in a;
      DropInFirst(a, rest, 1);
      DigitsOf(a[1..], rest);
    }
  }

  lemma {:induction false} NoLeadingZero(n: nat)
    ensures n > 0 ==> NatText(n)[0] != '0'
  {
    if n >= 10 {
      NoLeadingZero(n / 10);
    }
  }

  lemma NumberReads(n: int, rest: string)
    requires StopsDigits(rest)
    ensures ReadNumber(IntText(n) + rest) == Some((n, rest))
  {
    ScanIntRoundTrip(n, rest);
    if n < 0 {
      assert (IntText(n) + rest)[1..] == NatText(-n) + rest;
      NatReads(-n, rest);
    } else {
      NatReads(n, rest);
    }
  }

  lemma {:induction false} NatReads(m: nat, rest: string)
    requires StopsDigits(rest)
    ensures var t := NatText(m) + rest;
            Digits(t) == |NatText(m)| > 0 && t[|NatText(m)|..] == rest && IsDigit(t[0]) &&
            (t[0] == '0' ==> Digits(t) == 1)
  {
    DigitsOf(NatText(m), rest);
    NoLeadingZero(m);
    assert NatText(m)[0] in NatText(m);
    Parts(NatText(m), rest);
  }

  /** The first member as printed is read as the second. */
  ghost predicate FieldReads(f: Field, g: Field)
  {
    && f.key == g.key && PlainText(f.key)
    && if f.Text? then g.Text? && Reads(f.text, g.text) else g == f
  }

  lemma MemberReads(f: Field, g: Field, rest: string)
    requires FieldReads(f, g) && StopsDigits(rest)
    ensures ReadMember(Member(f) + rest) == Some((g, rest))
  {
    hide Member, ReadMember, ReadValue;
    match f
    case Text(k, v) => TextReads(k, v, g.text, rest);
    case Number(k, n) => NumberMemberReads(k, n, rest);
  }

  lemma Opened(k: string, value: string, rest: string)
    ensures "\"" + (k + ("\"" + (":" + value))) + rest == "\"" + (k + ("\"" + (":" + (value + rest))))
  {
  }

  lemma TextReads(k: string, raw: string, v: string, rest: string)
    requires PlainText(k) && Reads(raw, v)
    ensures ReadMember(Member(Text(k, raw)) + rest) == Some((Text(k, v), rest))
  {
    hide Member, ReadMember, ReadValue, ReadText, PlainText;
    TextOpens(k, raw);
    Opened(k, "\"" + (raw + "\""), rest);
    assert ("\"" + (raw + "\"")) + rest == "\"" + (raw + ("\"" + rest));
    KeyReads(k, "\"" + (raw + ("\"" + rest)));
    ValueReadsText(k, raw, rest);
  }

  lemma NumberMemberReads(k: string, n: int, rest: string)
    requires PlainText(k) && StopsDigits(rest)
    ensures ReadMember(Member(Number(k, n)) + rest) == Some((Number(k, n), rest))
  {
    hide Member, ReadMember, ReadNumber, PlainText, StopsDigits;
    var value := IntText(n) + rest;
    NumberOpens(k, n);
    Opened(k, IntText(n), rest);
    KeyReads(k, value);
    NumberReads(n, rest);
    assert value[0] == IntText(n)[0] && IntText(n)[0] in IntText(n);
    assert (":" + value)[1..] == value;
  }

  lemma KeyReads(k: string, value: string)
    requires PlainText(k)
    ensures ReadMember("\"" + (k + ("\"" + (":" + value)))) == ReadValue(k, ":" + value)
  {
    var s := "\"" + (k + ("\"" + (":" + value)));
    assert s[1..] == k + ("\"" + (":" + value));
    PlainReadsAt(k, ":" + value);
  }

  lemma {:induction false} ValueReadsText(k: string, v: string, rest: string)
    ensures var r := ":" + ("\"" + (v + ("\"" + rest)));
            ReadValue(k, r) ==
              match ReadText(v + ("\"" + rest)) case None => None case Some((w, x)) => Some((Text(k, w), x))
  {
    var r := ":" + ("\"" + (v + ("\"" + rest)));
    assert r[2..] == v + ("\"" + rest);
  }

  lemma {:induction false} RenderReads(fs: seq<Field>, gs: seq<Field>)
    requires fs != [] && |fs| == |gs| && forall i | 0 <= i < |fs| :: FieldReads(fs[i], gs[i])
    ensures ReadMembers(Render(fs) + "}") == Some(gs)
  {
    hide FieldReads, Member, ReadMember;
    if |fs| == 1 {
      MemberReads(fs[0], gs[0], "}");
      assert gs == [gs[0]];
    } else {
      var rest := Render(fs[1..]) + "}";
      RenderTail(fs, "}");
      MemberReads(fs[0], gs[0], "," + rest);
      assert ("," + rest)[1..] == rest && rest != "";
      RenderReads(fs[1..], gs[1..]);
      assert [gs[0]] + gs[1..] == gs;
    }
  }

  lemma {:induction false} LastIs(fs: seq<Field>, j: nat)
    requires j < |fs| && forall i | j < i < |fs| :: fs[i].key != fs[j].key
    ensures Last(fs, fs[j].key) == Some(fs[j])
  {
    if j < |fs| - 1 {
      LastIs(fs[..|fs| - 1], j);
    }
  }

  lemma OwnFieldsAreEvent(ev: Event)
    ensures AsEvent(AllFields(ev)) == Some(ev)
  {
    var fs := AllFields(ev);
    forall j | 0 <= j < 8 ensures Last(fs, KEYS[j]) == Some(fs[j]) {
      FieldFacts(ev, j);
      forall i | j < i < 8 ensures fs[i].key != fs[j].key {
        FieldFacts(ev, i);
        KeysDiffer(j, i);
      }
      hide KEYS, AllFields;
      LastIs(fs, j);
    }
    hide KEYS, Last;
    EventFromFields(fs, ev);
  }

  lemma EventFromFields(fs: seq<Field>, ev: Event)
    requires IsEvent(fs, ev)
    ensures AsEvent(fs) == Some(ev)
  {
    hide Last;
    assert Last(fs, KEYS[0]) == Some(Text("event_type", ev.event_type));
    assert Last(fs, KEYS[1]) == Some(Text("command", ev.command));
    assert Last(fs, KEYS[2]) == Some(Text("user", ev.user));
    assert Last(fs, KEYS[3]) == Some(Number("pid", ev.pid));
    assert Last(fs, KEYS[4]) == Some(Text("cwd", ev.cwd));
    assert Last(fs, KEYS[5]) == Some(Text("timestamp", ev.timestamp));
    assert Last(fs, KEYS[6]) == Some(Number("return_code", ev.return_code));
    assert Last(fs, KEYS[7]) == Some(Text("hash", ev.hash));
  }

  ghost predicate EventReads(raw: Event, ev: Event)
  {
    && Reads(raw.event_type, ev.event_type) && Reads(raw.command, ev.command) && Reads(raw.user, ev.user)
    && raw.pid == ev.pid && Reads(raw.cwd, ev.cwd) && Reads(raw.timestamp, ev.timestamp)
    && raw.return_code == ev.return_code && Reads(raw.hash, ev.hash)
  }

  lemma FieldsRead(raw: Event, ev: Event, j: nat)
    requires EventReads(raw, ev) && j < 8
    ensures FieldReads(AllFields(raw)[j], AllFields(ev)[j])
  {
    hide Reads, PlainText;
    KeyIsPlain(j);
    FieldFacts(raw, j);
    FieldFacts(ev, j);
    hide KEYS;
  }

  lemma AllFieldsRead(raw: Event, ev: Event)
    requires EventReads(raw, ev)
    ensures forall j | 0 <= j < 8 :: FieldReads(AllFields(raw)[j], AllFields(ev)[j])
  {
    hide EventReads, FieldReads, AllFields;
    forall j | 0 <= j < 8 ensures FieldReads(AllFields(raw)[j], AllFields(ev)[j]) {
      FieldsRead(raw, ev, j);
    }
  }

  lemma KeyIsPlain(j: nat)
    requires j < 8
    ensures PlainText(KEYS[j])
  {
  }

  /** A printed event whose texts are read as another's is read as that event. */
  lemma PrintedReads(raw: Event, ev: Event)
    requires EventReads(raw, ev)
    ensures ParseJson(JsonText(raw)) == Some(ev)
  {
    var fs, gs := AllFields(raw), AllFields(ev);
    AllFieldsRead(raw, ev);
    hide AllFields, FieldReads, Render, AsEvent, EventReads, ReadMembers;
    RenderReads(fs, gs);
    OwnFieldsAreEvent(ev);
    assert JsonText(raw)[1..] == Render(fs) + "}";
  }

  /** Whatever an event holds, parsing its stringified form gives it back. */
  lemma StringifyReads(ev: Event)
    ensures ParseJson(StringifyJson(ev)) == Some(ev)
  {
    EscapedReads(ev.event_type);
    EscapedReads(ev.command);
    EscapedReads(ev.user);
    EscapedReads(ev.cwd);
    EscapedReads(ev.timestamp);
    EscapedReads(ev.hash);
    hide Reads, Escaped, ParseJson;
    PrintedReads(EscapedEvent(ev), ev);
  }

  predicate PlainEvent(ev: Event)
  {
    && PlainText(ev.event_type) && PlainText(ev.command) && PlainText(ev.user)
    && PlainText(ev.cwd) && PlainText(ev.timestamp) && PlainText(ev.hash)
  }

  lemma PlainEventReads(ev: Event)
    requires PlainEvent(ev)
    ensures ParseJson(JsonText(ev)) == Some(ev)
  {
    PlainReads(ev.event_type);
    PlainReads(ev.command);
    PlainReads(ev.user);
    PlainReads(ev.cwd);
    PlainReads(ev.timestamp);
    PlainReads(ev.hash);
    hide Reads, ParseJson;
    PrintedReads(ev, ev);
  }

  // --- only plain events are read from their own texts --------------------------------------------

  /** How many characters of a text need an escape. */
  function Special(v: string): nat
  {
    if v == "" then 0 else Special(v[1..]) + if PlainChar(v[0]) then 0 else 1
  }

  lemma {:induction false} NoneSpecial(v: string)
    ensures Special(v) == 0 <==> PlainText(v)
  {
    if v != "" {
      NoneSpecial(v[1..]);
      assert PlainText(v) <==> PlainChar(v[0]) && PlainText(v[1..]) by {
        assert v[0] in v;
        assert forall c | c in v :: c == v[0] || c in v[1..];
      }
    }
  }

  /** A string takes at least its characters, one more for each that needs an escape, and a quote. */
  lemma {:induction false} TextWeight(s: string)
    ensures match ReadText(s) case None => true case Some((v, rest)) => |s| >= |v| + Special(v) + 1 + |rest|
    decreases |s|
  {
    if s != "" && s[0] >= ' ' && s[0] != QUOTE {
      if s[0] == BACKSLASH {
        match ReadEscape(s[1..])
        case None =>
        case Some((c, more)) =>
          TextWeight(more);
          PrefixWeight(c, ReadText(more));
      } else {
        TextWeight(s[1..]);
        PrefixWeight(s[0], ReadText(s[1..]));
      }
    }
  }

  lemma PrefixWeight(c: char, r: Option<(string, string)>)
    ensures r.Some? ==>
              var v := Prefixed(c, r).value.0;
              |v| == |r.value.0| + 1 && Special(v) == Special(r.value.0) + if PlainChar(c) then 0 else 1
  {
    if r.Some? {
      var v := [c] + r.value.0;
      assert v[1..] == r.value.0;
    }
  }

  lemma {:induction false} ScanLength(t: string, acc: nat)
    requires acc > 0
    ensures |NatText(ScanNat(t, acc))| == |NatText(acc)| + Digits(t)
  {
    if t != "" && IsDigit(t[0]) {
      var next := acc * 10 + DigitValue(t[0]);
      assert next / 10 == acc;
      ScanLength(t[1..], next);
    }
  }

  /** A number takes at least the digits it is printed with. */
  lemma NumberWeight(s: string)
    ensures match ReadNumber(s) case None => true case Some((n, rest)) => |s| >= |IntText(n)| + |rest|
  {
    var t := if s != "" && s[0] == '-' then s[1..] else s;
    if t != "" && IsDigit(t[0]) {
      if DigitValue(t[0]) > 0 {
        ScanLength(t[1..], DigitValue(t[0]));
      } else {
        assert t[0] == '0';
        if Digits(t) == 1 {
          assert ScanNat(t, 0) == ScanNat(t[1..], 0) == 0;
        }
      }
    }
  }

  /** The characters of a member with its separator, and one more for each that needs an escape. */
  function Weight(f: Field): nat { |Member(f)| + 1 + if f.Text? then Special(f.text) else 0 }

  lemma MemberWeight(s: string)
    ensures match ReadMember(s) case None => true case Some((f, rest)) => |s| + 1 >= Weight(f) + |rest|
  {
    if s != "" && s[0] == QUOTE && ReadText(s[1..]).Some? {
      var (k, r) := ReadText(s[1..]).value;
      TextWeight(s[1..]);
      if |r| >= 2 && r[0] == ':' {
        if r[1] == QUOTE {
          TextWeight(r[2..]);
        } else {
          NumberWeight(r[1..]);
        }
      }
    }
  }

  function TotalWeight(fs: seq<Field>): nat
  {
    if fs == [] then 0 else TotalWeight(fs[..|fs| - 1]) + Weight(fs[|fs| - 1])
  }

  lemma {:induction false} TotalOfFirst(f: Field, fs: seq<Field>)
    ensures TotalWeight([f] + fs) == Weight(f) + TotalWeight(fs)
  {
    hide Weight;
    var n := |fs|;
    if n > 0 {
      assert ([f] + fs)[..n] == [f] + fs[..n - 1];
      TotalOfFirst(f, fs[..n - 1]);
    } else {
      assert ([f] + fs)[..0] == [];
    }
  }

  lemma {:induction false} MembersWeight(s: string)
    ensures match ReadMembers(s) case None => true case Some(fs) => |s| >= TotalWeight(fs)
    decreases |s|
  {
    hide Weight, ReadMember;
    MemberWeight(s);
    match ReadMember(s)
    case None =>
    case Some((f, rest)) =>
      if rest == "}" {
        assert [f] + [] == [f];
        TotalOfFirst(f, []);
      } else if rest != "" && rest[0] == ',' {
        MembersWeight(rest[1..]);
        match ReadMembers(rest[1..])
        case None =>
        case Some(fs) => TotalOfFirst(f, fs);
      }
  }

  /** The weight of the members with one of the first n keys. */
  function KeyWeight(fs: seq<Field>, key: string): nat
  {
    if fs == [] then 0
    else KeyWeight(fs[..|fs| - 1], key) + if fs[|fs| - 1].key == key then Weight(fs[|fs| - 1]) else 0
  }

  function KeysWeight(fs: seq<Field>, n: nat): nat
    requires n <= 8
  {
    if n == 0 then 0 else KeysWeight(fs, n - 1) + KeyWeight(fs, KEYS[n - 1])
  }

  lemma {:induction false} KeysWeightStep(fs: seq<Field>, n: nat)
    requires fs != [] && n <= 8
    ensures var m := |fs| - 1;
            KeysWeight(fs, n) == KeysWeight(fs[..m], n) + if fs[m].key in KEYS[..n] then Weight(fs[m]) else 0
  {
    hide Weight, KEYS;
    if n > 0 {
      KeyNew(n - 1);
      KeysWeightStep(fs, n - 1);
      assert KEYS[..n] == KEYS[..n - 1] + [KEYS[n - 1]];
    }
  }

  lemma KeyNew(n: nat)
    requires n < 8
    ensures |KEYS| == 8 && KEYS[n] !in KEYS[..n]
  {
    forall i | 0 <= i < n ensures KEYS[i] != KEYS[n] {
      KeysDiffer(i, n);
    }
  }

  lemma {:induction false} KeysWithinTotal(fs: seq<Field>)
    ensures KeysWeight(fs, 8) <= TotalWeight(fs)
  {
    hide Weight, KEYS;
    if fs == [] {
      NoKeysWeight(8);
    } else {
      KeysWithinTotal(fs[..|fs| - 1]);
      KeysWeightStep(fs, 8);
    }
  }

  lemma {:induction false} NoKeysWeight(n: nat)
    requires n <= 8
    ensures KeysWeight([], n) == 0
  {
    if n > 0 { NoKeysWeight(n - 1); }
  }

  lemma {:induction false} LastWeight(fs: seq<Field>, key: string)
    ensures match Last(fs, key) case None => true case Some(f) => KeyWeight(fs, key) >= Weight(f)
  {
    hide Weight;
    if fs != [] && fs[|fs| - 1].key != key {
      LastWeight(fs[..|fs| - 1], key);
    }
  }

  lemma {:induction false} EventWithin(fs: seq<Field>, ev: Event, n: nat)
    requires IsEvent(fs, ev) && n <= 8
    ensures KeysWeight(fs, n) >= TotalWeight(AllFields(ev)[..n])
  {
    hide Weight, KEYS, AllFields;
    if n > 0 {
      KeyNew(n - 1);
      EventWithin(fs, ev, n - 1);
      LastWeight(fs, KEYS[n - 1]);
      assert AllFields(ev)[..n][..n - 1] == AllFields(ev)[..n - 1];
    } else {
      assert AllFields(ev)[..0] == [];
    }
  }

  function Specials(fs: seq<Field>): nat
  {
    if fs == [] then 0 else Specials(fs[1..]) + if fs[0].Text? then Special(fs[0].text) else 0
  }

  lemma {:induction false} RenderWeight(fs: seq<Field>)
    requires fs != []
    ensures TotalWeight(fs) == |Render(fs)| + 1 + Specials(fs)
  {
    hide Member, Special;
    assert [fs[0]] + fs[1..] == fs;
    TotalOfFirst(fs[0], fs[1..]);
    if |fs| > 1 {
      RenderWeight(fs[1..]);
    } else {
      assert fs[1..] == [];
    }
  }

  lemma {:induction false} SpecialsNone(fs: seq<Field>, j: nat)
    requires Specials(fs) == 0 && j < |fs| && fs[j].Text?
    ensures PlainText(fs[j].text)
  {
    if j == 0 {
      NoneSpecial(fs[0].text);
    } else {
      SpecialsNone(fs[1..], j - 1);
    }
  }

  lemma ReadMeansNoSpecials(ev: Event)
    requires ParseJson(JsonText(ev)) == Some(ev)
    ensures Specials(AllFields(ev)) == 0
  {
    var af := AllFields(ev);
    var s := JsonText(ev)[1..];
    assert s == Render(af) + "}";
    var fs := ReadMembers(s).value;
    hide AllFields, Render, ReadMembers, TotalWeight, KeysWeight, Specials, Last;
    MembersWeight(s);
    KeysWithinTotal(fs);
    EventWithin(fs, ev, 8);
    assert af[..8] == af;
    RenderWeight(af);
  }

  /** An event is read from its own text exactly when no field has a quote, a backslash or a
      control character. */
  lemma ReadsItselfIffPlain(ev: Event)
    ensures ParseJson(JsonText(ev)) == Some(ev) <==> PlainEvent(ev)
  {
    hide ParseJson;
    if PlainEvent(ev) {
      PlainEventReads(ev);
    }
    if ParseJson(JsonText(ev)) == Some(ev) {
      ReadMeansNoSpecials(ev);
      var fs := AllFields(ev);
      hide Specials;
      SpecialsNone(fs, 0);
      SpecialsNone(fs, 1);
      SpecialsNone(fs, 2);
      SpecialsNone(fs, 4);
      SpecialsNone(fs, 5);
      SpecialsNone(fs, 7);
    }
  }
}
