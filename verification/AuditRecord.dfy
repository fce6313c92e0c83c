/** Reading fields out of kernel audit records (audit_monitor.c): field_long searches for the key
    after a space, and failing that anywhere; field_str searches anywhere for a quoted value. */
module AuditRecord {
  import opened CStrings
  import opened Event
  import opened JsonFields

  predicate IsSpace(c: char)
  {
    c == ' ' || c == '\t' || c == '\n' || c == '\U{0B}' || c == '\U{0C}' || c == '\r'
  }

  /** `atol`: white space, an optional sign, digits. */
  function Atol(s: string): int
  {
    if s == "" then 0
    else if IsSpace(s[0]) then Atol(s[1..])
    else if s[0] == '+' then ScanNat(s[1..], 0)
    else ScanInt(s)
  }

  /** The room for a search pattern; `snprintf` cuts longer ones. */
  const PATTERN_SIZE: nat := 128

  function FieldLong(msg: string, key: string): int
    requires |key| + 2 < PATTERN_SIZE
  {
    match After(msg, " " + key + "=")
    case Some(p) => Atol(p)
    case None =>
      match After(msg, key + "=")
      case Some(p) => Atol(p)
      case None => 0
  }

  /** The quoted text, cut to the command buffer, or nothing. */
  function FieldStr(msg: string, key: string): Option<string>
    requires |key| + 2 < PATTERN_SIZE
  {
    match After(msg, key + "=\"")
    case None => None
    case Some(start) => Unquoted(start)
  }

  /** What stands before the next quote, if there is one. */
  function Unquoted(start: string): (r: Option<string>)
    ensures r.Some? ==> r.value <= start && QUOTE !in r.value && |r.value| < COMMAND_MAX
  {
    match StrChr(start, QUOTE)
    case None => None
    case Some(end) =>
      var len := |start| - |end|;
      Some(start[..if len > COMMAND_MAX - 1 then COMMAND_MAX - 1 else len])
  }

  // --- messages ---------------------------------------------------------------------------------

  predicate SpaceFree(s: string) { ' ' !in s }

  /** Tokens without spaces, separated by single spaces. */
  function Message(tokens: seq<string>): string
    requires tokens != []
    decreases |tokens|, 1
  {
    tokens[0] + Rest(tokens)
  }

  /** What follows the first token. */
  function Rest(tokens: seq<string>): string
    requires tokens != []
    decreases |tokens|, 0
  {
    if |tokens| == 1 then "" else " " + Message(tokens[1..])
  }

  predicate Tokens(tokens: seq<string>) { tokens != [] && forall t | t in tokens :: SpaceFree(t) }

  /** Every text is such a message, empty tokens included. */
  lemma {:induction false} SplitMessage(msg: string) returns (tokens: seq<string>)
    ensures Tokens(tokens) && Message(tokens) == msg
  {
    if msg == "" {
      tokens := [""];
    } else {
      var more := SplitMessage(msg[1..]);
      if msg[0] == ' ' {
        tokens := [""] + more;
        assert tokens[1..] == more;
      } else {
        tokens := [[msg[0]] + more[0]] + more[1..];
        assert tokens[1..] == more[1..];
        Reassociate([msg[0]], more[0], Rest(more));
        assert forall t | t in more[1..] :: t in more;
        assert more[0] in more;
      }
    }
  }

  /** From after the pattern at the start of the first token that starts with it. */
  function Starting(tokens: seq<string>, pat: string): Option<string>
  {
    if tokens == [] then None
    else if pat <= tokens[0] then Some(tokens[0][|pat|..] + Rest(tokens))
    else Starting(tokens[1..], pat)
  }

  /** From after the pattern in the first token that contains it. */
  function Containing(tokens: seq<string>, pat: string): Option<string>
  {
    if tokens == [] then None
    else
      match After(tokens[0], pat)
      case Some(v) => Some(v + Rest(tokens))
      case None => Containing(tokens[1..], pat)
  }

  lemma {:induction false} ContainingSome(tokens: seq<string>, pat: string)
    ensures Containing(tokens, pat).None? <==> forall t | t in tokens :: StrStr(t, pat).None?
  {
    hide StrStr;
    if tokens != [] {
      var first, more := tokens[0], tokens[1..];
      ContainingSome(more, pat);
      assert first in tokens && (After(first, pat).None? <==> StrStr(first, pat).None?);
      assert forall t | t in more :: t in tokens;
      assert forall t | t in tokens :: t == first || t in more;
    }
  }

  // --- the two searches -----------------------------------------------------------------------------

  lemma StartsWithin(token: string, rest: string, pat: string)
    requires SpaceFree(pat) && (rest == "" || rest[0] == ' ')
    ensures pat <= token + rest <==> pat <= token
  {
    if |pat| <= |token| {
      assert (token + rest)[..|pat|] == token[..|pat|];
    } else if rest != "" {
      assert (token + rest)[|token|] != pat[|token|];
    }
  }

  lemma SpacePrefix(pat: string, hay: string)
    ensures " " + pat <= " " + hay <==> pat <= hay
  {
    assert (" " + hay)[1..] == hay && (" " + pat)[1..] == pat;
    if pat <= hay {
      assert (" " + hay)[..|pat| + 1] == " " + pat;
    }
  }

  /** After a space the search finds the first later token that starts with the pattern. */
  lemma {:induction false} SpacedSearch(tokens: seq<string>, pat: string)
    requires Tokens(tokens) && SpaceFree(pat) && pat != ""
    ensures After(Message(tokens), " " + pat) == Starting(tokens[1..], pat)
  {
    var spaced := " " + pat;
    assert tokens[0] in tokens;
    StrStrSkip(tokens[0], Rest(tokens), spaced);
    if |tokens| > 1 {
      var more := tokens[1..];
      var hay := Message(more);
      assert (" " + hay)[1..] == hay;
      SpacePrefix(pat, hay);
      StartsWithin(more[0], Rest(more), pat);
      if pat <= more[0] {
        assert (" " + hay)[|spaced|..] == hay[|pat|..];
        DropInFirst(more[0], Rest(more), |pat|);
      } else {
        assert forall t | t in more :: t in tokens;
        SpacedSearch(more, pat);
      }
    }
  }

  /** A match in the first part is the first match in the whole. */
  lemma {:induction false} FoundFirst(a: string, b: string, pat: string)
    requires StrStr(a, pat).Some?
    ensures StrStr(a + b, pat) == Some(StrStr(a, pat).value + b)
  {
    if |pat| <= |a| {
      assert (a + b)[..|pat|] == a[..|pat|];
    }
    if !(pat <= a) {
      DropInFirst(a, b, 1);
      FoundFirst(a[1..], b, pat);
    }
  }

  /** Anywhere it finds the first token that contains the pattern. */
  lemma {:induction false} AnywhereSearch(tokens: seq<string>, pat: string)
    requires Tokens(tokens) && SpaceFree(pat) && pat != ""
    ensures After(Message(tokens), pat) == Containing(tokens, pat)
  {
    if StrStr(tokens[0], pat).Some? {
      FoundFirst(tokens[0], Rest(tokens), pat);
      DropInFirst(StrStr(tokens[0], pat).value, Rest(tokens), |pat|);
    } else if |tokens| == 1 {
      assert tokens[0] + "" == tokens[0];
    } else {
      var more := tokens[1..];
      SkipAbsent(tokens[0], Rest(tokens), pat);
      StrStrSkip(" ", Message(more), pat);
      assert forall t | t in more :: t in tokens;
      AnywhereSearch(more, pat);
    }
  }

  // --- numbers ---------------------------------------------------------------------------------------

  /** On every message the number read is the one after `key=` at the start of the first such token
      but the first of all, else the one after the first `key=` in any token, else zero. */
  lemma {:induction false} FieldLongExact(tokens: seq<string>, key: string)
    requires Tokens(tokens) && SpaceFree(key) && |key| + 2 < PATTERN_SIZE
    ensures FieldLong(Message(tokens), key) ==
            match Starting(tokens[1..], key + "=")
            case Some(t) => Atol(t)
            case None =>
              match Containing(tokens, key + "=")
              case Some(t) => Atol(t)
              case None => 0
  {
    Reassociate(" ", key, "=");
    SpacedSearch(tokens, key + "=");
    AnywhereSearch(tokens, key + "=");
  }

  predicate Separated(rest: string) { rest == "" || rest[0] == ' ' }

  lemma {:induction false} ScanStops(v: string, rest: string, acc: nat)
    requires Separated(rest)
    ensures ScanNat(v + rest, acc) == ScanNat(v, acc)
  {
    if v == "" {
      assert v + rest == rest;
    } else {
      DropInFirst(v, rest, 1);
      if IsDigit(v[0]) {
        ScanStops(v[1..], rest, acc * 10 + DigitValue(v[0]));
      }
    }
  }

  /** A number ends with its token. */
  lemma {:induction false} AtolStops(v: string, rest: string)
    requires v != "" && !IsSpace(v[0]) && Separated(rest)
    ensures Atol(v + rest) == Atol(v)
  {
    DropInFirst(v, rest, 1);
    ScanStops(v, rest, 0);
    ScanStops(v[1..], rest, 0);
  }

  const SPACES := " \t\n\U{0B}\U{0C}\r"

  /** The number read is the one written, in decimal, with a sign or without, after white space. */
  lemma {:induction false} AtolReads(space: string, n: int, rest: string)
    requires (forall c | c in space :: c in SPACES) && StopsDigits(rest)
    ensures Atol(space + (IntText(n) + rest)) == n
    ensures n >= 0 ==> Atol(space + ("+" + (IntText(n) + rest))) == n
  {
    var text := IntText(n) + rest;
    if space == "" {
      assert text[0] == IntText(n)[0] && IntText(n)[0] in IntText(n);
      assert "" + text == text && "" + ("+" + text) == "+" + text && ("+" + text)[1..] == text;
      ScanIntRoundTrip(n, rest);
      if n >= 0 { ScanNatRoundTrip(n, rest); }
    } else {
      assert space[0] in space;
      DropInFirst(space, text, 1);
      DropInFirst(space, "+" + text, 1);
      AtolReads(space[1..], n, rest);
    }
  }

  /** Anything else after the white space reads as zero. */
  lemma {:induction false} AtolReadsNothing(space: string, rest: string)
    requires forall c | c in space :: c in SPACES
    requires rest == "" || (rest[0] !in SPACES && !IsDigit(rest[0]) && rest[0] != '+' && rest[0] != '-')
    ensures Atol(space + rest) == 0
  {
    if space == "" {
      assert "" + rest == rest;
    } else {
      assert space[0] in space;
      DropInFirst(space, rest, 1);
      AtolReadsNothing(space[1..], rest);
    }
  }

  lemma {:induction false} StartingAt(tokens: seq<string>, i: nat, pat: string)
    requires i < |tokens| && pat <= tokens[i] && forall k | 0 <= k < i :: !(pat <= tokens[k])
    ensures Starting(tokens, pat) == Some(tokens[i][|pat|..] + Rest(tokens[i..]))
  {
    if i > 0 {
      assert tokens[1..][i - 1..] == tokens[i..];
      StartingAt(tokens[1..], i - 1, pat);
    } else {
      assert tokens[0..] == tokens;
    }
  }

  lemma {:induction false} StartingNone(tokens: seq<string>, pat: string)
    requires forall t | t in tokens :: !(pat <= t)
    ensures Starting(tokens, pat).None?
  {
    if tokens != [] {
      assert tokens[0] in tokens && forall t | t in tokens[1..] :: t in tokens;
      StartingNone(tokens[1..], pat);
    }
  }

  /** When one token is `key=` and a value, and no later one starts with `key=` before it (or, if
      it is the very first, at all), the value's number is read, wherever the token stands and
      whatever the others hold: as with ppid=.. before pid=... */
  lemma {:induction false} FieldLongFinds(tokens: seq<string>, i: nat, key: string, v: string)
    requires Tokens(tokens) && SpaceFree(key) && |key| + 2 < PATTERN_SIZE && i < |tokens|
    requires tokens[i] == key + "=" + v && v != "" && !IsSpace(v[0])
    requires forall k | 0 < k < |tokens| && (i == 0 || k < i) :: !(key + "=" <= tokens[k])
    ensures FieldLong(Message(tokens), key) == Atol(v)
  {
    var pat := key + "=";
    FieldLongExact(tokens, key);
    assert tokens[i][|pat|..] == v && pat <= tokens[i];
    hide FieldLong, Message, Atol, Starting, Containing, Rest;
    if i > 0 {
      StartingAt(tokens[1..], i - 1, pat);
      AtolStops(v, Rest(tokens[1..][i - 1..]));
    } else {
      NoneLater(tokens, pat);
      AtolStops(v, Rest(tokens));
    }
  }

  /** So a number printed as `key=` and its decimal digits is read back, negative ones included. */
  lemma {:induction false} FieldLongReads(tokens: seq<string>, i: nat, key: string, n: int)
    requires Tokens(tokens) && SpaceFree(key) && |key| + 2 < PATTERN_SIZE && i < |tokens|
    requires tokens[i] == key + "=" + IntText(n)
    requires forall k | 0 < k < |tokens| && (i == 0 || k < i) :: !(key + "=" <= tokens[k])
    ensures FieldLong(Message(tokens), key) == n
  {
    hide FieldLong, Message, Atol;
    assert IntText(n)[0] in IntText(n);
    FieldLongFinds(tokens, i, key, IntText(n));
    AtolReads("", n, "");
    assert "" + (IntText(n) + "") == IntText(n);
  }

  lemma {:induction false} NoneLater(tokens: seq<string>, pat: string)
    requires tokens != [] && forall k | 0 < k < |tokens| :: !(pat <= tokens[k])
    ensures Starting(tokens[1..], pat).None?
  {
    forall t | t in tokens[1..] ensures !(pat <= t) {
      var k :| 0 <= k < |tokens[1..]| && tokens[1..][k] == t;
      assert tokens[k + 1] == t;
    }
    StartingNone(tokens[1..], pat);
  }

  /** A key that starts no token reads as zero exactly when `key=` occurs nowhere in the message,
      or the number after its first occurrence is itself zero. */
  lemma {:induction false} FieldLongMissing(tokens: seq<string>, key: string)
    requires Tokens(tokens) && SpaceFree(key) && |key| + 2 < PATTERN_SIZE
    requires forall t | t in tokens :: !(key + "=" <= t)
    ensures var found := Containing(tokens, key + "=");
            && (FieldLong(Message(tokens), key) == 0 <==> found.None? || Atol(found.value) == 0)
            && (found.None? <==> forall t | t in tokens :: StrStr(t, key + "=").None?)
  {
    hide FieldLong, Message, Atol;
    FieldLongExact(tokens, key);
    assert forall t | t in tokens[1..] :: t in tokens;
    StartingNone(tokens[1..], key + "=");
    ContainingSome(tokens, key + "=");
  }

  lemma {:induction false} OneToken(t: string, key: string, v: string)
    requires SpaceFree(t) && SpaceFree(key) && |key| + 2 < PATTERN_SIZE
    requires StrStr(t, key + "=") == Some(key + "=" + v)
    ensures FieldLong(t, key) == Atol(v)
  {
    hide FieldLong, Atol;
    var tokens := [t];
    assert tokens[1..] == [] && t + "" == t && v + "" == v;
    assert (key + "=" + v)[|key + "="|..] == v;
    FieldLongExact(tokens, key);
  }

  lemma {:induction false} AtolOfDigit(d: nat, rest: string)
    requires d < 10 && (rest == "" || !IsDigit(rest[0]))
    ensures Atol([Digit(d)] + rest) == d
  {
    var s := [Digit(d)] + rest;
    assert s[1..] == rest;
    assert ScanNat(s, 0) == ScanNat(rest, d) == d;
  }

  /** A record without a pid whose parent's number is taken for it. */
  lemma ParentTakenForPid()
    ensures FieldLong("ppid=7", "pid") == 7
  {
    var pat := "pid" + "=";
    assert pat == "pid=" && pat + "7" == "pid=7" == "ppid=7"[1..];
    assert "ppid=7"[1] != pat[1];
    assert "pid=7"[..4] == "pid=";
    assert [Digit(7)] + "" == "7";
    AtolOfDigit(7, "");
    hide FieldLong, Atol;
    OneToken("ppid=7", "pid", "7");
  }

  lemma ArgumentFound()
    ensures StrStr("a0=\"pid=5\"", "pid=") == Some("pid=5\"")
  {
    var found := "pid=5\"";
    assert found[..4] == "pid=";
    StrStrAtStart(found, "pid=");
    StrStrSkip("a0=\"", found, "pid=");
    hide StrStr;
    assert "a0=\"" + found == "a0=\"pid=5\"";
  }

  /** One in which an argument's text is taken for it. */
  lemma ArgumentTakenForPid()
    ensures FieldLong("a0=\"pid=5\"", "pid") == 5
  {
    hide FieldLong, Atol, StrStr;
    assert "pid" + "=" == "pid=" && "pid=" + "5\"" == "pid=5\"";
    ArgumentFound();
    assert [Digit(5)] + "\"" == "5\"";
    AtolOfDigit(5, "\"");
    OneToken("a0=\"pid=5\"", "pid", "5\"");
  }

  lemma {:induction false} StrStrAtStart(hay: string, pat: string)
    requires pat <= hay
    ensures StrStr(hay, pat) == Some(hay)
  {
  }

  // --- quoted texts ----------------------------------------------------------------------------------

  /** On every message the text read starts after the first `key="` in any token, is closed by the
      next quote, and is cut to the command buffer. */
  lemma {:induction false} FieldStrExact(tokens: seq<string>, key: string)
    requires Tokens(tokens) && SpaceFree(key) && |key| + 2 < PATTERN_SIZE
    ensures FieldStr(Message(tokens), key) ==
            match Containing(tokens, key + "=\"") case None => None case Some(start) => Unquoted(start)
  {
    AnywhereSearch(tokens, key + "=\"");
  }

  /** Nothing is read exactly when the key does not occur or no quote follows it. */
  lemma {:induction false} FieldStrMissing(msg: string, key: string)
    requires |key| + 2 < PATTERN_SIZE
    ensures FieldStr(msg, key).None? <==>
              StrStr(msg, key + "=\"").None? || QUOTE !in StrStr(msg, key + "=\"").value[|key| + 2..]
  {
    hide StrStr, StrChr;
    if StrStr(msg, key + "=\"").Some? {
      var start := StrStr(msg, key + "=\"").value[|key| + 2..];
      if StrChr(start, QUOTE).Some? {
        var end := StrChr(start, QUOTE).value;
        assert start[|start| - |end|] == end[0] == QUOTE;
      }
    }
  }

  lemma UnquotedStops(v: string, after: string)
    requires QUOTE !in v
    ensures Unquoted(v + ("\"" + after)) == Some(if |v| < COMMAND_MAX then v else v[..COMMAND_MAX - 1])
  {
    var start := v + ("\"" + after);
    hide StrChr;
    StrChrStops(v, after);
    Parts(v, "\"" + after);
    if |v| >= COMMAND_MAX {
      assert start[..COMMAND_MAX - 1] == v[..COMMAND_MAX - 1];
    }
  }

  /** A quoted value comes out whole up to the buffer, spaces included, when its `key="` is the
      first in the message. */
  lemma {:induction false} FieldStrFinds(msg: string, key: string, v: string, after: string)
    requires |key| + 2 < PATTERN_SIZE && QUOTE !in v
    requires StrStr(msg, key + "=\"") == Some(key + "=\"" + (v + ("\"" + after)))
    ensures FieldStr(msg, key) == Some(if |v| < COMMAND_MAX then v else v[..COMMAND_MAX - 1])
  {
    hide Unquoted, StrStr;
    Parts(key + "=\"", v + ("\"" + after));
    UnquotedStops(v, after);
  }
}
