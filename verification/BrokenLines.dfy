/** What a newline in a field does to a logged event: the printed form falls into several lines,
    and none of them parses. */
module BrokenLines {
  import opened CStrings
  import opened JsonFields
  import opened Event
  import opened EventProofs
  import opened LocalLog

  lemma {:induction false} FoundInPrefix(a: string, b: string, pat: string)
    requires StrStr(a, pat).Some?
    ensures StrStr(a + b, pat).Some? && |StrStr(a + b, pat).value| >= |StrStr(a, pat).value| + |b|
  {
    hide StrStr;
    var at := |a| - |StrStr(a, pat).value|;
    assert pat <= a[at..];
    assert (a + b)[at..] == a[at..] + b;
    StrStrIsFirst(a + b, pat, at);
  }

  lemma {:induction false} FirstIsPrefix(t: string)
    ensures Split(t)[0] <= t
    ensures |Split(t)| > 1 ==> |Split(t)[0]| < |t| && t[|Split(t)[0]|] == '\n'
  {
    if t != "" && t[0] != '\n' {
      FirstIsPrefix(t[1..]);
    }
  }

  lemma {:induction false} FoundInStart(first: string, t: string, pat: string)
    requires first <= t && StrStr(first, pat).Some?
    ensures StrStr(t, pat).Some?
  {
    assert t == first + t[|first|..];
    FoundInPrefix(first, t[|first|..], pat);
  }

  lemma {:induction false} FoundInRest(t: string, pat: string)
    requires t != "" && StrStr(t[1..], pat).Some?
    ensures StrStr(t, pat).Some?
  {
  }

  /** What is found in a line is found in the text. */
  lemma {:induction false} FoundInPiece(t: string, i: nat, pat: string)
    requires i < |Split(t)|
    ensures StrStr(Split(t)[i], pat).Some? ==> StrStr(t, pat).Some?
  {
    hide StrStr;
    if StrStr(Split(t)[i], pat).Some? {
      if i == 0 {
        FirstIsPrefix(t);
        FoundInStart(Split(t)[0], t, pat);
      } else {
        FoundInPiece(t[1..], if t[0] == '\n' then i - 1 else i, pat);
        FoundInRest(t, pat);
      }
    }
  }

  lemma {:induction false} LaterPieces(t: string, n: nat, i: nat)
    requires n <= |t| && '\n' !in t[..n] && 0 < i < |Split(t)|
    ensures i < |Split(t[n..])| && Split(t[n..])[i] == Split(t)[i]
  {
    if n > 0 {
      assert t[0] in t[..n];
      assert t[1..][..n - 1] == t[..n][1..] && t[1..][n - 1..] == t[n..];
      LaterPieces(t[1..], n - 1, i);
    }
  }

  /** No member shows the pattern, so the object does not. */
  lemma {:induction false} RenderShowsNone(fs: seq<Field>, pat: string)
    requires fs != [] && pat != "" && ',' !in pat && '}' !in pat
    requires forall i | 0 <= i < |fs| :: StrStr(Member(fs[i]), pat).None?
    ensures StrStr(Render(fs) + "}", pat).None?
  {
    hide Member, StrStr;
    BraceShowsNone(pat);
    if |fs| == 1 {
      SkipAbsent(Member(fs[0]), "}", pat);
    } else {
      var rest := Render(fs[1..]) + "}";
      RenderTail(fs, "}");
      RenderShowsNone(fs[1..], pat);
      hide Render;
      SkipAbsent(Member(fs[0]), "," + rest, pat);
      StrStrSkip(",", rest, pat);
    }
  }

  lemma {:induction false} BraceShowsNone(pat: string)
    requires pat != "" && '}' !in pat
    ensures StrStr("}", pat).None?
  {
    assert pat[0] in pat;
  }

  lemma TextBringsNoKey(ev: Event, j: nat)
    requires BringsNoKey(ev) && QUOTE !in ev.hash && j < 8 && AllFields(ev)[j].Text?
    ensures !BringsInKey(AllFields(ev)[j].text, 0)
  {
    hide BringsInKey;
    QuoteFreeBringsNoKey(ev.hash);
    TextIsOne(ev, j);
  }

  lemma TypeAbsentAfter(ev: Event, j: nat)
    requires BringsNoKey(ev) && QUOTE !in ev.hash && 0 < j < 8
    ensures StrStr(Member(AllFields(ev)[j]), PATTERNS[0]).None?
  {
    if AllFields(ev)[j].Text? {
      TextBringsNoKey(ev, j);
    }
    FieldFacts(ev, j);
    KeysDiffer(0, j);
    PatternStarts(0);
    hide BringsIn, BringsNoKey, Member, AllFields, StrStr;
    MemberShows(AllFields(ev)[j], KEYS[0], PATTERNS[0]);
  }

  /** The type's key is not found again after the start of the text. */
  lemma TypeFoundOnce(ev: Event)
    requires BringsNoKey(ev) && QUOTE !in ev.hash
    ensures |JsonText(ev)| >= 2 && JsonText(ev)[..2] == "{\""
    ensures StrStr(JsonText(ev)[2..], PATTERNS[0]).None?
  {
    var fs, pat := AllFields(ev), PATTERNS[0];
    var value, rest := "\"" + (ev.event_type + "\""), Render(fs[1..]) + "}";
    forall j | 0 <= j < 7 ensures StrStr(Member(fs[1..][j]), pat).None? {
      TypeAbsentAfter(ev, j + 1);
    }
    PatternStarts(0);
    assert StrStr(value, pat).None?;
    TypePattern();
    RenderShowsNone(fs[1..], pat);
    RenderTail(fs, "}");
    TextOpens("event_type", ev.event_type);
    OpenedTwice("event_type", value, rest);
    assert fs[0] == Text("event_type", ev.event_type);
    hide PATTERNS, Member, Render;
    PassValue("event_type", value, rest, pat);
  }

  lemma TypePattern()
    ensures PATTERNS[0][0] == QUOTE && ',' !in PATTERNS[0] && '}' !in PATTERNS[0]
  {
  }

  lemma OpenedTwice(k: string, value: string, rest: string)
    ensures ("{" + ("\"" + (k + ("\"" + (":" + value))) + ("," + rest)))[2..] ==
            k + ("\"" + (":" + (value + ("," + rest))))
  {
    assert "\"" + (k + ("\"" + (":" + value))) + ("," + rest) == "\"" + (k + ("\"" + (":" + (value + ("," + rest)))));
  }

  lemma {:induction false} PassValue(k: string, value: string, rest: string, pat: string)
    requires QUOTE !in k && "\"event_type\":" <= pat && ',' !in pat
    requires StrStr(value, pat).None? && StrStr(rest, pat).None?
    ensures StrStr(k + ("\"" + (":" + (value + ("," + rest)))), pat).None?
  {
    var more := value + ("," + rest);
    assert pat[0] == QUOTE;
    StrStrSkip(k, "\"" + (":" + more), pat);
    assert "\"" + "event_type" + "\":" == "\"event_type\":";
    PassLastQuote(":" + more, "event_type", pat);
    StrStrSkip(":", more, pat);
    SkipAbsent(value, "," + rest, pat);
    StrStrSkip(",", rest, pat);
  }

  lemma {:induction false} NoTypeNoParse(line: string)
    requires StrStr(line, PATTERNS[0]).None?
    ensures ParseEvent(line).0 != 0
  {
  }

  lemma {:induction false} NoHashNoParse(line: string)
    requires StrStr(line, PATTERNS[7]).None?
    ensures ParseEvent(line).0 != 0
  {
    hide FindCommand, FindNat, FindInt;
  }

  lemma HashMemberFound(ev: Event)
    requires FoundAt(AllFields(ev), 7)
    ensures StrStr(JsonText(ev), PATTERNS[7]) == Some(Member(Text("hash", ev.hash)) + "}")
  {
    var fs := AllFields(ev);
    PatternIsKey(ev, 7);
    PatternOpens(fs[7]);
    assert fs[7..] == [Text("hash", ev.hash)];
    hide FoundAt, Member, PATTERNS;
    Located(fs, 7, "}");
    StrStrSkip("{", Render(fs) + "}", PATTERNS[7]);
  }

  lemma InSuffix(t: string, end: string, at: nat)
    requires at < |t| && |end| <= |t| && end == t[|t| - |end|..]
    ensures |end| >= |t| - at ==> t[at] in end
  {
    if |end| >= |t| - at {
      assert t[at] == end[at - (|t| - |end|)];
    }
  }

  lemma {:induction false} BreakBefore(t: string, first: string, found: string, pat: string)
    requires first <= t && |first| < |t| && t[|first|] == '\n'
    requires StrStr(t, pat) == Some(found) && '\n' !in found
    ensures StrStr(first, pat).None?
  {
    hide StrStr;
    var more := t[|first|..];
    assert t == first + more;
    InSuffix(t, found, |first|);
    if StrStr(first, pat).Some? {
      FoundInPrefix(first, more, pat);
      assert false;
    }
  }

  lemma HashAfterBreak(ev: Event)
    requires FoundAt(AllFields(ev), 7) && '\n' !in ev.hash && |Split(JsonText(ev))| > 1
    ensures StrStr(Split(JsonText(ev))[0], PATTERNS[7]).None?
  {
    var found := Member(Text("hash", ev.hash)) + "}";
    assert '\n' !in found;
    hide JsonText, FoundAt, Member, PATTERNS, StrStr;
    HashMemberFound(ev);
    FirstIsPrefix(JsonText(ev));
    BreakBefore(JsonText(ev), Split(JsonText(ev))[0], found, PATTERNS[7]);
  }

  /** No line that a broken event falls into parses. */
  lemma NoPieceParses(ev: Event, i: nat)
    requires BringsNoKey(ev) && QUOTE !in ev.hash && '\n' !in ev.hash
    requires |Split(JsonText(ev))| > 1 && i < |Split(JsonText(ev))|
    ensures ParseEvent(Split(JsonText(ev))[i]).0 != 0
  {
    hide JsonText, ParseEvent, BringsIn, FoundAt;
    var t := JsonText(ev);
    if i == 0 {
      NoKeyNoHash(ev);
      HashFoundFirst(ev);
      HashAfterBreak(ev);
      NoHashNoParse(Split(t)[0]);
    } else {
      TypeFoundOnce(ev);
      LaterPieces(t, 2, i);
      FoundInPiece(t[2..], i, PATTERNS[0]);
      NoTypeNoParse(Split(t)[i]);
    }
  }
}
