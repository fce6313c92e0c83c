/** The flat JSON objects the printers build, and where `strstr` finds a key in them.
    Values are printed verbatim, without escaping, so what a search finds depends on
    the values not containing quotes. */
module JsonFields {
  import opened CStrings

  datatype Field =
    | Text(key: string, text: string)
    | Number(key: string, number: int)

  /** One `"key":"text"` or `"key":number` member. */
  function Member(f: Field): string
  {
    match f
    case Text(k, v) => "\"" + k + "\":\"" + v + "\""
    case Number(k, n) => "\"" + k + "\":" + IntText(n)
  }

  /** Members separated by commas. */
  function Render(fs: seq<Field>): string
    requires fs != []
  {
    if |fs| == 1 then Member(fs[0]) else Member(fs[0]) + "," + Render(fs[1..])
  }

  /** The whole object. */
  function Object(fs: seq<Field>): string
    requires fs != []
  {
    "{" + (Render(fs) + "}")
  }

  /** What the parser searches for: the key, the colon, and the opening quote of a text. */
  function Pattern(f: Field): string
  {
    match f
    case Text(k, _) => "\"" + k + "\":\""
    case Number(k, _) => "\"" + k + "\":"
  }

  /** The value of a member as printed, and the text that follows it. */
  function ValueText(f: Field): string
  {
    match f
    case Text(_, v) => v + "\""
    case Number(_, n) => IntText(n)
  }

  lemma MemberParts(f: Field)
    ensures Member(f) == Pattern(f) + ValueText(f)
  {
  }

  predicate PlainKey(k: string) { QUOTE !in k && ':' !in k && ',' !in k }

  predicate QuoteFree(f: Field) { PlainKey(f.key) && (f.Text? ==> QUOTE !in f.text) }

  /** A character the layout does not use and no key or text contains is not in the object. */
  lemma {:induction false} RenderFree(fs: seq<Field>, c: char)
    requires fs != [] && c !in "\":,-" && !IsDigit(c)
    requires forall i | 0 <= i < |fs| :: c !in fs[i].key && (fs[i].Text? ==> c !in fs[i].text)
    ensures c !in Render(fs)
  {
    assert c !in Member(fs[0]);
    if |fs| > 1 {
      RenderFree(fs[1..], c);
    }
  }

  // --- first occurrence of a key ------------------------------------------------

  lemma SameToken(key: string, tok: string, rest: string)
    requires QUOTE !in key && QUOTE !in tok
    requires key + "\"" <= tok + "\"" + rest
    ensures key == tok
  {
    var hay := tok + "\"" + rest;
    assert hay[|key|] == (key + "\"")[|key|] == QUOTE;
    assert hay[|tok|] == QUOTE;
    assert tok == hay[..|tok|];
    assert key == (key + "\"")[..|key|] == hay[..|key|];
  }

  /** A quote that does not open the wanted key is passed over. */
  lemma {:induction false} PassQuote(rest: string, pat: string)
    requires !(pat <= "\"" + rest)
    ensures StrStr("\"" + rest, pat) == StrStr(rest, pat)
  {
    assert ("\"" + rest)[1..] == rest;
  }

  /** A quote followed by a colon or a comma opens no key. */
  lemma {:induction false} PassLastQuote(rest: string, key: string, pat: string)
    requires PlainKey(key) && "\"" + key + "\":" <= pat
    requires rest != "" && (rest[0] == ',' || rest[0] == ':')
    ensures StrStr("\"" + rest, pat) == StrStr(rest, pat)
  {
    assert ("\"" + rest)[1] == rest[0];
    assert pat[1] == ("\"" + key + "\":")[1] == (key + "\":")[0];
    PassQuote(rest, pat);
  }

  /** A quote followed by the token `tok` and another quote opens the key only if
      the token is the key and a colon comes next. */
  lemma {:induction false} PassToken(tok: string, rest: string, key: string, pat: string)
    requires PlainKey(key) && QUOTE !in tok && "\"" + key + "\":" <= pat
    requires tok != key || rest == "" || rest[0] != ':'
    ensures StrStr("\"" + (tok + ("\"" + rest)), pat) == StrStr("\"" + rest, pat)
  {
    var hay := tok + ("\"" + rest);
    assert hay == tok + "\"" + rest && hay[|tok| + 1..] == rest;
    assert (key + "\":")[|key| + 1] == ':';
    if pat <= "\"" + hay {
      assert ("\"" + hay)[1..] == hay && ("\"" + key + "\":")[1..] == key + "\":";
      assert key + "\"" <= key + "\":" <= hay;
      SameToken(key, tok, rest);
      assert false;
    }
    PassQuote(hay, pat);
    StrStrSkip(tok, "\"" + rest, pat);
  }

  // --- what a member shows to a search ------------------------------------------

  /** The pattern occurs in the text as it stands between its quotes. */
  predicate BringsIn(v: string, pat: string) { StrStr("\"" + (v + "\""), pat).Some? }

  lemma QuoteFreeBringsNone(v: string, key: string, pat: string)
    requires QUOTE !in v && PlainKey(key) && "\"" + key + "\":" <= pat
    ensures !BringsIn(v, pat)
  {
    assert "\"" + "" == "\"";
    PassToken(v, "", key, pat);
    assert StrStr("\"", pat).None?;
  }

  /** A member shows another key's pattern only inside its text. */
  lemma {:induction false} MemberShows(f: Field, key: string, pat: string)
    requires PlainKey(f.key) && PlainKey(key) && key != f.key && "\"" + key + "\":" <= pat
    requires f.Text? ==> !BringsIn(f.text, pat)
    ensures StrStr(Member(f), pat).None?
  {
    hide Member;
    match f
    case Text(k, v) =>
      TextOpens(k, v);
      PassKey(k, "\"" + (v + "\""), key, pat);
    case Number(k, n) =>
      NumberOpens(k, n);
      PassKey(k, IntText(n), key, pat);
      StrStrSkip(IntText(n), "", pat);
      assert IntText(n) + "" == IntText(n);
  }

  lemma {:induction false} PassKey(k: string, value: string, key: string, pat: string)
    requires PlainKey(k) && PlainKey(key) && key != k && "\"" + key + "\":" <= pat
    ensures StrStr("\"" + (k + ("\"" + (":" + value))), pat) == StrStr(value, pat)
  {
    PassToken(k, ":" + value, key, pat);
    PassLastQuote(":" + value, key, pat);
    StrStrSkip(":", value, pat);
  }

  lemma TextOpens(k: string, v: string)
    ensures Member(Text(k, v)) == "\"" + (k + ("\"" + (":" + ("\"" + (v + "\"")))))
  {
  }

  lemma NumberOpens(k: string, n: int)
    ensures Member(Number(k, n)) == "\"" + (k + ("\"" + (":" + IntText(n))))
  {
  }

  /** A text without the pattern is passed over when what follows cannot belong to a match. */
  lemma {:induction false} SkipAbsent(a: string, rest: string, pat: string)
    requires StrStr(a, pat).None? && rest != "" && rest[0] !in pat
    ensures StrStr(a + rest, pat) == StrStr(rest, pat)
  {
    if a == "" {
      assert a + rest == rest;
    } else {
      if |pat| <= |a| {
        assert (a + rest)[..|pat|] == a[..|pat|];
      } else {
        assert pat[|a|] != (a + rest)[|a|];
      }
      assert !(pat <= a + rest);
      DropInFirst(a, rest, 1);
      SkipAbsent(a[1..], rest, pat);
    }
  }

  lemma {:induction false} StillFound(a: string, b: string, pat: string)
    requires StrStr(b, pat).Some?
    ensures StrStr(a + b, pat).Some?
  {
    if a == "" {
      assert a + b == b;
    } else {
      DropInFirst(a, b, 1);
      StillFound(a[1..], b, pat);
    }
  }

  lemma {:induction false} RenderTail(fs: seq<Field>, end: string)
    requires |fs| > 1
    ensures Render(fs) + end == Member(fs[0]) + ("," + (Render(fs[1..]) + end))
  {
    Associate(Member(fs[0]), ",", Render(fs[1..]), end);
  }

  lemma Associate(a: string, b: string, c: string, d: string)
    ensures a + b + c + d == a + (b + (c + d))
  {
    Reassociate(a + b, c, d);
    Reassociate(a, b, c + d);
  }

  lemma {:induction false} OpensWithPattern(fs: seq<Field>, end: string)
    requires fs != []
    ensures StrStr(Render(fs) + end, Pattern(fs[0])) == Some(Render(fs) + end)
  {
    MemberParts(fs[0]);
    var more := if |fs| == 1 then "" else "," + Render(fs[1..]);
    Reassociate(Member(fs[0]), ",", if |fs| == 1 then "" else Render(fs[1..]));
    assert Render(fs) == Member(fs[0]) + more;
    Reassociate(Member(fs[0]), more, end);
    Reassociate(Pattern(fs[0]), ValueText(fs[0]), more + end);
  }

  /** No member before this one shows its pattern. */
  predicate FoundAt(fs: seq<Field>, j: nat)
  {
    && j < |fs| && PlainKey(fs[j].key)
    && forall i | 0 <= i < j :: StrStr(Member(fs[i]), Pattern(fs[j])).None?
  }

  /** Then the first occurrence of the pattern is the member itself; nothing is asked of the
      members after it. */
  lemma {:induction false} Located(fs: seq<Field>, j: nat, end: string)
    requires FoundAt(fs, j)
    ensures StrStr(Render(fs) + end, Pattern(fs[j])) == Some(Render(fs[j..]) + end)
  {
    var pat := Pattern(fs[j]);
    if j == 0 {
      assert fs[0..] == fs;
      OpensWithPattern(fs, end);
    } else {
      var rest := Render(fs[1..]) + end;
      RenderTail(fs, end);
      PatternOpens(fs[j]);
      SkipAbsent(Member(fs[0]), "," + rest, pat);
      StrStrSkip(",", rest, pat);
      assert fs[1..][j - 1..] == fs[j..];
      Located(fs[1..], j - 1, end);
    }
  }

  /** A member's pattern is always found somewhere. */
  lemma {:induction false} Present(fs: seq<Field>, j: nat, end: string)
    requires j < |fs|
    ensures StrStr(Render(fs) + end, Pattern(fs[j])).Some?
  {
    hide Member, Pattern;
    if j == 0 {
      OpensWithPattern(fs, end);
    } else {
      RenderTail(fs, end);
      hide Render;
      Present(fs[1..], j - 1, end);
      StillFound(",", Render(fs[1..]) + end, Pattern(fs[j]));
      StillFound(Member(fs[0]), "," + (Render(fs[1..]) + end), Pattern(fs[j]));
    }
  }

  lemma PatternOpens(f: Field)
    ensures "\"" + f.key + "\":" <= Pattern(f) && Pattern(f)[0] == QUOTE
    ensures PlainKey(f.key) ==> ',' !in Pattern(f)
  {
  }

  // --- injectivity --------------------------------------------------------------

  /** Text up to the first quote, and what follows, are determined by the whole. */
  lemma SplitAtQuote(a: string, b: string, x: string, y: string)
    requires QUOTE !in a && QUOTE !in b
    requires a + "\"" + x == b + "\"" + y
    ensures a == b && x == y
  {
    assert a + "\"" <= b + "\"" + y;
    SameToken(a, b, y);
    assert (a + "\"" + x)[|a| + 1..] == x;
    assert (b + "\"" + y)[|b| + 1..] == y;
  }

  /** A printed number and what follows it are determined by the whole. */
  lemma SplitAtNumber(m: int, n: int, x: string, y: string)
    requires StopsDigits(x) && StopsDigits(y)
    requires IntText(m) + x == IntText(n) + y
    ensures m == n && x == y
  {
    ScanIntRoundTrip(m, x);
    ScanIntRoundTrip(n, y);
    assert (IntText(m) + x)[|IntText(m)|..] == x;
    assert (IntText(n) + y)[|IntText(n)|..] == y;
  }

  predicate SameShape(f: Field, g: Field) { f.key == g.key && f.Text? == g.Text? }

  lemma MemberInjective(f: Field, g: Field, x: string, y: string)
    requires SameShape(f, g) && QuoteFree(f) && QuoteFree(g)
    requires StopsDigits(x) && StopsDigits(y)
    requires Member(f) + x == Member(g) + y
    ensures f == g && x == y
  {
    MemberParts(f);
    MemberParts(g);
    Reassociate(Pattern(f), ValueText(f), x);
    Reassociate(Pattern(g), ValueText(g), y);
    assert Pattern(f) == Pattern(g);
    Cancel(Pattern(f), ValueText(f) + x, ValueText(g) + y);
    if f.Text? {
      SplitAtQuote(f.text, g.text, x, y);
    } else {
      SplitAtNumber(f.number, g.number, x, y);
    }
  }

  /** Two quote-free objects with the same keys that print the same are the same. */
  lemma {:induction false} RenderInjective(fs: seq<Field>, gs: seq<Field>, end: string)
    requires fs != [] && |fs| == |gs| && StopsDigits(end)
    requires forall i | 0 <= i < |fs| :: SameShape(fs[i], gs[i]) && QuoteFree(fs[i]) && QuoteFree(gs[i])
    requires Render(fs) + end == Render(gs) + end
    ensures forall i | 0 <= i < |fs| :: fs[i] == gs[i]
  {
    if |fs| == 1 {
      MemberInjective(fs[0], gs[0], end, end);
    } else {
      RenderTail(fs, end);
      RenderTail(gs, end);
      var x, y := Render(fs[1..]) + end, Render(gs[1..]) + end;
      MemberInjective(fs[0], gs[0], "," + x, "," + y);
      Cancel(",", x, y);
      RenderInjective(fs[1..], gs[1..], end);
      forall i | 0 <= i < |fs| ensures fs[i] == gs[i] {
        if i > 0 {
          assert fs[i] == fs[1..][i - 1] && gs[i] == gs[1..][i - 1];
        }
      }
    }
  }

  // --- counting quotes ------------------------------------------------------------

  function Quotes(s: string): nat
  {
    if s == "" then 0 else Quotes(s[1..]) + if s[0] == QUOTE then 1 else 0
  }

  lemma {:induction false} QuotesAppend(a: string, b: string)
    ensures Quotes(a + b) == Quotes(a) + Quotes(b)
  {
    if a == "" {
      assert a + b == b;
    } else {
      DropInFirst(a, b, 1);
      QuotesAppend(a[1..], b);
    }
  }

  lemma {:induction false} NoQuotes(s: string)
    ensures Quotes(s) == 0 <==> QUOTE !in s
  {
    if s != "" {
      NoQuotes(s[1..]);
    }
  }

  /** The four quotes of a text member, or the two of a number's, besides those of its text. */
  lemma MemberQuotes(f: Field)
    requires PlainKey(f.key)
    ensures Quotes(Member(f)) == if f.Text? then 4 + Quotes(f.text) else 2
  {
    hide Quotes;
    NoQuotes(f.key);
    OneQuote();
    match f
    case Text(k, v) =>
      QuotesAppend("\"" + k + "\":\"" + v, "\"");
      QuotesAppend("\"" + k + "\":\"", v);
      QuotesAppend("\"" + k, "\":\"");
      QuotesAppend("\"", k);
    case Number(k, n) =>
      NoQuotes(IntText(n));
      QuotesAppend("\"" + k + "\":", IntText(n));
      QuotesAppend("\"" + k, "\":");
      QuotesAppend("\"", k);
  }

  lemma OneQuote()
    ensures Quotes("\"") == 1 && Quotes("\":\"") == 2 && Quotes("\":") == 1 && Quotes(",") == 0
  {
    assert "\":\""[1..] == ":\"" && ":\""[1..] == "\"";
    assert "\":"[1..] == ":" && ":"[1..] == "";
  }

  lemma CompareMembers(f: Field, g: Field)
    requires SameShape(f, g) && QuoteFree(f)
    ensures Quotes(Member(f)) <= Quotes(Member(g))
    ensures Quotes(Member(f)) == Quotes(Member(g)) ==> QuoteFree(g)
  {
    MemberQuotes(f);
    MemberQuotes(g);
    if f.Text? {
      NoQuotes(f.text);
      NoQuotes(g.text);
    }
  }

  /** No object of a shape has fewer quotes than a quote-free one, and only another
      quote-free one has as few. */
  lemma {:induction false} FewestQuotes(fs: seq<Field>, gs: seq<Field>)
    requires fs != [] && |fs| == |gs|
    requires forall i | 0 <= i < |fs| :: SameShape(fs[i], gs[i]) && QuoteFree(fs[i])
    ensures Quotes(Render(fs)) <= Quotes(Render(gs))
    ensures Quotes(Render(fs)) == Quotes(Render(gs)) ==> forall i | 0 <= i < |gs| :: QuoteFree(gs[i])
  {
    hide Member, QuoteFree, SameShape, Quotes;
    CompareMembers(fs[0], gs[0]);
    if |fs| > 1 {
      FewestQuotes(fs[1..], gs[1..]);
      RenderQuotes(fs);
      RenderQuotes(gs);
      assert forall i | 0 < i < |gs| :: gs[i] == gs[1..][i - 1];
    }
  }

  lemma {:induction false} RenderQuotes(fs: seq<Field>)
    requires |fs| > 1
    ensures Quotes(Render(fs)) == Quotes(Member(fs[0])) + Quotes(Render(fs[1..]))
  {
    OneQuote();
    hide Quotes, Member;
    QuotesAppend(Member(fs[0]) + ",", Render(fs[1..]));
    QuotesAppend(Member(fs[0]), ",");
  }

  /** A quote-free object prints like no other object of its shape. */
  lemma {:induction false} RenderDetermines(fs: seq<Field>, gs: seq<Field>, end: string)
    requires fs != [] && |fs| == |gs| && StopsDigits(end)
    requires forall i | 0 <= i < |fs| :: SameShape(fs[i], gs[i]) && QuoteFree(fs[i])
    requires Render(fs) + end == Render(gs) + end
    ensures forall i | 0 <= i < |fs| :: fs[i] == gs[i]
  {
    hide QuoteFree, SameShape;
    QuotesAppend(Render(fs), end);
    QuotesAppend(Render(gs), end);
    FewestQuotes(fs, gs);
    RenderInjective(fs, gs, end);
  }
}
