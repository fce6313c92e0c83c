/** C strings as the program uses them.  A `char *` is modelled by the text it
    points at, up to but not including the terminating NUL, so advancing a pointer
    is taking a suffix and `*p == '\0'` is being at the end of the text. */
module CStrings {

  datatype Option<+T> = None | Some(value: T)

  const NUL: char := '\0'
  const QUOTE: char := '\"'
  const BACKSLASH: char := '\\'

  // --- pieces of texts ---------------------------------------------------------

  /** A concatenation gives back its parts. */
  lemma Parts(a: string, b: string)
    ensures (a + b)[..|a|] == a && (a + b)[|a|..] == b
  {
  }

  lemma Reassociate<T>(a: seq<T>, b: seq<T>, c: seq<T>)
    ensures (a + b) + c == a + (b + c)
  {
  }

  /** Common prefixes cancel. */
  lemma Cancel(a: string, b: string, c: string)
    requires a + b == a + c
    ensures b == c
  {
    Parts(a, b);
    Parts(a, c);
  }

  /** Dropping from the front of a concatenation drops from its first part. */
  lemma DropInFirst(a: string, b: string, k: nat)
    requires k <= |a|
    ensures (a + b)[k..] == a[k..] + b
  {
  }

  // --- C strings -----------------------------------------------------------------

  /** The text held by a char array: everything before its first NUL. */
  function CStr(buf: seq<char>): (r: string)
    ensures NUL !in r && |r| <= |buf|
    ensures r == buf[..|r|]
    ensures |r| < |buf| ==> buf[|r|] == NUL
  {
    if buf == [] || buf[0] == NUL then [] else [buf[0]] + CStr(buf[1..])
  }

  /** The text a char array holds now. */
  function Held(buf: array<char>): (r: string)
    reads buf
    ensures NUL !in r && |r| <= buf.Length
  {
    CStr(buf[..])
  }

  lemma {:induction false} CStrIs(buf: seq<char>, text: string)
    requires NUL !in text && text < buf && buf[|text|] == NUL
    ensures CStr(buf) == text
  {
    if text != [] {
      CStrIs(buf[1..], text[1..]);
    }
  }

  lemma HeldIs(buf: array<char>, text: string)
    requires NUL !in text && |text| < buf.Length && buf[..|text|] == text && buf[|text|] == NUL
    ensures Held(buf) == text
  {
    CStrIs(buf[..], text);
  }

  /** `strstr`: the suffix of `hay` starting at the first occurrence of `pat`. */
  function StrStr(hay: string, pat: string): (r: Option<string>)
    ensures r.Some? ==> |r.value| <= |hay| && r.value == hay[|hay| - |r.value|..] && pat <= r.value
  {
    if pat <= hay then Some(hay) else if hay == [] then None else StrStr(hay[1..], pat)
  }

  /** No occurrence starts before the one found, and none exists when none is found. */
  lemma {:induction false} StrStrIsFirst(hay: string, pat: string, j: nat)
    requires j <= |hay| && pat <= hay[j..]
    ensures StrStr(hay, pat).Some? && |StrStr(hay, pat).value| >= |hay| - j
  {
    if !(pat <= hay) {
      assert hay[j..] == hay[1..][j - 1..];
      StrStrIsFirst(hay[1..], pat, j - 1);
    }
  }

  /** The text after the first occurrence of `pat`: the `p = strstr(..); p += len` idiom. */
  function After(hay: string, pat: string): (r: Option<string>)
    ensures r.Some? ==> |r.value| <= |hay| && r.value == hay[|hay| - |r.value|..]
  {
    match StrStr(hay, pat)
    case None => None
    case Some(s) => Some(s[|pat|..])
  }

  /** A stretch of text without the pattern's first character holds no start of a match. */
  lemma {:induction false} StrStrSkip(pre: string, rest: string, pat: string)
    requires pat != [] && pat[0] !in pre
    ensures StrStr(pre + rest, pat) == StrStr(rest, pat)
  {
    if pre == [] {
      assert pre + rest == rest;
    } else {
      assert (pre + rest)[1..] == pre[1..] + rest;
      StrStrSkip(pre[1..], rest, pat);
    }
  }

  /** `strchr`. */
  function StrChr(s: string, c: char): (r: Option<string>)
    ensures r.Some? ==> |r.value| <= |s| && r.value == s[|s| - |r.value|..] && c !in s[..|s| - |r.value|]
    ensures r.Some? ==> r.value != "" && r.value[0] == c
    ensures r.None? ==> c !in s
  {
    if s == "" then None else if s[0] == c then Some(s) else StrChr(s[1..], c)
  }

  lemma {:induction false} StrChrStops(v: string, rest: string)
    requires QUOTE !in v
    ensures StrChr(v + ("\"" + rest), QUOTE) == Some("\"" + rest)
  {
    if v != "" {
      assert (v + ("\"" + rest))[1..] == v[1..] + ("\"" + rest);
      StrChrStops(v[1..], rest);
    } else {
      assert v + ("\"" + rest) == "\"" + rest;
    }
  }

  // --- decimal numbers -------------------------------------------------------

  predicate IsDigit(c: char) { '0' <= c <= '9' }

  function DigitValue(c: char): nat
    requires IsDigit(c)
  {
    c as int - '0' as int
  }

  function Digit(d: nat): (c: char)
    requires d < 10
    ensures IsDigit(c) && DigitValue(c) == d
  {
    ('0' as int + d) as char
  }

  /** `%d` of a non-negative number. */
  function NatText(n: nat): (r: string)
    ensures r != [] && forall c | c in r :: IsDigit(c)
  {
    if n < 10 then [Digit(n)] else NatText(n / 10) + [Digit(n % 10)]
  }

  /** `%d`. */
  function IntText(n: int): (r: string)
    ensures r != [] && forall c | c in r :: IsDigit(c) || c == '-'
  {
    if n < 0 then "-" + NatText(-n) else NatText(n)
  }

  /** The value the digit loop accumulates: `while digit: v = v * 10 + d`. */
  function ScanNat(s: string, acc: nat): nat
  {
    if s == [] || !IsDigit(s[0]) then acc else ScanNat(s[1..], acc * 10 + DigitValue(s[0]))
  }

  /** An optional minus sign, then digits. */
  function ScanInt(s: string): int
  {
    if s != [] && s[0] == '-' then 0 - ScanNat(s[1..], 0) else ScanNat(s, 0)
  }

  predicate StopsDigits(s: string) { s == [] || !IsDigit(s[0]) }

  lemma {:induction false} ScanNatAppend(a: string, b: string, acc: nat)
    requires forall c | c in a :: IsDigit(c)
    ensures ScanNat(a + b, acc) == ScanNat(b, ScanNat(a, acc))
  {
    if a == [] {
      assert a + b == b;
    } else {
      assert (a + b)[1..] == a[1..] + b;
      ScanNatAppend(a[1..], b, acc * 10 + DigitValue(a[0]));
    }
  }

  lemma {:induction false} ScanNatOfText(n: nat)
    ensures ScanNat(NatText(n), 0) == n
  {
    if n >= 10 {
      ScanNatOfText(n / 10);
      ScanNatAppend(NatText(n / 10), [Digit(n % 10)], 0);
      assert ScanNat([Digit(n % 10)], n / 10) == ScanNat([], n / 10 * 10 + n % 10);
    }
  }

  /** Reading back a printed number gives the number, whatever non-digit follows. */
  lemma {:induction false} ScanNatRoundTrip(n: nat, rest: string)
    requires StopsDigits(rest)
    ensures ScanNat(NatText(n) + rest, 0) == n
  {
    ScanNatAppend(NatText(n), rest, 0);
    ScanNatOfText(n);
  }

  lemma ScanIntRoundTrip(n: int, rest: string)
    requires StopsDigits(rest)
    ensures ScanInt(IntText(n) + rest) == n
  {
    if n < 0 {
      assert (IntText(n) + rest)[1..] == NatText(-n) + rest;
      ScanNatRoundTrip(-n, rest);
    } else {
      ScanNatRoundTrip(n, rest);
      assert (NatText(n) + rest)[0] == NatText(n)[0];
    }
  }

  function Pow10(k: nat): nat { if k == 0 then 1 else 10 * Pow10(k - 1) }

  lemma {:induction false} NatTextLength(n: nat, k: nat)
    requires 0 < k && n < Pow10(k)
    ensures |NatText(n)| <= k
  {
    if n >= 10 {
      NatTextLength(n / 10, k - 1);
    }
  }

  /** A 32-bit number prints in at most eleven characters. */
  lemma IntTextLength(n: int)
    requires -0x8000_0000 <= n < 0x8000_0000
    ensures |IntText(n)| <= 11
  {
    assert Pow10(10) == 10_000_000_000;
    NatTextLength(if n < 0 then -n else n, 10);
  }
}
