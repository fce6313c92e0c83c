/** The digest as the program sees it: SHA-256 (section 6.2 of FIPS 180-4) is any fixed
    function from texts to 32 bytes, and `sha256_hash` prints it in hexadecimal. */
module Crypto {
  import opened CStrings

  type Byte = b: int | 0 <= b < 256

  type Hash32 = s: seq<Byte> | |s| == 32 witness seq(32, _ => 0)

  type Digest = string -> Hash32

  const HASH_HEX_SIZE: nat := 65

  /** Two different texts with one digest. */
  predicate Collides(sha: Digest, a: string, b: string) { a != b && sha(a) == sha(b) }

  function HexDigit(d: nat): (c: char)
    requires d < 16
    ensures '0' <= c <= '9' || 'a' <= c <= 'f'
  {
    if d < 10 then ('0' as int + d) as char else ('a' as int + d - 10) as char
  }

  /** `%02x` of each byte in turn. */
  function Hex(bytes: seq<Byte>): (r: string)
    ensures |r| == 2 * |bytes|
    ensures forall c | c in r :: '0' <= c <= '9' || 'a' <= c <= 'f'
  {
    if bytes == [] then [] else [HexDigit(bytes[0] / 16), HexDigit(bytes[0] % 16)] + Hex(bytes[1..])
  }

  function HexDigest(sha: Digest, input: string): (r: string)
    ensures |r| == 64 && forall c | c in r :: '0' <= c <= '9' || 'a' <= c <= 'f'
  {
    Hex(sha(input))
  }

  function HexValue(c: char): Option<nat>
  {
    if '0' <= c <= '9' then Some(c as int - '0' as int)
    else if 'a' <= c <= 'f' then Some(c as int - 'a' as int + 10)
    else if 'A' <= c <= 'F' then Some(c as int - 'A' as int + 10)
    else None
  }

  /** Byte i is what the two digits at its place stand for, the high one first. */
  lemma {:induction false} HexDecodes(bytes: seq<Byte>, i: nat)
    requires i < |bytes|
    ensures HexValue(Hex(bytes)[2 * i]).Some? && HexValue(Hex(bytes)[2 * i + 1]).Some?
    ensures bytes[i] == 16 * HexValue(Hex(bytes)[2 * i]).value + HexValue(Hex(bytes)[2 * i + 1]).value
  {
    if i > 0 {
      assert Hex(bytes)[2..] == Hex(bytes[1..]);
      HexDecodes(bytes[1..], i - 1);
    }
  }

  lemma {:induction false} HexInjective(a: seq<Byte>, b: seq<Byte>)
    requires Hex(a) == Hex(b)
    ensures a == b
  {
    assert |a| == |b|;
    if a != [] {
      assert HexDigit(a[0] / 16) == Hex(a)[0] == Hex(b)[0] == HexDigit(b[0] / 16);
      assert HexDigit(a[0] % 16) == Hex(a)[1] == Hex(b)[1] == HexDigit(b[0] % 16);
      assert Hex(a)[2..] == Hex(a[1..]) && Hex(b)[2..] == Hex(b[1..]);
      HexInjective(a[1..], b[1..]);
      assert a == [a[0]] + a[1..] && b == [b[0]] + b[1..];
    }
  }

  /** Equal printed digests of different texts are a collision. */
  lemma EqualHexCollides(sha: Digest, a: string, b: string)
    requires a != b && HexDigest(sha, a) == HexDigest(sha, b)
    ensures Collides(sha, a, b)
  {
    HexInjective(sha(a), sha(b));
  }

  lemma {:induction false} HexAppend(a: seq<Byte>, b: Byte)
    ensures Hex(a + [b]) == Hex(a) + [HexDigit(b / 16), HexDigit(b % 16)]
  {
    if a == [] {
      assert [b][1..] == [];
    } else {
      assert (a + [b])[1..] == a[1..] + [b];
      HexAppend(a[1..], b);
    }
  }

  /** `sha256_hash`: each `sprintf` writes two digits and a NUL over the next place. */
  method Sha256Hash(sha: Digest, input: string, output: array<char>)
    requires output.Length == HASH_HEX_SIZE
    modifies output
    ensures Held(output) == HexDigest(sha, input)
  {
    var hash := sha(input);
    var i := 0;
    while i < |hash| && i < 32
      invariant 0 <= i <= 32
      invariant output[..2 * i] == Hex(hash[..i])
    {
      output[2 * i] := HexDigit(hash[i] / 16);
      output[2 * i + 1] := HexDigit(hash[i] % 16);
      output[2 * i + 2] := NUL;
      HexAppend(hash[..i], hash[i]);
      assert hash[..i + 1] == hash[..i] + [hash[i]];
      i := i + 1;
    }
    output[64] := NUL;
    assert hash[..32] == hash;
    assert output[..][..64] == output[..64];
    CStrIs(output[..], HexDigest(sha, input));
  }
}
