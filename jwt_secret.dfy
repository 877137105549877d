/**
 * The process-wide signing key for admin tokens (lib/jwt-secret.ts).
 *
 * The configured `NEXT_PUBLIC_JWT_SECRET` is used unless it is missing, empty
 * or the shipped placeholder; then 32 random bytes, written as hexadecimal,
 * take its place. The first answer is cached for the life of the process.
 * The environment value and the random bytes are parameters.
 */
module JwtSecret {
  import opened Wrappers
  import opened JsStrings

  /** The example value shipped in the sample environment file. */
  const Placeholder: string := "change-this-to-a-random-secret-key-at-least-32-characters-long"
  /** `randomBytes(32)` */
  const GeneratedBytes: nat := 32

  /** A byte, as `Uint8Array` holds it. */
  type Byte = b: int | 0 <= b < 256

  predicate IsHexDigit(c: char) {
    '0' <= c <= '9' || 'a' <= c <= 'f'
  }

  /** The lower-case hexadecimal digit for `0 <= d < 16`. */
  function HexDigit(d: nat): (c: char)
    requires d < 16
    ensures IsHexDigit(c)
  {
    if d < 10 then ('0' as int + d) as char else ('a' as int + d - 10) as char
  }

  /** The value of a hexadecimal digit; the inverse of `HexDigit`. */
  function HexValue(c: char): (v: nat)
    requires IsHexDigit(c)
    ensures v < 16 && HexDigit(v) == c
  {
    if '0' <= c <= '9' then c as int - '0' as int else c as int - 'a' as int + 10
  }

  /** `Buffer.toString('hex')`: two lower-case digits per byte, high nibble first. */
  function Hex(bytes: seq<Byte>): (s: string)
    ensures |s| == 2 * |bytes|
    ensures forall i :: 0 <= i < |s| ==> IsHexDigit(s[i])
  {
    if bytes == [] then ""
    else [HexDigit(bytes[0] / 16), HexDigit(bytes[0] % 16)] + Hex(bytes[1..])
  }

  /** Reads a hexadecimal string back into bytes. */
  function Unhex(s: string): seq<Byte>
    requires |s| % 2 == 0
    requires forall i :: 0 <= i < |s| ==> IsHexDigit(s[i])
    decreases |s|
  {
    if s == [] then []
    else [HexValue(s[0]) * 16 + HexValue(s[1])] + Unhex(s[2..])
  }

  /** The hexadecimal form loses nothing: it reads back as the bytes it was written from. */
  lemma {:induction false} UnhexHex(bytes: seq<Byte>)
    ensures Unhex(Hex(bytes)) == bytes
    decreases |bytes|
  {
    if bytes != [] {
      var b := bytes[0];
      var s := Hex(bytes);
      assert s[0] == HexDigit(b / 16) && s[1] == HexDigit(b % 16);
      assert HexValue(s[0]) == b / 16 && HexValue(s[1]) == b % 16;
      assert s[2..] == Hex(bytes[1..]);
      UnhexHex(bytes[1..]);
    }
  }

  /** `TextEncoder.encode` of one character (UTF-8): one byte for ASCII, otherwise a lead byte
      of at least 0xC0 followed by continuation bytes in 0x80..0xBF. */
  function Utf8Char(c: char): (b: seq<Byte>)
    ensures 1 <= |b| <= 4
    ensures (c as int < 0x80) <==> |b| == 1
    ensures c as int < 0x80 ==> b[0] == c as int
    ensures |b| > 1 ==> b[0] >= 0xC0 && forall i :: 1 <= i < |b| ==> 0x80 <= b[i] < 0xC0
  {
    var n := c as int;
    if n < 0x80 then [n]
    else if n < 0x800 then [0xC0 + n / 64, 0x80 + n % 64]
    else if n < 0x10000 then [0xE0 + n / 4096, 0x80 + n / 64 % 64, 0x80 + n % 64]
    else [0xF0 + n / 262144, 0x80 + n / 4096 % 64, 0x80 + n / 64 % 64, 0x80 + n % 64]
  }

  /** `new TextEncoder().encode(s)` */
  function Utf8(s: string): (b: seq<Byte>)
    ensures |b| >= |s|
  {
    if s == [] then [] else Utf8Char(s[0]) + Utf8(s[1..])
  }

  /** Text made only of ASCII characters encodes one byte per character, unchanged. */
  lemma {:induction false} Utf8OfAscii(s: string)
    requires forall i :: 0 <= i < |s| ==> s[i] as int < 0x80
    ensures |Utf8(s)| == |s|
    ensures forall i :: 0 <= i < |s| ==> Utf8(s)[i] == s[i] as int
    decreases |s|
  {
    if s != [] {
      Utf8OfAscii(s[1..]);
      assert Utf8(s) == Utf8Char(s[0]) + Utf8(s[1..]);
      forall i | 1 <= i < |s| ensures Utf8(s)[i] == s[i] as int {
        assert Utf8(s)[i] == Utf8(s[1..])[i - 1];
      }
    }
  }

  /** Whether the configured value is used as it stands. */
  predicate UsesConfigured(env: Option<string>) {
    Truthy(env) && env.value != Placeholder
  }

  /** The text of the key: the configured value, or the hexadecimal of the random bytes. */
  function SecretText(env: Option<string>, random: seq<Byte>): (t: string)
    requires |random| == GeneratedBytes
    ensures t != "" && t != Placeholder
    ensures UsesConfigured(env) ==> t == env.value
    ensures !UsesConfigured(env) ==>
              && |t| == 2 * GeneratedBytes
              && (forall i :: 0 <= i < |t| ==> IsHexDigit(t[i]))
              && Unhex(t) == random
  {
    if UsesConfigured(env) then env.value
    else
      UnhexHex(random);
      Hex(random)
  }

  /** A generated key is 64 bytes long: each hexadecimal digit encodes to one byte. */
  lemma GeneratedKeyLength(env: Option<string>, random: seq<Byte>)
    requires |random| == GeneratedBytes
    requires !UsesConfigured(env)
    ensures |Utf8(SecretText(env, random))| == 2 * GeneratedBytes
  {
    var t := SecretText(env, random);
    Utf8OfAscii(t);
  }

  /** The module-level cache `cachedSecret`. */
  class SecretCache {
    var cached: Option<seq<Byte>>

    constructor ()
      ensures cached == None
    {
      cached := None;
    }

    /** `getJWTSecret`: the cached key if there is one, otherwise the key chosen now, which is cached. */
    method GetJWTSecret(env: Option<string>, random: seq<Byte>) returns (secret: seq<Byte>)
      requires |random| == GeneratedBytes
      modifies this
      ensures old(cached).Some? ==> secret == old(cached).value && cached == old(cached)
      ensures old(cached).None? ==> secret == Utf8(SecretText(env, random)) && cached == Some(secret)
    {
      if cached.Some? {
        return cached.value;
      }
      if !Truthy(env) || env.value == Placeholder {
        var generated := Hex(random);
        secret := Utf8(generated);
        cached := Some(secret);
        return;
      }
      secret := Utf8(env.value);
      cached := Some(secret);
    }
  }
}
