/**
 The primitives every other component is built from: byte strings, JSON values, SHA3-256,
 canonical JSON and signature checking. The cryptographic functions are values of type `Suite`
 about which nothing is known beyond their types; canonical JSON additionally obeys `JcsLaws`.
 */
module Crypto {
  import opened Prelude

  type Byte = x: int | 0 <= x < 256
  type Bytes = seq<Byte>
  type Digest = b: Bytes | |b| == 32 witness seq(32, _ => 0)

  /** A JSON value. A number is represented by its canonical literal, so that equal numbers are equal values. */
  datatype Json =
    | JNull
    | JBool(b: bool)
    | JNum(literal: string)
    | JStr(s: string)
    | JArr(items: seq<Json>)
    | JObj(members: map<string, Json>)

  /** The members of a JSON object. */
  type Dict = map<string, Json>

  datatype Suite = Suite(
    sha3: Bytes -> Digest,
    jcs: Json -> Bytes,
    verify: (Bytes, Bytes, Bytes) -> bool,  // registered key bytes, signature, signed data
    sign: (Bytes, Bytes) -> Bytes,          // private key, data
    publicKey: Bytes -> Bytes,              // private key to public key bytes
    base64: Bytes -> string,
    unbase64: string -> Option<Bytes>
  )

  /**
   What RFC 8785 canonical JSON guarantees: different values have different encodings, and
   an object's encoding spells out every string member in full, between quotes.
   */
  ghost predicate JcsLaws(cs: Suite) {
    && (forall a, b :: cs.jcs(a) == cs.jcs(b) ==> a == b)
    && (forall m: map<string, Json>, k: string {:trigger cs.jcs(JObj(m)), m[k]} ::
          k in m && m[k].JStr? ==> |cs.jcs(JObj(m))| > |m[k].s|)
  }

  function HashPayload(cs: Suite, data: Json): Digest {
    cs.sha3(cs.jcs(data))
  }

  // ---- Collisions ----

  /** Two different members of a finite set of byte strings have the same digest. */
  predicate HasCollision(cs: Suite, hashed: set<Bytes>) {
    exists x, y {:trigger cs.sha3(x), cs.sha3(y)} :: x in hashed && y in hashed && x != y && cs.sha3(x) == cs.sha3(y)
  }

  lemma Injective(cs: Suite, hashed: set<Bytes>, x: Bytes, y: Bytes)
    requires !HasCollision(cs, hashed)
    requires x in hashed && y in hashed && cs.sha3(x) == cs.sha3(y)
    ensures x == y
  {
  }

  lemma CollisionMonotone(cs: Suite, small: set<Bytes>, large: set<Bytes>)
    requires small <= large && HasCollision(cs, small)
    ensures HasCollision(cs, large)
  {
    var x, y :| x in small && y in small && x != y && cs.sha3(x) == cs.sha3(y);
    assert x in large && y in large;
  }

  // ---- Hexadecimal ----

  const HEX_DIGITS := "0123456789abcdef"

  function Hex(b: Bytes): (s: string)
    ensures |s| == 2 * |b|
  {
    if b == [] then "" else [HEX_DIGITS[b[0] / 16], HEX_DIGITS[b[0] % 16]] + Hex(b[1..])
  }

  function HexValue(c: char): Option<int> {
    if '0' <= c <= '9' then Some(c as int - '0' as int)
    else if 'a' <= c <= 'f' then Some(c as int - 'a' as int + 10)
    else if 'A' <= c <= 'F' then Some(c as int - 'A' as int + 10)
    else None
  }

  predicate AsciiSpace(c: char) {
    c == ' ' || '\t' <= c <= '\r'
  }

  /** `bytes.fromhex`: upper or lower case, white space allowed between bytes. */
  function FromHex(s: string): Option<Bytes> {
    if s == "" then Some([])
    else if AsciiSpace(s[0]) then FromHex(s[1..])
    else if |s| == 1 then None
    else match (HexValue(s[0]), HexValue(s[1]), FromHex(s[2..]))
      case (Some(hi), Some(lo), Some(rest)) =>
        var first: Byte := 16 * hi + lo;
        Some([first] + rest)
      case _ => None
  }

  lemma HexDigitValue(n: int)
    requires 0 <= n < 16
    ensures HexValue(HEX_DIGITS[n]) == Some(n) && !AsciiSpace(HEX_DIGITS[n])
  {
    assert HEX_DIGITS[0] == '0' && HEX_DIGITS[1] == '1' && HEX_DIGITS[2] == '2' && HEX_DIGITS[3] == '3';
  }

  lemma {:induction false} HexRoundTrip(b: Bytes)
    ensures FromHex(Hex(b)) == Some(b)
  {
    if b != [] {
      HexDigitValue(b[0] / 16);
      HexDigitValue(b[0] % 16);
      HexRoundTrip(b[1..]);
      assert Hex(b)[2..] == Hex(b[1..]);
      assert [b[0]] + b[1..] == b;
    }
  }

  /** Byte `i` is written as two lower-case digits, the high one first. */
  lemma {:induction false} HexDigits(b: Bytes, i: nat)
    requires i < |b|
    ensures Hex(b)[2 * i] == "0123456789abcdef"[b[i] / 16] && Hex(b)[2 * i + 1] == "0123456789abcdef"[b[i] % 16]
  {
    if i > 0 {
      HexDigits(b[1..], i - 1);
      assert Hex(b)[2 * i] == Hex(b)[2..][2 * (i - 1)] && Hex(b)[2 * i + 1] == Hex(b)[2..][2 * (i - 1) + 1];
    }
  }

  predicate IsSpace(text: string) {
    forall i :: 0 <= i < |text| ==> text[i] in {' ', '\t', '\n', '\U{0B}', '\U{0C}', '\r'}
  }

  predicate IsDigitOf(c: char, v: int) {
    0 <= v < 16 && (c == "0123456789abcdef"[v] || c == "0123456789ABCDEF"[v])
  }

  /** The text spells the bytes in pairs of digits of either case, with nothing but white space before, between and
      after the pairs. */
  ghost predicate SpellsBytes(s: string, b: Bytes)
    decreases |b|
  {
    if b == [] then IsSpace(s)
    else exists pad, hi, lo, rest ::
      && s == pad + [hi, lo] + rest && IsSpace(pad) && IsDigitOf(hi, b[0] / 16) && IsDigitOf(lo, b[0] % 16)
      && SpellsBytes(rest, b[1..])
  }

  lemma HexValueIs(c: char, v: int)
    ensures HexValue(c) == Some(v) <==> IsDigitOf(c, v)
    ensures HexValue(c).Some? ==> !AsciiSpace(c)
  {
    if 0 <= v < 16 {
      assert "0123456789abcdef"[v] == if v < 10 then '0' + v as char else 'a' + (v - 10) as char;
      assert "0123456789ABCDEF"[v] == if v < 10 then '0' + v as char else 'A' + (v - 10) as char;
    }
  }

  lemma {:induction false} SpaceSkipped(pad: string, rest: string)
    requires IsSpace(pad)
    ensures FromHex(pad + rest) == FromHex(rest)
  {
    if pad == "" {
      assert pad + rest == rest;
    } else {
      SpaceSkipped(pad[1..], rest);
      assert (pad + rest)[1..] == pad[1..] + rest;
    }
  }

  lemma PairRead(hi: char, lo: char, rest: string, first: Byte)
    requires IsDigitOf(hi, first / 16) && IsDigitOf(lo, first % 16)
    ensures FromHex([hi, lo] + rest)
              == match FromHex(rest) case None => None case Some(b) => Some([first] + b)
  {
    HexValueIs(hi, first / 16);
    HexValueIs(lo, first % 16);
    assert ([hi, lo] + rest)[2..] == rest;
  }

  lemma {:induction false} SpelledIsRead(s: string, b: Bytes)
    requires SpellsBytes(s, b)
    ensures FromHex(s) == Some(b)
    decreases |b|
  {
    if b == [] {
      SpaceSkipped(s, "");
      assert s + "" == s;
    } else {
      var pad, hi, lo, rest :|
        && s == pad + [hi, lo] + rest && IsSpace(pad) && IsDigitOf(hi, b[0] / 16) && IsDigitOf(lo, b[0] % 16)
        && SpellsBytes(rest, b[1..]);
      SpelledIsRead(rest, b[1..]);
      PaddedPairRead(s, pad, hi, lo, rest, b);
    }
  }

  lemma {:induction false} PaddedPairRead(s: string, pad: string, hi: char, lo: char, rest: string, b: Bytes)
    requires b != [] && s == pad + [hi, lo] + rest && IsSpace(pad) && FromHex(rest) == Some(b[1..])
    requires IsDigitOf(hi, b[0] / 16) && IsDigitOf(lo, b[0] % 16)
    ensures FromHex(s) == Some(b)
  {
    var pair := [hi, lo] + rest;
    assert s == pad + pair;
    PairRead(hi, lo, rest, b[0]);
    SpaceSkipped(pad, pair);
    assert [b[0]] + b[1..] == b;
  }

  lemma {:induction false} MoreSpace(c: char, s: string, b: Bytes)
    requires AsciiSpace(c) && SpellsBytes(s, b)
    ensures SpellsBytes([c] + s, b)
  {
    if b != [] {
      var pad, hi, lo, rest :|
        && s == pad + [hi, lo] + rest && IsSpace(pad) && IsDigitOf(hi, b[0] / 16) && IsDigitOf(lo, b[0] % 16)
        && SpellsBytes(rest, b[1..]);
      assert [c] + s == ([c] + pad) + [hi, lo] + rest && IsSpace([c] + pad);
    }
  }

  lemma {:induction false} ReadIsSpelled(s: string)
    requires FromHex(s).Some?
    ensures SpellsBytes(s, FromHex(s).value)
    decreases |s|
  {
    if s != "" && AsciiSpace(s[0]) {
      ReadIsSpelled(s[1..]);
      MoreSpace(s[0], s[1..], FromHex(s).value);
      assert [s[0]] + s[1..] == s;
    } else if s != "" {
      var b, hi, lo, rest := FromHex(s).value, s[0], s[1], s[2..];
      ReadIsSpelled(rest);
      HexValueIs(hi, HexValue(hi).value);
      HexValueIs(lo, HexValue(lo).value);
      assert b[0] / 16 == HexValue(hi).value && b[0] % 16 == HexValue(lo).value && b[1..] == FromHex(rest).value;
      assert s == "" + [hi, lo] + rest && IsSpace("");
    }
  }

  /** `bytes.fromhex` reads exactly the texts that spell bytes. */
  lemma FromHexExactly(s: string, b: Bytes)
    ensures FromHex(s) == Some(b) <==> SpellsBytes(s, b)
  {
    if FromHex(s) == Some(b) { ReadIsSpelled(s); }
    if SpellsBytes(s, b) { SpelledIsRead(s, b); }
  }

  lemma HexInjective(a: Bytes, b: Bytes)
    requires Hex(a) == Hex(b)
    ensures a == b
  {
    HexRoundTrip(a);
    HexRoundTrip(b);
  }
}
