/**
 * The library primitives the envelope codec and the store rely on, given as
 * parameters: AES-256-GCM (NIST SP 800-38D) seal and open, base64 (section 4
 * of RFC 4648), hex, UTF-8, and JSON serialisation of a token record. The laws
 * the code depends on are collected in `Sound`; every property proved about
 * the codec or the store assumes `Sound` of the primitives it is given.
 */
module Primitives {
  import opened Wrappers
  import opened Tokens

  type byte = b: int | 0 <= b < 256
  type Bytes = seq<byte>

  const TAG_LENGTH: nat := 16

  /** What `cipher.final()` and `getAuthTag()` yield together. */
  datatype Sealed = Sealed(tag: Bytes, ciphertext: Bytes)

  datatype Primitives = Primitives(
    hexDecode: string -> Bytes,          // Buffer.from(s, 'hex')
    hexEncode: Bytes -> string,          // cipher output in 'hex'
    base64Encode: Bytes -> string,       // buf.toString('base64')
    base64Decode: string -> Bytes,       // Buffer.from(s, 'base64')
    utf8Encode: string -> Bytes,
    utf8Decode: Bytes -> string,
    seal: (Bytes, Bytes, Bytes) -> Sealed,             // key, iv, plaintext
    open: (Bytes, Bytes, Bytes, Bytes) -> Option<Bytes>, // key, iv, tag, ciphertext
    stringify: TokenRecord -> string,    // JSON.stringify
    parse: string -> Option<TokenRecord>) // JSON.parse; None when it throws

  /**
   * The laws assumed of the primitives: each decoder is a left inverse of its
   * encoder, the tag has 16 bytes, opening inverts sealing, and opening
   * succeeds only on exactly what sealing produced under that key and IV
   * (an idealised authenticated cipher).
   */
  ghost predicate Sound(P: Primitives) {
    && (forall b :: P.hexDecode(P.hexEncode(b)) == b)
    && (forall b :: P.base64Decode(P.base64Encode(b)) == b)
    && (forall b :: |b| > 0 ==> |P.base64Encode(b)| > 0)
    && (forall s :: P.utf8Decode(P.utf8Encode(s)) == s)
    && (forall r :: P.parse(P.stringify(r)) == Some(r))
    && (forall r :: |P.stringify(r)| > 0)
    && (forall k, iv, m :: |P.seal(k, iv, m).tag| == TAG_LENGTH)
    && (forall k, iv, m :: P.open(k, iv, P.seal(k, iv, m).tag, P.seal(k, iv, m).ciphertext) == Some(m))
    && (forall k, iv, t, c :: P.open(k, iv, t, c).Some? ==> P.seal(k, iv, P.open(k, iv, t, c).value) == Sealed(t, c))
  }

  // ---------------------------------------------------------------------------
  // A toy instance. It is not a cipher; it only shows that the laws in Sound
  // can all hold at once, so that nothing proved under Sound is vacuous.

  function CharOf(b: byte): char {
    b as char
  }

  function ByteOf(c: char): byte {
    if c as int < 256 then c as int else 0
  }

  function BytesToChars(b: Bytes): string {
    seq(|b|, i requires 0 <= i < |b| => CharOf(b[i]))
  }

  function CharsToBytes(s: string): Bytes {
    seq(|s|, i requires 0 <= i < |s| => ByteOf(s[i]))
  }

  function Utf8Enc(s: string): Bytes {
    if s == [] then []
    else
      var c := s[0] as int;
      [c / 65536, (c / 256) % 256, c % 256] + Utf8Enc(s[1..])
  }

  function CodePoint(n: int): char {
    if 0 <= n < 0xD800 || 0xE000 <= n < 0x11_0000 then n as char else ' '
  }

  function Utf8Dec(b: Bytes): string {
    if |b| < 3 then []
    else [CodePoint((b[0] as int) * 65536 + (b[1] as int) * 256 + b[2] as int)] + Utf8Dec(b[3..])
  }

  lemma Digits(c: int)
    requires 0 <= c < 0x11_0000
    ensures (c / 65536) * 65536 + ((c / 256) % 256) * 256 + c % 256 == c
  {
    var q := c / 256;
    assert c == q * 256 + c % 256;
    assert q == (q / 256) * 256 + q % 256;
    assert q / 256 == c / 65536;
  }

  lemma {:induction false} Utf8RoundTrip(s: string)
    ensures Utf8Dec(Utf8Enc(s)) == s
  {
    if s != [] {
      var c := s[0] as int;
      Digits(c);
      var e := Utf8Enc(s);
      assert e[3..] == Utf8Enc(s[1..]);
      Utf8RoundTrip(s[1..]);
    }
  }

  /** A self-delimiting string code: '+' before every character, '.' at the end. */
  function EncStr(s: string): string {
    if s == [] then "." else ['+', s[0]] + EncStr(s[1..])
  }

  function DecStr(t: string): Option<(string, string)> {
    if t == [] then None
    else if t[0] == '.' then Some(([], t[1..]))
    else if t[0] == '+' && |t| >= 2 then
      match DecStr(t[2..])
      case None => None
      case Some((s, rest)) => Some(([t[1]] + s, rest))
    else None
  }

  lemma {:induction false} DecEncStr(s: string, rest: string)
    ensures DecStr(EncStr(s) + rest) == Some((s, rest))
  {
    if s == [] {
      assert (EncStr(s) + rest)[1..] == rest;
    } else {
      var t := EncStr(s) + rest;
      assert t[0] == '+' && t[1] == s[0];
      assert t[2..] == EncStr(s[1..]) + rest;
      DecEncStr(s[1..], rest);
      assert [s[0]] + s[1..] == s;
    }
  }

  function EncNat(n: nat): string {
    if n == 0 then "." else "+" + EncNat(n - 1)
  }

  function DecNat(t: string): Option<(nat, string)> {
    if t == [] then None
    else if t[0] == '.' then Some((0, t[1..]))
    else if t[0] == '+' then
      match DecNat(t[1..])
      case None => None
      case Some((n, rest)) => Some((n + 1, rest))
    else None
  }

  lemma {:induction false} DecEncNat(n: nat, rest: string)
    ensures DecNat(EncNat(n) + rest) == Some((n, rest))
  {
    if n == 0 {
      assert (EncNat(n) + rest)[1..] == rest;
    } else {
      assert (EncNat(n) + rest)[1..] == EncNat(n - 1) + rest;
      DecEncNat(n - 1, rest);
    }
  }

  function EncInt(n: int): string {
    if n >= 0 then "p" + EncNat(n) else "n" + EncNat(-n - 1)
  }

  function DecInt(t: string): Option<(int, string)> {
    if t == [] then None
    else if t[0] == 'p' then
      match DecNat(t[1..])
      case None => None
      case Some((n, rest)) => Some((n, rest))
    else if t[0] == 'n' then
      match DecNat(t[1..])
      case None => None
      case Some((n, rest)) => var m := -(n as int) - 1; Some((m, rest))
    else None
  }

  /** A sign character followed by a magnitude decodes to the signed number. */
  lemma DecSigned(c: char, m: nat, rest: string)
    requires c == 'p' || c == 'n'
    ensures DecInt([c] + (EncNat(m) + rest)) == Some((if c == 'p' then m else -(m as int) - 1, rest))
  {
    var t := [c] + (EncNat(m) + rest);
    assert t[1..] == EncNat(m) + rest;
    DecEncNat(m, rest);
  }

  lemma DecEncInt(n: int, rest: string)
    ensures DecInt(EncInt(n) + rest) == Some((n, rest))
  {
    var m: nat := if n >= 0 then n else -n - 1;
    var c := if n >= 0 then 'p' else 'n';
    assert EncInt(n) + rest == [c] + (EncNat(m) + rest);
    DecSigned(c, m, rest);
  }

  function EncOptStr(o: Option<string>): string {
    match o
    case None => "N"
    case Some(s) => "S" + EncStr(s)
  }

  function DecOptStr(t: string): Option<(Option<string>, string)> {
    if t == [] then None
    else if t[0] == 'N' then Some((None, t[1..]))
    else if t[0] == 'S' then
      match DecStr(t[1..])
      case None => None
      case Some((s, rest)) => Some((Some(s), rest))
    else None
  }

  lemma DecEncOptStr(o: Option<string>, rest: string)
    ensures DecOptStr(EncOptStr(o) + rest) == Some((o, rest))
  {
    match o
    case None =>
      assert (EncOptStr(o) + rest)[1..] == rest;
    case Some(s) =>
      assert (EncOptStr(o) + rest)[1..] == EncStr(s) + rest;
      DecEncStr(s, rest);
  }

  function EncOptInt(o: Option<int>): string {
    match o
    case None => "N"
    case Some(n) => "S" + EncInt(n)
  }

  function DecOptInt(t: string): Option<(Option<int>, string)> {
    if t == [] then None
    else if t[0] == 'N' then Some((None, t[1..]))
    else if t[0] == 'S' then
      match DecInt(t[1..])
      case None => None
      case Some((n, rest)) => Some((Some(n), rest))
    else None
  }

  lemma DecEncOptInt(o: Option<int>, rest: string)
    ensures DecOptInt(EncOptInt(o) + rest) == Some((o, rest))
  {
    match o
    case None =>
      assert (EncOptInt(o) + rest)[1..] == rest;
    case Some(n) =>
      assert (EncOptInt(o) + rest)[1..] == EncInt(n) + rest;
      DecEncInt(n, rest);
  }

  function EncRecord(r: TokenRecord): string {
    EncStr(r.accessToken) + (EncOptStr(r.refreshToken) + (EncOptInt(r.expiresAt)
      + EncTail(r.scope, r.tokenType, r.createdAt)))
  }

  function EncTail(sc: Option<string>, ty: Option<string>, cr: string): string {
    EncOptStr(sc) + (EncOptStr(ty) + EncStr(cr))
  }

  /** Decodes scope, token type and creation time, which must end the text. */
  function DecTail(t: string): Option<(Option<string>, Option<string>, string)> {
    match DecOptStr(t)
    case None => None
    case Some((sc, t1)) =>
      match DecOptStr(t1)
      case None => None
      case Some((ty, t2)) =>
        match DecStr(t2)
        case None => None
        case Some((cr, t3)) => if t3 == [] then Some((sc, ty, cr)) else None
  }

  function DecRecord(t: string): Option<TokenRecord> {
    match DecStr(t)
    case None => None
    case Some((a, t1)) =>
      match DecOptStr(t1)
      case None => None
      case Some((rt, t2)) =>
        match DecOptInt(t2)
        case None => None
        case Some((ex, t3)) =>
          match DecTail(t3)
          case None => None
          case Some((sc, ty, cr)) => Some(TokenRecord(a, rt, ex, sc, ty, cr))
  }

  lemma DecEncTail(sc: Option<string>, ty: Option<string>, cr: string)
    ensures DecTail(EncTail(sc, ty, cr)) == Some((sc, ty, cr))
  {
    var e2 := EncStr(cr);
    var e1 := EncOptStr(ty) + e2;
    DecEncOptStr(sc, e1);
    DecEncOptStr(ty, e2);
    DecEncStr(cr, []);
    assert e2 + [] == e2;
  }

  lemma DecEncRecord(r: TokenRecord)
    ensures DecRecord(EncRecord(r)) == Some(r)
  {
    var e3 := EncTail(r.scope, r.tokenType, r.createdAt);
    var e2 := EncOptInt(r.expiresAt) + e3;
    var e1 := EncOptStr(r.refreshToken) + e2;
    DecEncStr(r.accessToken, e1);
    DecEncOptStr(r.refreshToken, e2);
    DecEncOptInt(r.expiresAt, e3);
    DecEncTail(r.scope, r.tokenType, r.createdAt);
  }

  const ZeroTag: Bytes := seq(TAG_LENGTH, _ => 0)

  /** The toy instance: identity "cipher" with a constant tag, character codes for text. */
  function Reference(): (P: Primitives)
    ensures Sound(P)
  {
    var P := Primitives(
      s => CharsToBytes(s),
      b => BytesToChars(b),
      b => BytesToChars(b),
      s => CharsToBytes(s),
      s => Utf8Enc(s),
      b => Utf8Dec(b),
      (k, iv, m) => Sealed(ZeroTag, m),
      (k, iv, t, c) => if t == ZeroTag then Some(c) else None,
      r => EncRecord(r),
      s => DecRecord(s));
    assert forall b :: P.hexDecode(P.hexEncode(b)) == b by {
      forall b: Bytes ensures CharsToBytes(BytesToChars(b)) == b {
        assert |CharsToBytes(BytesToChars(b))| == |b|;
      }
    }
    assert forall s :: P.utf8Decode(P.utf8Encode(s)) == s by {
      forall s: string ensures Utf8Dec(Utf8Enc(s)) == s {
        Utf8RoundTrip(s);
      }
    }
    assert forall r :: P.parse(P.stringify(r)) == Some(r) by {
      forall r: TokenRecord ensures DecRecord(EncRecord(r)) == Some(r) {
        DecEncRecord(r);
      }
    }
    P
  }
}
