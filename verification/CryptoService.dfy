/** backend/pkg/crypto/aes.go: the key, the framing nonce ++ sealed text, and its base64 form. AES-GCM
    is an abstract pair of functions; a Go string is the sequence of its bytes, one char a byte where
    the text is hex or base64. */
module CryptoServices {
  import opened Prelude
  import opened Base64

  const NONCE_SIZE: nat := 12

  datatype CryptoError = ErrKeyLength | ErrHex | ErrKeySize | ErrRandom | ErrBase64 | ErrTooShort | ErrOpen

  datatype CryptoService = CryptoService(key: seq<byte>)

  /** Sealing and opening under a key and a nonce. */
  datatype Aead = Aead(seal: (seq<byte>, seq<byte>, seq<byte>) -> seq<byte>,
                       open: (seq<byte>, seq<byte>, seq<byte>) -> Option<seq<byte>>)

  /** What was sealed opens again. */
  ghost predicate Correct(aead: Aead) {
    forall key, nonce, plain :: aead.open(key, nonce, aead.seal(key, nonce, plain)) == Some(plain)
  }

  /** Nothing else opens: GCM recomputes the tag before it opens a text. */
  ghost predicate Authentic(aead: Aead) {
    forall key, nonce, sealed ::
      aead.open(key, nonce, sealed).Some? ==> sealed == aead.seal(key, nonce, aead.open(key, nonce, sealed).value)
  }

  // ---- the key --------------------------------------------------------------------------------------

  type nibble = x: int | 0 <= x < 16

  function FromHexChar(c: char): Option<nibble> {
    if '0' <= c <= '9' then Some(c as int - '0' as int)
    else if 'a' <= c <= 'f' then Some(c as int - 'a' as int + 10)
    else if 'A' <= c <= 'F' then Some(c as int - 'A' as int + 10)
    else None
  }

  function ToHexChar(x: nibble): char {
    if x < 10 then '0' + x as char else 'a' + (x - 10) as char
  }

  function Lower(c: char): char {
    if 'A' <= c <= 'F' then 'a' + (c - 'A') else c
  }

  predicate IsHex(c: char) {
    FromHexChar(c).Some?
  }

  /** hex.DecodeString. */
  function HexDecode(s: string): Option<seq<byte>> {
    if s == [] then Some([])
    else if |s| == 1 || !IsHex(s[0]) || !IsHex(s[1]) then None
    else
      var rest := HexDecode(s[2..]);
      if rest.None? then None
      else Some([FromHexChar(s[0]).value * 16 + FromHexChar(s[1]).value] + rest.value)
  }

  function HexEncode(data: seq<byte>): string {
    if data == [] then ""
    else [ToHexChar(data[0] / 16), ToHexChar(data[0] % 16)] + HexEncode(data[1..])
  }

  function LowerAll(s: string): (l: string)
    ensures |l| == |s| && forall i :: 0 <= i < |s| ==> l[i] == Lower(s[i])
  {
    if s == [] then [] else [Lower(s[0])] + LowerAll(s[1..])
  }

  function NewCryptoService(key: string): Result<CryptoService, CryptoError> {
    if |key| != 64 then Err(ErrKeyLength)
    else
      var bytes := HexDecode(key);
      if bytes.None? then Err(ErrHex) else Ok(CryptoService(bytes.value))
  }

  lemma HexCharsAreRead(c: char, x: nibble)
    ensures IsHex(c) ==> ToHexChar(FromHexChar(c).value) == Lower(c)
    ensures FromHexChar(ToHexChar(x)) == Some(x)
  {
  }

  /** The digits, in either case. */
  lemma HexDigitIff(c: char, x: nibble)
    ensures FromHexChar(c) == Some(x) <==> c == "0123456789abcdef"[x] || c == "0123456789ABCDEF"[x]
  {
    if x < 8 {
    } else {
    }
  }

  /** Each byte is two digits, the higher one first. */
  lemma {:induction false} DecodedByteIs(s: string, i: nat)
    requires HexDecode(s).Some? && i < |HexDecode(s).value|
    ensures 2 * i + 1 < |s| && IsHex(s[2 * i]) && IsHex(s[2 * i + 1])
    ensures HexDecode(s).value[i] == FromHexChar(s[2 * i]).value * 16 + FromHexChar(s[2 * i + 1]).value
    decreases i
  {
    hide FromHexChar;
    if i > 0 {
      DecodedByteIs(s[2..], i - 1);
    }
  }

  lemma {:induction false} HexDecodeIff(s: string)
    ensures HexDecode(s).Some? <==> |s| % 2 == 0 && forall i :: 0 <= i < |s| ==> IsHex(s[i])
    ensures HexDecode(s).Some? ==> 2 * |HexDecode(s).value| == |s| && HexEncode(HexDecode(s).value) == LowerAll(s)
    decreases |s|
  {
    hide FromHexChar, ToHexChar, Lower;
    if |s| >= 2 {
      HexDecodeIff(s[2..]);
      assert s == [s[0], s[1]] + s[2..];
      if IsHex(s[0]) && IsHex(s[1]) {
        var x: int, y: int := FromHexChar(s[0]).value, FromHexChar(s[1]).value;
        HexCharsAreRead(s[0], x);
        HexCharsAreRead(s[1], y);
        assert (x * 16 + y) / 16 == x && (x * 16 + y) % 16 == y;
        assert s[2..] == s[1..][1..];
      }
    }
  }

  /** A service is made from exactly the texts of 64 hex digits, its key is 32 bytes, and the key is
      the text read in base sixteen: written out again it is the text in lower case. */
  lemma ServiceIsMadeIff(key: string)
    ensures NewCryptoService(key).Ok? <==> |key| == 64 && forall i :: 0 <= i < 64 ==> IsHex(key[i])
    ensures NewCryptoService(key) == Err(ErrKeyLength) <==> |key| != 64
    ensures NewCryptoService(key) == Err(ErrHex) <==> |key| == 64 && exists i :: 0 <= i < 64 && !IsHex(key[i])
    ensures
      NewCryptoService(key).Ok? ==>
        var service := NewCryptoService(key).value;
        |service.key| == 32 && HexEncode(service.key) == LowerAll(key)
  {
    HexDecodeIff(key);
  }

  /** Two texts make the same service exactly when they differ in letter case only. */
  lemma KeysDifferByMoreThanCase(k1: string, k2: string)
    requires NewCryptoService(k1).Ok? && NewCryptoService(k2).Ok?
    ensures NewCryptoService(k1) == NewCryptoService(k2) <==> LowerAll(k1) == LowerAll(k2)
  {
    HexDecodeIff(k1);
    HexDecodeIff(k2);
    if LowerAll(k1) == LowerAll(k2) {
      HexEncodeIsInjective(HexDecode(k1).value, HexDecode(k2).value);
    }
  }

  lemma {:induction false} HexEncodeIsInjective(a: seq<byte>, b: seq<byte>)
    requires |a| == |b| && HexEncode(a) == HexEncode(b)
    ensures a == b
    decreases |a|
  {
    hide ToHexChar, FromHexChar;
    if a != [] {
      HexCharsAreRead('0', a[0] / 16);
      HexCharsAreRead('0', a[0] % 16);
      HexCharsAreRead('0', b[0] / 16);
      HexCharsAreRead('0', b[0] % 16);
      assert HexEncode(a)[0] == HexEncode(b)[0] && HexEncode(a)[1] == HexEncode(b)[1];
      assert HexEncode(a)[2..] == HexEncode(a[1..]) && HexEncode(b)[2..] == HexEncode(b[1..]);
      HexEncodeIsInjective(a[1..], b[1..]);
      assert a == [a[0]] + a[1..] && b == [b[0]] + b[1..];
    }
  }

  // ---- encrypting and decrypting ----------------------------------------------------------------------

  /** aes.NewCipher's condition on a key. */
  predicate IsAesKey(key: seq<byte>) {
    |key| == 16 || |key| == 24 || |key| == 32
  }

  function Frame(aead: Aead, service: CryptoService, nonce: seq<byte>, plain: seq<byte>): string {
    EncodeToString(nonce + aead.seal(service.key, nonce, plain))
  }

  /** io.ReadFull over a source that yields the bytes of random and then fails. */
  method ReadFull(random: seq<byte>, buffer: array<byte>) returns (ok: bool)
    modifies buffer
    ensures ok <==> |random| >= buffer.Length
    ensures ok ==> buffer[..] == random[..buffer.Length]
  {
    var n := 0;
    while n < buffer.Length && n < |random|
      invariant 0 <= n <= buffer.Length && n <= |random|
      invariant buffer[..n] == random[..n]
    {
      buffer[n] := random[n];
      n := n + 1;
    }
    ok := n == buffer.Length;
  }

  /** Encrypt: the nonce buffer is filled in place, and the sealed text is appended to it. */
  method Encrypt(aead: Aead, service: CryptoService, plain: seq<byte>, random: seq<byte>)
      returns (result: Result<string, CryptoError>)
    ensures result.Ok? <==> |service.key| in {16, 24, 32} && |random| >= 12
    ensures result.Ok? ==> result.value == Frame(aead, service, random[..12], plain)
    ensures result.Ok? ==> DecodeString(result.value) == Some(random[..12] + aead.seal(service.key, random[..12], plain))
    ensures result == Err(ErrKeySize) <==> |service.key| !in {16, 24, 32}
    ensures result == Err(ErrRandom) <==> |service.key| in {16, 24, 32} && |random| < 12
  {
    hide EncodeToString, DecodeString;
    if !IsAesKey(service.key) {
      return Err(ErrKeySize);
    }
    var nonce := new byte[NONCE_SIZE];
    var ok := ReadFull(random, nonce);
    if !ok {
      return Err(ErrRandom);
    }
    var ciphertext := nonce[..] + aead.seal(service.key, nonce[..], plain);
    RoundTrip(ciphertext);
    result := Ok(EncodeToString(ciphertext));
  }

  function Decrypt(aead: Aead, service: CryptoService, ciphertext64: string): Result<seq<byte>, CryptoError> {
    var data := DecodeString(ciphertext64);
    if data.None? then Err(ErrBase64)
    else if !IsAesKey(service.key) then Err(ErrKeySize)
    else if |data.value| < NONCE_SIZE then Err(ErrTooShort)
    else
      var plain := aead.open(service.key, data.value[..NONCE_SIZE], data.value[NONCE_SIZE..]);
      if plain.None? then Err(ErrOpen) else Ok(plain.value)
  }

  /** Each error of Decrypt: no base64, a key of the wrong size, too short for a nonce, or the cipher refuses what
      follows the nonce. */
  lemma DecryptErrors(aead: Aead, service: CryptoService, s: string)
    ensures
      var d, data := Decrypt(aead, service, s), DecodeString(s);
      && (d == Err(ErrBase64) <==> data.None?)
      && (data.Some? ==>
            && (d == Err(ErrKeySize) <==> |service.key| !in {16, 24, 32})
            && (d == Err(ErrTooShort) <==> |service.key| in {16, 24, 32} && |data.value| < 12)
            && (d == Err(ErrOpen) <==>
                  && |service.key| in {16, 24, 32} && |data.value| >= 12
                  && aead.open(service.key, data.value[..12], data.value[12..]).None?))
  {
    hide DecodeString;
  }

  /** A text carries a plain text under a nonce: read as base64 it is the nonce and then the sealed text. */
  predicate Carries(aead: Aead, service: CryptoService, s: string, nonce: seq<byte>, plain: seq<byte>) {
    |nonce| == NONCE_SIZE && DecodeString(s) == Some(nonce + aead.seal(service.key, nonce, plain))
  }

  lemma CarriedIsDecrypted(aead: Aead, service: CryptoService, s: string, nonce: seq<byte>, plain: seq<byte>)
    requires Correct(aead) && IsAesKey(service.key) && Carries(aead, service, s, nonce, plain)
    ensures Decrypt(aead, service, s) == Ok(plain)
  {
    hide DecodeString;
    var sealed := aead.seal(service.key, nonce, plain);
    assert (nonce + sealed)[..NONCE_SIZE] == nonce && (nonce + sealed)[NONCE_SIZE..] == sealed;
  }

  lemma DecryptedIsCarried(aead: Aead, service: CryptoService, s: string)
    requires Authentic(aead) && Decrypt(aead, service, s).Ok?
    ensures
      && DecodeString(s).Some? && |DecodeString(s).value| >= NONCE_SIZE
      && Carries(aead, service, s, DecodeString(s).value[..NONCE_SIZE], Decrypt(aead, service, s).value)
  {
    hide DecodeString;
    var data := DecodeString(s).value;
    assert data == data[..NONCE_SIZE] + data[NONCE_SIZE..];
  }

  /** What decrypts to a plain text is exactly, once the base64 is read, a nonce of twelve bytes followed
      by that text sealed under it. */
  lemma DecryptsIff(aead: Aead, service: CryptoService, s: string, plain: seq<byte>)
    requires Correct(aead) && Authentic(aead) && IsAesKey(service.key)
    ensures Decrypt(aead, service, s) == Ok(plain) <==> exists nonce :: Carries(aead, service, s, nonce, plain)
  {
    hide *;
    if Decrypt(aead, service, s) == Ok(plain) {
      DecryptedIsCarried(aead, service, s);
    }
    if nonce :| Carries(aead, service, s, nonce, plain) {
      CarriedIsDecrypted(aead, service, s, nonce, plain);
    }
  }

  /** Decrypting inverts encrypting, for every service, plain text and nonce. */
  lemma DecryptInvertsEncrypt(aead: Aead, service: CryptoService, nonce: seq<byte>, plain: seq<byte>)
    requires Correct(aead) && IsAesKey(service.key) && |nonce| == NONCE_SIZE
    ensures Decrypt(aead, service, Frame(aead, service, nonce, plain)) == Ok(plain)
  {
    hide EncodeToString, DecodeString;
    RoundTrip(nonce + aead.seal(service.key, nonce, plain));
    CarriedIsDecrypted(aead, service, Frame(aead, service, nonce, plain), nonce, plain);
  }

  /** A text that decrypts is the very one Encrypt would have made, with the nonce it carries, exactly
      when it is canonical base64: no line breaks and no stray bits under the padding. */
  lemma DecryptedIsEncryptedIff(aead: Aead, service: CryptoService, s: string)
    requires Authentic(aead) && Decrypt(aead, service, s).Ok?
    ensures
      var nonce := DecodeString(s).value[..NONCE_SIZE];
      Frame(aead, service, nonce, Decrypt(aead, service, s).value) == s <==> NoNewlines(s) && UnusedBitsAreZero(s)
  {
    DecryptedIsCarried(aead, service, s);
    CanonicalIff(s);
  }

  /** Data shorter than a nonce is always an error, whatever the cipher does; and so every text of
      fewer than sixteen characters is one. */
  lemma ShortDataIsAnError(aead: Aead, service: CryptoService, s: string)
    requires |s| < 16 || (DecodeString(s).Some? && |DecodeString(s).value| < NONCE_SIZE)
    ensures Decrypt(aead, service, s).Err?
  {
    if |s| < 16 && DecodeString(s).Some? {
      DecodedLength(s);
    }
  }

  /** Encryptions under different nonces, or of different texts, are different texts. */
  lemma FramesAreDistinct(aead: Aead, service: CryptoService, n1: seq<byte>, p1: seq<byte>, n2: seq<byte>, p2: seq<byte>)
    requires Correct(aead) && |n1| == |n2| == NONCE_SIZE
    ensures Frame(aead, service, n1, p1) == Frame(aead, service, n2, p2) <==> n1 == n2 && p1 == p2
  {
    hide EncodeToString, DecodeString;
    var c1, c2 := aead.seal(service.key, n1, p1), aead.seal(service.key, n2, p2);
    RoundTrip(n1 + c1);
    RoundTrip(n2 + c2);
    if Frame(aead, service, n1, p1) == Frame(aead, service, n2, p2) {
      assert n1 == (n1 + c1)[..NONCE_SIZE] && n2 == (n2 + c2)[..NONCE_SIZE];
      assert c1 == (n1 + c1)[NONCE_SIZE..] && c2 == (n2 + c2)[NONCE_SIZE..];
      assert aead.open(service.key, n1, c1) == Some(p1) && aead.open(service.key, n2, c2) == Some(p2);
    }
  }
}
