/** Base64 with the standard alphabet and padding, section 4 of RFC 4648, as encoding/base64's
    StdEncoding does it: the decoder skips CR and LF and does not insist that the bits after the last
    byte are zero. */
module Base64 {
  import opened Prelude

  type byte = x: int | 0 <= x < 256

  type sextet = x: int | 0 <= x < 64

  const PAD: char := '='

  function Symbol(x: sextet): char {
    if x < 26 then 'A' + x as char
    else if x < 52 then 'a' + (x - 26) as char
    else if x < 62 then '0' + (x - 52) as char
    else if x == 62 then '+' else '/'
  }

  function ValueOf(c: char): Option<sextet> {
    if 'A' <= c <= 'Z' then Some(c as int - 'A' as int)
    else if 'a' <= c <= 'z' then Some(c as int - 'a' as int + 26)
    else if '0' <= c <= '9' then Some(c as int - '0' as int + 52)
    else if c == '+' then Some(62)
    else if c == '/' then Some(63)
    else None
  }

  predicate IsSymbol(c: char) {
    ValueOf(c).Some?
  }

  lemma SymbolsAreRead(x: sextet, c: char)
    ensures ValueOf(Symbol(x)) == Some(x) && Symbol(x) != PAD && Symbol(x) != '\r' && Symbol(x) != '\n'
    ensures IsSymbol(c) ==> Symbol(ValueOf(c).value) == c
    ensures !IsSymbol(PAD)
  {
  }

  function Quad(a: byte, b: byte, c: byte): string {
    [Symbol(a / 4), Symbol((a % 4) * 16 + b / 16), Symbol((b % 16) * 4 + c / 64), Symbol(c % 64)]
  }

  function EncodeToString(data: seq<byte>): string {
    if data == [] then ""
    else if |data| == 1 then Quad(data[0], 0, 0)[..2] + [PAD, PAD]
    else if |data| == 2 then Quad(data[0], data[1], 0)[..3] + [PAD]
    else Quad(data[0], data[1], data[2]) + EncodeToString(data[3..])
  }

  const UPPER := "ABCDEFGHIJKLMNOPQRSTUVWXYZ"
  const LOWER := "abcdefghijklmnopqrstuvwxyz"
  const DIGITS := "0123456789"

  /** The alphabet of RFC 4648, section 4, table 1. */
  const ALPHABET := UPPER + LOWER + DIGITS + "+/"

  lemma UpperIs(i: nat)
    requires i < 26
    ensures UPPER[i] as int == 'A' as int + i
  {
    if i < 13 {
    } else {
    }
  }

  lemma LowerIs(i: nat)
    requires i < 26
    ensures LOWER[i] as int == 'a' as int + i
  {
    if i < 13 {
    } else {
    }
  }

  lemma SymbolIs(x: sextet)
    ensures |ALPHABET| == 64 && Symbol(x) == ALPHABET[x]
  {
    if x < 26 {
      UpperIs(x);
      assert ALPHABET[x] == UPPER[x];
    } else if x < 52 {
      LowerIs(x - 26);
      assert ALPHABET[x] == LOWER[x - 26];
    } else if x < 62 {
      assert ALPHABET[x] == DIGITS[x - 52];
    } else {
      assert ALPHABET[x] == "+/"[x - 62];
    }
  }

  function ByteAt(data: seq<byte>, i: nat): byte {
    if i < |data| then data[i] else 0
  }

  /** Three bytes as one number of 24 bits. */
  function Bits(a: byte, b: byte, c: byte): nat {
    a * 65536 + b * 256 + c
  }

  lemma SextetsOf(a: byte, b: byte, c: byte)
    ensures
      var n := Bits(a, b, c);
      && n / 262144 == a / 4 && n / 4096 % 64 == (a % 4) * 16 + b / 16
      && n / 64 % 64 == (b % 16) * 4 + c / 64 && n % 64 == c % 64
  {
    var n, w, x, y, z := Bits(a, b, c), a / 4, (a % 4) * 16 + b / 16, (b % 16) * 4 + c / 64, c % 64;
    BitsAre(a, w, a % 4, b, b / 16, b % 16, c, c / 64, z);
    hide Bits;
    By64(n, w * 4096 + x * 64 + y, z);
    By4096(n, w * 64 + x, y * 64 + z);
    By262144(n, w, x * 4096 + y * 64 + z);
    By64(w * 64 + x, w, x);
    By64(w * 4096 + x * 64 + y, w * 64 + x, y);
  }

  lemma BitsAre(a: byte, a1: int, a2: int, b: byte, b1: int, b2: int, c: byte, c1: int, c2: int)
    requires a == 4 * a1 + a2 && b == 16 * b1 + b2 && c == 64 * c1 + c2
    ensures Bits(a, b, c) == a1 * 262144 + (a2 * 16 + b1) * 4096 + (b2 * 4 + c1) * 64 + c2
  {
  }

  lemma By64(n: int, q: int, r: int)
    requires n == q * 64 + r && 0 <= r < 64
    ensures n / 64 == q && n % 64 == r
  {
  }

  lemma By4096(n: int, q: int, r: int)
    requires n == q * 4096 + r && 0 <= r < 4096
    ensures n / 4096 == q
  {
  }

  lemma By262144(n: int, q: int, r: int)
    requires n == q * 262144 + r && 0 <= r < 262144
    ensures n / 262144 == q
  {
  }

  lemma QuadIs(a: byte, b: byte, c: byte)
    ensures
      var n := Bits(a, b, c);
      && |ALPHABET| == 64 && n / 262144 < 64
      && Quad(a, b, c) == [ALPHABET[n / 262144], ALPHABET[n / 4096 % 64], ALPHABET[n / 64 % 64], ALPHABET[n % 64]]
  {
    hide ALPHABET, Symbol, Bits;
    SextetsOf(a, b, c);
    SymbolIs(a / 4);
    SymbolIs((a % 4) * 16 + b / 16);
    SymbolIs((b % 16) * 4 + c / 64);
    SymbolIs(c % 64);
  }

  /** The four characters for the bytes from 3 * g on: the symbols of six bits each, the highest first, and '='
      for a symbol that would hold no bit of the data. */
  lemma {:induction false} EncodingIs(data: seq<byte>, g: nat)
    requires 3 * g < |data|
    ensures
      var e, n := EncodeToString(data), Bits(ByteAt(data, 3 * g), ByteAt(data, 3 * g + 1), ByteAt(data, 3 * g + 2));
      && |e| >= 4 * g + 4 && |ALPHABET| == 64 && n / 262144 < 64
      && e[4 * g] == ALPHABET[n / 262144]
      && e[4 * g + 1] == ALPHABET[n / 4096 % 64]
      && e[4 * g + 2] == (if 3 * g + 1 < |data| then ALPHABET[n / 64 % 64] else '=')
      && e[4 * g + 3] == (if 3 * g + 2 < |data| then ALPHABET[n % 64] else '=')
    decreases g
  {
    hide ALPHABET, Quad, Bits;
    if g > 0 {
      var rest := data[3..];
      EncodingIs(rest, g - 1);
      assert 3 * (g - 1) == 3 * g - 3 && 4 * (g - 1) == 4 * g - 4;
      assert EncodeToString(data) == Quad(data[0], data[1], data[2]) + EncodeToString(rest);
      assert |Quad(data[0], data[1], data[2])| == 4 by {
        QuadIs(data[0], data[1], data[2]);
      }
      hide EncodeToString;
    } else {
      QuadIs(ByteAt(data, 0), ByteAt(data, 1), ByteAt(data, 2));
    }
  }

  function First(v: sextet, w: sextet): byte {
    v * 4 + w / 16
  }

  function Second(v: sextet, w: sextet): byte {
    (v % 16) * 16 + w / 4
  }

  function Third(v: sextet, w: sextet): byte {
    (v % 4) * 64 + w
  }

  /** The bytes of one final group, padded or not. */
  function DecodeGroup(s: string): Option<seq<byte>>
    requires |s| == 4
  {
    if !IsSymbol(s[0]) || !IsSymbol(s[1]) then None
    else
      var v, w := ValueOf(s[0]).value, ValueOf(s[1]).value;
      if s[2] == PAD && s[3] == PAD then Some([First(v, w)])
      else if !IsSymbol(s[2]) then None
      else
        var x := ValueOf(s[2]).value;
        if s[3] == PAD then Some([First(v, w), Second(w, x)])
        else if !IsSymbol(s[3]) then None
        else Some([First(v, w), Second(w, x), Third(x, ValueOf(s[3]).value)])
  }

  /** Padding ends the data: nothing may follow a padded group. */
  function DecodeGroups(s: string): Option<seq<byte>> {
    if s == [] then Some([])
    else if |s| < 4 then None
    else
      var head := DecodeGroup(s[..4]);
      if head.None? then None
      else if |s| == 4 then head
      else if |head.value| < 3 then None
      else
        var rest := DecodeGroups(s[4..]);
        if rest.None? then None else Some(head.value + rest.value)
  }

  function WithoutNewlines(s: string): string {
    if s == [] then []
    else if s[0] == '\r' || s[0] == '\n' then WithoutNewlines(s[1..])
    else [s[0]] + WithoutNewlines(s[1..])
  }

  function DecodeString(s: string): Option<seq<byte>> {
    DecodeGroups(WithoutNewlines(s))
  }

  predicate NoNewlines(s: string) {
    forall i :: 0 <= i < |s| ==> s[i] != '\r' && s[i] != '\n'
  }

  // ---- decoding what was encoded ------------------------------------------------------------------

  lemma {:induction false} NoNewlinesStays(s: string)
    ensures NoNewlines(s) <==> WithoutNewlines(s) == s
    ensures |WithoutNewlines(s)| <= |s| && NoNewlines(WithoutNewlines(s))
    decreases |s|
  {
    if s != [] {
      NoNewlinesStays(s[1..]);
      assert s == [s[0]] + s[1..];
      if NoNewlines(s) {
        assert NoNewlines(s[1..]);
      }
      if WithoutNewlines(s) == s {
        assert WithoutNewlines(s)[1..] == s[1..];
      }
    }
  }

  lemma QuadIsRead(a: byte, b: byte, c: byte)
    ensures
      var q := Quad(a, b, c);
      && NoNewlines(q) && (forall i :: 0 <= i < 4 ==> IsSymbol(q[i]) && q[i] != PAD)
      && First(ValueOf(q[0]).value, ValueOf(q[1]).value) == a
      && Second(ValueOf(q[1]).value, ValueOf(q[2]).value) == b
      && Third(ValueOf(q[2]).value, ValueOf(q[3]).value) == c
  {
    SymbolsAreRead(a / 4, PAD);
    SymbolsAreRead((a % 4) * 16 + b / 16, PAD);
    SymbolsAreRead((b % 16) * 4 + c / 64, PAD);
    SymbolsAreRead(c % 64, PAD);
    hide Symbol, ValueOf;
  }

  lemma QuadHasNoNewlines(a: byte, b: byte, c: byte)
    ensures NoNewlines(Quad(a, b, c)) && |Quad(a, b, c)| == 4
  {
    QuadIsRead(a, b, c);
  }

  lemma NoNewlinesJoin(s: string, t: string)
    requires NoNewlines(s) && NoNewlines(t)
    ensures NoNewlines(s + t)
  {
  }

  lemma GroupOfFour(c: char, d: char, e: char, f: char)
    requires IsSymbol(c) && IsSymbol(d) && IsSymbol(e)
    requires IsSymbol(f) || f == PAD
    ensures
      var x, y := First(ValueOf(c).value, ValueOf(d).value), Second(ValueOf(d).value, ValueOf(e).value);
      && DecodeGroup([c, d, PAD, PAD]) == Some([x])
      && DecodeGroup([c, d, e, f]) == Some(if f == PAD then [x, y] else [x, y, Third(ValueOf(e).value, ValueOf(f).value)])
  {
    SymbolsAreRead(0, PAD);
    hide ValueOf, First, Second, Third;
  }

  lemma QuadGroupIsDecoded(a: byte, b: byte, c: byte)
    ensures DecodeGroup(Quad(a, b, c)) == Some([a, b, c])
    ensures DecodeGroup(Quad(a, b, 0)[..3] + [PAD]) == Some([a, b])
    ensures DecodeGroup(Quad(a, 0, 0)[..2] + [PAD, PAD]) == Some([a])
  {
    hide Symbol, ValueOf, DecodeGroup, First, Second, Third, Quad;
    var q, r, t := Quad(a, b, c), Quad(a, b, 0), Quad(a, 0, 0);
    QuadIsRead(a, b, c);
    QuadIsRead(a, b, 0);
    QuadIsRead(a, 0, 0);
    QuadHasNoNewlines(a, b, c);
    QuadHasNoNewlines(a, b, 0);
    QuadHasNoNewlines(a, 0, 0);
    GroupOfFour(q[0], q[1], q[2], q[3]);
    GroupOfFour(r[0], r[1], r[2], PAD);
    GroupOfFour(t[0], t[1], t[2], t[3]);
    assert q == [q[0], q[1], q[2], q[3]];
    assert r[..3] + [PAD] == [r[0], r[1], r[2], PAD];
    assert t[..2] + [PAD, PAD] == [t[0], t[1], PAD, PAD];
  }

  lemma OneGroup(s: string)
    requires |s| == 4 && DecodeGroup(s).Some?
    ensures DecodeGroups(s) == DecodeGroup(s)
  {
    hide DecodeGroup;
    assert s[..4] == s;
  }

  lemma NextGroup(g: string, t: string)
    requires |g| == 4 && DecodeGroup(g).Some? && |DecodeGroup(g).value| == 3 && DecodeGroups(t).Some?
    ensures DecodeGroups(g + t) == Some(DecodeGroup(g).value + DecodeGroups(t).value)
  {
    hide DecodeGroup;
    assert (g + t)[..4] == g && (g + t)[4..] == t;
    if t == [] {
      OneGroup(g);
      assert g + t == g;
      assert DecodeGroups(t).value == [];
      assert DecodeGroup(g).value + [] == DecodeGroup(g).value;
    }
  }

  lemma ShortEncodings(a: byte, b: byte)
    ensures
      var s := EncodeToString([a]);
      DecodeGroups(s) == Some([a]) && NoNewlines(s) && |s| == 4
    ensures
      var s := EncodeToString([a, b]);
      DecodeGroups(s) == Some([a, b]) && NoNewlines(s) && |s| == 4
  {
    hide Symbol, ValueOf, Quad, DecodeGroup, DecodeGroups, First, Second, Third;
    QuadGroupIsDecoded(a, b, 0);
    QuadHasNoNewlines(a, b, 0);
    QuadHasNoNewlines(a, 0, 0);
    OneGroup(EncodeToString([a]));
    OneGroup(EncodeToString([a, b]));
  }

  lemma LongEncoding(a: byte, b: byte, c: byte, rest: seq<byte>)
    ensures EncodeToString([a, b, c] + rest) == Quad(a, b, c) + EncodeToString(rest)
  {
    hide Symbol, Quad;
    assert ([a, b, c] + rest)[3..] == rest;
  }

  lemma {:induction false} EncodedIsDecoded(data: seq<byte>)
    ensures DecodeGroups(EncodeToString(data)) == Some(data)
    ensures NoNewlines(EncodeToString(data)) && |EncodeToString(data)| == 4 * ((|data| + 2) / 3)
    decreases |data|
  {
    hide Symbol, ValueOf, Quad, DecodeGroup, First, Second, Third;
    if data == [] {
    } else if |data| == 1 {
      ShortEncodings(data[0], 0);
      assert data == [data[0]];
    } else if |data| == 2 {
      ShortEncodings(data[0], data[1]);
      assert data == [data[0], data[1]];
    } else {
      hide *;
      var a, b, c, rest := data[0], data[1], data[2], data[3..];
      assert data == [a, b, c] + rest;
      EncodedIsDecoded(rest);
      QuadGroupIsDecoded(a, b, c);
      QuadHasNoNewlines(a, b, c);
      LongEncoding(a, b, c, rest);
      NextGroup(Quad(a, b, c), EncodeToString(rest));
      NoNewlinesJoin(Quad(a, b, c), EncodeToString(rest));
    }
  }

  /** Decoding inverts encoding, for all data and in all three cases of padding. */
  lemma RoundTrip(data: seq<byte>)
    ensures DecodeString(EncodeToString(data)) == Some(data)
    ensures |EncodeToString(data)| == 4 * ((|data| + 2) / 3)
  {
    EncodedIsDecoded(data);
    NoNewlinesStays(EncodeToString(data));
  }

  /** Four characters make at most three bytes. */
  lemma {:induction false} GroupsLength(s: string)
    requires DecodeGroups(s).Some?
    ensures 4 * |DecodeGroups(s).value| <= 3 * |s|
    decreases |s|
  {
    hide ValueOf, First, Second, Third;
    if |s| > 4 {
      GroupsLength(s[4..]);
    }
  }

  lemma DecodedLength(s: string)
    requires DecodeString(s).Some?
    ensures 4 * |DecodeString(s).value| <= 3 * |s|
  {
    NoNewlinesStays(s);
    GroupsLength(WithoutNewlines(s));
  }

  // ---- encoding what was decoded ------------------------------------------------------------------

  /** The bits a padded last group does not use are zero. */
  predicate UnusedBitsAreZero(s: string) {
    |s| >= 4 ==>
      var g := s[|s| - 4..];
      && (g[2] == PAD && g[3] == PAD && IsSymbol(g[1]) ==> ValueOf(g[1]).value % 16 == 0)
      && (g[2] != PAD && g[3] == PAD && IsSymbol(g[2]) ==> ValueOf(g[2]).value % 4 == 0)
  }

  lemma GroupIsEncodedIff(s: string)
    requires |s| == 4 && DecodeGroup(s).Some?
    ensures EncodeToString(DecodeGroup(s).value) == s <==> UnusedBitsAreZero(s)
    ensures |DecodeGroup(s).value| == 3 ==> s[3] != PAD && UnusedBitsAreZero(s)
  {
    assert s[|s| - 4..] == s;
    SymbolsAreRead(0, s[0]);
    SymbolsAreRead(0, s[1]);
    SymbolsAreRead(0, s[2]);
    SymbolsAreRead(0, s[3]);
    var data := DecodeGroup(s).value;
    GroupsSextets(s);
    assert s == [s[0], s[1], s[2], s[3]];
  }

  lemma GroupsSextets(s: string)
    requires |s| == 4 && DecodeGroup(s).Some?
    ensures
      var data := DecodeGroup(s).value;
      && data[0] / 4 == ValueOf(s[0]).value
      && (|data| == 1 ==> (data[0] % 4) * 16 == ValueOf(s[1]).value - ValueOf(s[1]).value % 16)
      && (|data| >= 2 ==> (data[0] % 4) * 16 + data[1] / 16 == ValueOf(s[1]).value)
      && (|data| == 2 ==> (data[1] % 16) * 4 == ValueOf(s[2]).value - ValueOf(s[2]).value % 4)
      && (|data| == 3 ==> (data[1] % 16) * 4 + data[2] / 64 == ValueOf(s[2]).value && data[2] % 64 == ValueOf(s[3]).value)
  {
    hide ValueOf;
  }

  lemma {:induction false} DecodedIsEncodedIff(s: string)
    requires DecodeGroups(s).Some?
    ensures EncodeToString(DecodeGroups(s).value) == s <==> UnusedBitsAreZero(s)
    decreases |s|
  {
    hide Symbol, ValueOf;
    if |s| >= 4 {
      GroupIsEncodedIff(s[..4]);
      if |s| == 4 {
        assert s[..4] == s;
      } else {
        var head, rest := DecodeGroup(s[..4]).value, DecodeGroups(s[4..]).value;
        DecodedIsEncodedIff(s[4..]);
        assert |s[4..]| >= 4;
        assert s[4..][|s[4..]| - 4..] == s[|s| - 4..];
        assert (head + rest)[3..] == rest;
        assert EncodeToString(head + rest) == Quad(head[0], head[1], head[2]) + EncodeToString(rest);
        assert EncodeToString(head) == Quad(head[0], head[1], head[2]) by {
          assert head[3..] == [];
          assert Quad(head[0], head[1], head[2]) + "" == Quad(head[0], head[1], head[2]);
        }
        assert s == s[..4] + s[4..];
      }
    }
  }

  /** A text that decodes is the encoding of its data exactly when it has no line breaks and the
      unused bits of a padded last group are zero. */
  lemma CanonicalIff(s: string)
    requires DecodeString(s).Some?
    ensures EncodeToString(DecodeString(s).value) == s <==> NoNewlines(s) && UnusedBitsAreZero(s)
  {
    NoNewlinesStays(s);
    if NoNewlines(s) {
      DecodedIsEncodedIff(s);
    } else {
      EncodedIsDecoded(DecodeString(s).value);
    }
  }

  // ---- what decodes at all ----------------------------------------------------------------------------------

  /** The padding characters at the end, two at most. */
  function Pads(t: string): nat {
    if t == "" || t[|t| - 1] != '=' then 0
    else if |t| == 1 || t[|t| - 2] != '=' then 1 else 2
  }

  /** Groups of four symbols, of which the last may end in one or two padding characters. */
  ghost predicate IsPadded(t: string) {
    |t| % 4 == 0 && forall i :: 0 <= i < |t| - Pads(t) ==> IsSymbol(t[i])
  }

  lemma InAlphabetIff(c: char)
    ensures IsSymbol(c) <==> c in ALPHABET
  {
    if IsSymbol(c) {
      SymbolsAreRead(0, c);
      SymbolIs(ValueOf(c).value);
    } else if c in ALPHABET {
      var x :| 0 <= x < |ALPHABET| && ALPHABET[x] == c;
      SymbolIs(x);
      SymbolsAreRead(x, c);
    }
    hide ALPHABET, Symbol, ValueOf;
  }

  lemma LastGroupDecodesIff(t: string)
    requires |t| == 4
    ensures DecodeGroup(t).Some? <==> IsPadded(t)
    ensures DecodeGroup(t).Some? && Pads(t) == 0 <==> forall i :: 0 <= i < 4 ==> IsSymbol(t[i])
    ensures DecodeGroup(t).Some? ==> |DecodeGroup(t).value| == 3 - Pads(t)
  {
    assert !IsSymbol('=') by { SymbolsAreRead(0, 'A'); }
    hide ValueOf;
  }

  lemma {:induction false} GroupsDecodeIff(t: string)
    ensures DecodeGroups(t).Some? <==> IsPadded(t)
    decreases |t|
  {
    if |t| <= 4 {
      OneGroupDecodesIff(t);
    } else {
      var g, rest := t[..4], t[4..];
      hide DecodeGroup, DecodeGroups, IsPadded, IsSymbol, Pads;
      GroupsStart(t);
      LastGroupDecodesIff(g);
      GroupsDecodeIff(rest);
      FirstGroupAndRest(g, rest);
      assert g + rest == t;
    }
  }

  lemma OneGroupDecodesIff(t: string)
    requires |t| <= 4
    ensures DecodeGroups(t).Some? <==> IsPadded(t)
  {
    if |t| == 4 {
      assert t[..4] == t;
      LastGroupDecodesIff(t);
    }
    hide DecodeGroup, IsSymbol;
  }

  lemma GroupsStart(t: string)
    requires |t| > 4
    ensures DecodeGroups(t).Some? <==>
      DecodeGroup(t[..4]).Some? && |DecodeGroup(t[..4]).value| >= 3 && DecodeGroups(t[4..]).Some?
  {
    hide DecodeGroup;
  }

  lemma FirstGroupAndRest(g: string, rest: string)
    requires |g| == 4 && rest != ""
    ensures IsPadded(g + rest) <==> (forall i :: 0 <= i < 4 ==> IsSymbol(g[i])) && IsPadded(rest)
  {
    var t := g + rest;
    hide IsSymbol;
    if |rest| % 4 == 0 {
      assert Pads(t) == Pads(rest) <= |rest|;
      hide Pads;
      assert forall i :: 0 <= i < 4 ==> t[i] == g[i];
      assert forall i :: 0 <= i < |rest| ==> t[i + 4] == rest[i];
      if IsPadded(t) {
        forall i | 0 <= i < |rest| - Pads(rest) ensures IsSymbol(rest[i]) {
          assert IsSymbol(t[i + 4]);
        }
      }
    }
  }

  /** A text decodes exactly when, line breaks aside, it is groups of four characters of the alphabet with at
      most two padding characters at the end; line breaks may stand anywhere. */
  lemma DecodesIff(s: string)
    ensures
      var t := WithoutNewlines(s);
      DecodeString(s).Some? <==> |t| % 4 == 0 && forall i :: 0 <= i < |t| - Pads(t) ==> t[i] in ALPHABET
  {
    var t := WithoutNewlines(s);
    GroupsDecodeIff(t);
    hide ALPHABET, IsSymbol, Pads, WithoutNewlines, DecodeGroups;
    forall i | 0 <= i < |t| - Pads(t) ensures IsSymbol(t[i]) <==> t[i] in ALPHABET {
      InAlphabetIff(t[i]);
    }
  }
}
