/** Unpadded base64url (section 5 of RFC 4648), decoded strictly: no padding, no stray trailing bits. */
module Base64Url {
  import opened Wrappers

  type Octet = n: int | 0 <= n < 256

  type Sextet = n: int | 0 <= n < 64

  function EncodeSextet(s: Sextet): char {
    if s < 26 then ('A' as int + s) as char
    else if s < 52 then ('a' as int + s - 26) as char
    else if s < 62 then ('0' as int + s - 52) as char
    else if s == 62 then '-'
    else '_'
  }

  function DecodeSextet(c: char): Option<Sextet> {
    if 'A' <= c <= 'Z' then Some(c as int - 'A' as int)
    else if 'a' <= c <= 'z' then Some(c as int - 'a' as int + 26)
    else if '0' <= c <= '9' then Some(c as int - '0' as int + 52)
    else if c == '-' then Some(62)
    else if c == '_' then Some(63)
    else None
  }

  lemma SextetRoundTrip(s: Sextet)
    ensures DecodeSextet(EncodeSextet(s)) == Some(s)
    ensures EncodeSextet(s) != '$'
  {
  }

  lemma CharRoundTrip(c: char)
    requires DecodeSextet(c).Some?
    ensures EncodeSextet(DecodeSextet(c).value) == c
  {
  }

  /** Three octets as four sextets; a group of one or two octets is padded with zero bits. */
  function Pack(data: seq<Octet>): seq<Sextet> {
    if data == [] then []
    else if |data| == 1 then [data[0] / 4, data[0] % 4 * 16]
    else if |data| == 2 then [data[0] / 4, data[0] % 4 * 16 + data[1] / 16, data[1] % 16 * 4]
    else
      [data[0] / 4, data[0] % 4 * 16 + data[1] / 16, data[1] % 16 * 4 + data[2] / 64, data[2] % 64]
      + Pack(data[3..])
  }

  function OctetA(s: int, t: int): int {
    s * 4 + t / 16
  }

  function OctetB(t: int, u: int): int {
    t % 16 * 16 + u / 4
  }

  function OctetC(u: int, v: int): int {
    u % 4 * 64 + v
  }

  function Unpack(s: seq<Sextet>): Option<seq<Octet>> {
    if s == [] then Some([])
    else if |s| == 1 then None
    else
      var a: Octet := OctetA(s[0], s[1]);
      if |s| == 2 then if s[1] % 16 != 0 then None else Some([a])
      else
        var b: Octet := OctetB(s[1], s[2]);
        if |s| == 3 then if s[2] % 4 != 0 then None else Some([a, b])
        else
          var c: Octet := OctetC(s[2], s[3]);
          var rest := Unpack(s[4..]);
          if rest.None? then None else Some([a, b, c] + rest.value)
  }

  function Print(s: seq<Sextet>): string {
    if s == [] then [] else [EncodeSextet(s[0])] + Print(s[1..])
  }

  /** The sextets of a text, if every character is in the alphabet. */
  function Sextets(text: string): Option<seq<Sextet>> {
    if text == [] then Some([])
    else
      var first, rest := DecodeSextet(text[0]), Sextets(text[1..]);
      if first.None? || rest.None? then None else Some([first.value] + rest.value)
  }

  function Encode(data: seq<Octet>): string {
    Print(Pack(data))
  }

  function Decode(text: string): Option<seq<Octet>> {
    var s := Sextets(text);
    if s.None? then None else Unpack(s.value)
  }

  lemma {:induction false} SextetsOfPrint(s: seq<Sextet>)
    ensures Sextets(Print(s)) == Some(s)
    ensures '$' !in Print(s)
  {
    if s != [] {
      SextetRoundTrip(s[0]);
      SextetsOfPrint(s[1..]);
      assert Print(s)[1..] == Print(s[1..]);
      assert [s[0]] + s[1..] == s;
    }
  }

  lemma {:induction false} PrintOfSextets(text: string)
    requires Sextets(text).Some?
    ensures Print(Sextets(text).value) == text
  {
    if text != [] {
      CharRoundTrip(text[0]);
      PrintOfSextets(text[1..]);
      assert Sextets(text).value[1..] == Sextets(text[1..]).value;
    }
  }

  /** Regrouping the bits of three octets as four sextets loses nothing. */
  lemma OctetsRegroup(a: int, b: int, c: int)
    requires 0 <= a < 256 && 0 <= b < 256 && 0 <= c < 256
    ensures OctetA(a / 4, a % 4 * 16 + b / 16) == a
    ensures OctetB(a % 4 * 16 + b / 16, b % 16 * 4 + c / 64) == b
    ensures OctetC(b % 16 * 4 + c / 64, c % 64) == c
  {
  }

  lemma SextetsRegroup(s: int, t: int, u: int, v: int)
    requires 0 <= s < 64 && 0 <= t < 64 && 0 <= u < 64 && 0 <= v < 64
    ensures OctetA(s, t) / 4 == s
    ensures OctetA(s, t) % 4 * 16 + OctetB(t, u) / 16 == t
    ensures OctetB(t, u) % 16 * 4 + OctetC(u, v) / 64 == u
    ensures OctetC(u, v) % 64 == v
  {
  }

  lemma ShortRegroup(a: int, b: int)
    requires 0 <= a < 256 && 0 <= b < 256
    ensures a % 4 * 16 % 16 == 0 && OctetA(a / 4, a % 4 * 16) == a
    ensures OctetA(a / 4, a % 4 * 16 + b / 16) == a
    ensures b % 16 * 4 % 4 == 0 && OctetB(a % 4 * 16 + b / 16, b % 16 * 4) == b
  {
  }

  lemma UnpackOfOne(a: Octet)
    ensures Unpack(Pack([a])) == Some([a])
  {
    ShortRegroup(a, 0);
  }

  lemma UnpackOfTwo(a: Octet, b: Octet)
    ensures Unpack(Pack([a, b])) == Some([a, b])
  {
    ShortRegroup(a, b);
  }

  /** A full group unpacks to its three octets, whatever follows. */
  lemma UnpackFour(s: Sextet, t: Sextet, u: Sextet, v: Sextet, rest: seq<Sextet>)
    requires Unpack(rest).Some?
    ensures var a: Octet, b: Octet, c: Octet := OctetA(s, t), OctetB(t, u), OctetC(u, v);
      Unpack([s, t, u, v] + rest) == Some([a, b, c] + Unpack(rest).value)
  {
    assert ([s, t, u, v] + rest)[4..] == rest;
  }

  lemma PackThree(a: Octet, b: Octet, c: Octet, rest: seq<Octet>) returns (s: Sextet, t: Sextet, u: Sextet, v: Sextet)
    ensures Pack([a, b, c] + rest) == [s, t, u, v] + Pack(rest)
    ensures OctetA(s, t) == a && OctetB(t, u) == b && OctetC(u, v) == c
  {
    OctetsRegroup(a, b, c);
    assert ([a, b, c] + rest)[3..] == rest;
    s, t, u, v := a / 4, a % 4 * 16 + b / 16, b % 16 * 4 + c / 64, c % 64;
  }

  lemma UnpackOfThree(a: Octet, b: Octet, c: Octet, rest: seq<Octet>)
    requires Unpack(Pack(rest)) == Some(rest)
    ensures Unpack(Pack([a, b, c] + rest)) == Some([a, b, c] + rest)
  {
    var s, t, u, v := PackThree(a, b, c, rest);
    UnpackFour(s, t, u, v, Pack(rest));
  }

  lemma {:induction false} UnpackOfPack(data: seq<Octet>)
    ensures Unpack(Pack(data)) == Some(data)
  {
    if |data| == 1 {
      assert data == [data[0]];
      UnpackOfOne(data[0]);
    } else if |data| == 2 {
      assert data == [data[0], data[1]];
      UnpackOfTwo(data[0], data[1]);
    } else if |data| >= 3 {
      UnpackOfPack(data[3..]);
      UnpackOfThree(data[0], data[1], data[2], data[3..]);
      assert data == [data[0], data[1], data[2]] + data[3..];
    }
  }

  lemma {:induction false} PackOfUnpack(s: seq<Sextet>)
    requires Unpack(s).Some?
    ensures Pack(Unpack(s).value) == s
  {
    if |s| == 2 {
      SextetsRegroup(s[0], s[1], 0, 0);
      assert Unpack(s).value == [OctetA(s[0], s[1]) as Octet];
    } else if |s| == 3 {
      SextetsRegroup(s[0], s[1], s[2], 0);
    } else if |s| >= 4 {
      SextetsRegroup(s[0], s[1], s[2], s[3]);
      PackOfUnpack(s[4..]);
      assert Unpack(s).value[3..] == Unpack(s[4..]).value;
      assert s == [s[0], s[1], s[2], s[3]] + s[4..];
    }
  }

  /** Decoding undoes encoding, and the encoding never contains the field separator of the stored hash. */
  lemma DecodeOfEncode(data: seq<Octet>)
    ensures Decode(Encode(data)) == Some(data)
    ensures '$' !in Encode(data)
  {
    SextetsOfPrint(Pack(data));
    UnpackOfPack(data);
  }

  /** A text decodes only if it is the encoding of what it decodes to. */
  lemma EncodeOfDecode(text: string)
    requires Decode(text).Some?
    ensures Encode(Decode(text).value) == text
  {
    PrintOfSextets(text);
    PackOfUnpack(Sextets(text).value);
  }

  const UPPER_CASE: string := "ABCDEFGHIJKLMNOPQRSTUVWXYZ"
  const LOWER_CASE: string := "abcdefghijklmnopqrstuvwxyz"
  const DIGITS: string := "0123456789"

  /** The alphabet of table 2 of RFC 4648. */
  const ALPHABET: string := UPPER_CASE + LOWER_CASE + DIGITS + "-_"

  /** Characters that follow one another from `first`. */
  predicate Consecutive(text: string, first: char) {
    forall i | 0 <= i < |text| :: text[i] as int == first as int + i
  }

  lemma EncodeSextetIsAlphabet(s: Sextet)
    ensures |ALPHABET| == 64 && EncodeSextet(s) == ALPHABET[s]
  {
    assert Consecutive(UPPER_CASE, 'A') && Consecutive(LOWER_CASE, 'a') && Consecutive(DIGITS, '0');
    assert s < 26 ==> ALPHABET[s] == UPPER_CASE[s];
    assert 26 <= s < 52 ==> ALPHABET[s] == LOWER_CASE[s - 26];
    assert 52 <= s < 62 ==> ALPHABET[s] == DIGITS[s - 52];
    assert s == 62 ==> ALPHABET[s] == "-_"[0];
    assert s == 63 ==> ALPHABET[s] == "-_"[1];
  }

  function Number3(a: int, b: int, c: int): int {
    0x1_0000 * a + 0x100 * b + c
  }

  function Number4(s: int, t: int, u: int, v: int): int {
    0x4_0000 * s + 0x1000 * t + 0x40 * u + v
  }

  /** A group of three octets is printed as one 24-bit number, most significant sextet first. */
  lemma {:induction false} GroupsAreBigEndian(data: seq<Octet>, i: nat)
    requires 3 * i + 2 < |data|
    ensures |Pack(data)| > 4 * i + 3
    ensures var s := Pack(data);
      Number3(data[3 * i], data[3 * i + 1], data[3 * i + 2])
      == Number4(s[4 * i], s[4 * i + 1], s[4 * i + 2], s[4 * i + 3])
    decreases i
  {
    if i == 0 {
      FirstGroup(data[0], data[1], data[2]);
    } else {
      GroupsAreBigEndian(data[3..], i - 1);
      assert Pack(data)[4..] == Pack(data[3..]);
    }
  }

  lemma FirstGroup(a: int, b: int, c: int)
    requires 0 <= a < 256 && 0 <= b < 256 && 0 <= c < 256
    ensures Number3(a, b, c) == Number4(a / 4, a % 4 * 16 + b / 16, b % 16 * 4 + c / 64, c % 64)
  {
  }

  /** A last group of one or two octets is padded with zero bits to whole sextets, and nothing else is printed. */
  lemma LastGroup(a: Octet, b: Octet)
    ensures |Pack([a])| == 2 && Number4(Pack([a])[0], Pack([a])[1], 0, 0) == Number3(a, 0, 0)
    ensures |Pack([a, b])| == 3 && Number4(Pack([a, b])[0], Pack([a, b])[1], Pack([a, b])[2], 0) == Number3(a, b, 0)
  {
  }
}
