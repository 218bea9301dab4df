/**
  The stored password hash: its printed format, verification, and the upgrade at
  login. The text encoding of passwords and the pseudorandom function are
  parameters.
 */
module StoredHash {
  import opened Wrappers
  import opened Base64Url
  import P = Pbkdf2

  const PREFIX: string := "pbkdf2-sha256"
  const ITERATIONS: nat := 600_000
  const ITERATIONS_TEXT: string := "600000"
  const MAX_ITERATIONS: nat := 1_000_000
  const MAX_U32: nat := 0xFFFF_FFFF
  const SALT_BYTES: nat := 16
  const HASH_BYTES: nat := 32

  type Salt = s: seq<P.Byte> | |s| == 16 witness seq(16, _ => 0)

  /** The password hashing primitives: UTF-8 encoding and HMAC-SHA-256. */
  datatype Scheme = Scheme(encode: string -> seq<P.Byte>, prf: P.Prf)

  function Octets(bytes: seq<P.Byte>): seq<Octet> {
    seq(|bytes|, i requires 0 <= i < |bytes| => bytes[i] as int)
  }

  function Bytes(octets: seq<Octet>): seq<P.Byte> {
    seq(|octets|, i requires 0 <= i < |octets| => octets[i] as bv8)
  }

  lemma BytesOfOctets(bytes: seq<P.Byte>)
    ensures Bytes(Octets(bytes)) == bytes
  {
    forall i | 0 <= i < |bytes| ensures Bytes(Octets(bytes))[i] == bytes[i] {
      ByteRoundTrip(bytes[i]);
    }
  }

  lemma ByteRoundTrip(b: bv8)
    ensures (b as int) as bv8 == b
  {
  }

  function EncodeBytes(bytes: seq<P.Byte>): string {
    Encode(Octets(bytes))
  }

  function DecodeBytes(text: string): Option<seq<P.Byte>> {
    match Decode(text)
    case None => None
    case Some(octets) => Some(Bytes(octets))
  }

  lemma DecodeOfEncodeBytes(bytes: seq<P.Byte>)
    ensures DecodeBytes(EncodeBytes(bytes)) == Some(bytes)
    ensures '$' !in EncodeBytes(bytes)
  {
    DecodeOfEncode(Octets(bytes));
    BytesOfOctets(bytes);
  }

  /** The derived key of a password. */
  function Derive(h: Scheme, password: string, salt: seq<P.Byte>, iterations: nat): seq<P.Byte>
    requires iterations > 0
  {
    P.DerivedKey(h.prf, h.encode(password), salt, iterations, HASH_BYTES)
  }

  function HashPassword(h: Scheme, password: string, salt: Salt): string {
    PREFIX + "$" + ITERATIONS_TEXT + "$" + EncodeBytes(salt) + "$" + EncodeBytes(Derive(h, password, salt, ITERATIONS))
  }

  /** `str::split('$')`: always at least one part. */
  function Split(text: string): (parts: seq<string>)
    ensures parts != []
  {
    if text == [] then [[]]
    else
      var rest := Split(text[1..]);
      if text[0] == '$' then [[]] + rest else [[text[0]] + rest[0]] + rest[1..]
  }

  function DigitsValue(digits: string): Option<nat> {
    if digits == [] then Some(0)
    else
      var last := digits[|digits| - 1];
      var front := DigitsValue(digits[..|digits| - 1]);
      if front.None? || !('0' <= last <= '9') then None
      else Some(front.value * 10 + (last as int - '0' as int))
  }

  /** `str::parse::<u32>`: one optional plus sign, then digits whose value fits. */
  function ParseU32(text: string): Option<nat> {
    var digits := if text != [] && text[0] == '+' then text[1..] else text;
    var value := DigitsValue(digits);
    if digits == [] || value.None? || value.value > MAX_U32 then None else value
  }

  predicate VerifyPassword(h: Scheme, password: string, stored: string) {
    var parts := Split(stored);
    if parts[0] != PREFIX then password == stored
    else if |parts| != 4 then false
    else
      var iterations, salt, expected := ParseU32(parts[1]), DecodeBytes(parts[2]), DecodeBytes(parts[3]);
      && iterations.Some? && 0 < iterations.value <= MAX_ITERATIONS
      && salt.Some? && expected.Some?
      && |salt.value| == SALT_BYTES && |expected.value| == HASH_BYTES
      && Derive(h, password, salt.value, iterations.value) == expected.value
  }

  predicate PasswordNeedsUpgrade(stored: string) {
    var parts := Split(stored);
    if parts[0] != PREFIX || |parts| != 4 then true
    else
      match ParseU32(parts[1])
      case None => true
      case Some(iterations) => iterations < ITERATIONS
  }

  /** A successful login with the upgrade it performs; `salt` is the salt drawn if it rehashes. */
  function Login(h: Scheme, password: string, stored: string, salt: Salt): (bool, string) {
    if !VerifyPassword(h, password, stored) then (false, stored)
    else if PasswordNeedsUpgrade(stored) then (true, HashPassword(h, password, salt))
    else (true, stored)
  }

  lemma {:induction false} SplitOne(a: string)
    requires '$' !in a
    ensures Split(a) == [a]
  {
    if a != [] {
      SplitOne(a[1..]);
      assert [a[0]] + a[1..] == a;
    }
  }

  lemma {:induction false} SplitFirst(a: string, rest: string)
    requires '$' !in a
    ensures Split(a + "$" + rest) == [a] + Split(rest)
  {
    if a == [] {
      assert a + "$" + rest == "$" + rest;
      assert ("$" + rest)[1..] == rest;
    } else {
      SplitFirst(a[1..], rest);
      assert (a + "$" + rest)[1..] == a[1..] + "$" + rest;
      assert [a[0]] + a[1..] == a;
    }
  }

  /** The first field is all of the text, or is followed by the separator. */
  lemma {:induction false} FirstField(text: string)
    ensures '$' !in Split(text)[0]
    ensures text == Split(text)[0] || Split(text)[0] + "$" <= text
  {
    if text != [] && text[0] != '$' {
      FirstField(text[1..]);
      var first := Split(text[1..])[0];
      assert text == [text[0]] + text[1..];
      if first + "$" <= text[1..] {
        assert [text[0]] + (first + "$") <= text;
        assert [text[0]] + first + "$" == [text[0]] + (first + "$");
      }
    }
  }

  /** A text marked as a hash of this format: the prefix alone, or followed by the separator. */
  lemma MarkedMeans(text: string)
    ensures Split(text)[0] == PREFIX <==> text == "pbkdf2-sha256" || "pbkdf2-sha256$" <= text
  {
    FirstField(text);
    assert PREFIX + "$" == "pbkdf2-sha256$";
    assert '$' !in PREFIX;
    if text == PREFIX {
      SplitOne(PREFIX);
    } else if PREFIX + "$" <= text {
      var rest := text[|PREFIX + "$"|..];
      assert text == PREFIX + "$" + rest;
      SplitFirst(PREFIX, rest);
    }
  }

  lemma SplitFour(a: string, b: string, c: string, d: string)
    requires '$' !in a && '$' !in b && '$' !in c && '$' !in d
    ensures Split(a + "$" + b + "$" + c + "$" + d) == [a, b, c, d]
  {
    assert a + "$" + b + "$" + c + "$" + d == a + "$" + (b + "$" + (c + "$" + d));
    assert b + "$" + (c + "$" + d) == b + "$" + c + "$" + d;
    SplitFirst(a, b + "$" + (c + "$" + d));
    SplitFirst(b, c + "$" + d);
    SplitFirst(c, d);
    SplitOne(d);
  }

  lemma IterationsTextParses()
    ensures ParseU32(ITERATIONS_TEXT) == Some(ITERATIONS)
  {
    assert DigitsValue("6") == Some(6);
    assert "60"[..1] == "6" && DigitsValue("60") == Some(60);
    assert "600"[..2] == "60" && DigitsValue("600") == Some(600);
    assert "6000"[..3] == "600" && DigitsValue("6000") == Some(6000);
    assert "60000"[..4] == "6000" && DigitsValue("60000") == Some(60000);
    assert "600000"[..5] == "60000";
  }

  /** The printed hash parses back to its four fields. */
  lemma PrintedHashParses(h: Scheme, password: string, salt: Salt)
    ensures Split(HashPassword(h, password, salt))
      == [PREFIX, ITERATIONS_TEXT, EncodeBytes(salt), EncodeBytes(Derive(h, password, salt, ITERATIONS))]
    ensures ParseU32(ITERATIONS_TEXT) == Some(ITERATIONS)
    ensures DecodeBytes(EncodeBytes(salt)) == Some(salt)
    ensures DecodeBytes(EncodeBytes(Derive(h, password, salt, ITERATIONS)))
         == Some(Derive(h, password, salt, ITERATIONS))
  {
    var key := Derive(h, password, salt, ITERATIONS);
    DecodeOfEncodeBytes(salt);
    DecodeOfEncodeBytes(key);
    SplitFour(PREFIX, ITERATIONS_TEXT, EncodeBytes(salt), EncodeBytes(key));
    IterationsTextParses();
  }

  /** The hash of a password verifies another password exactly when the two derive the same key. */
  lemma VerifiesIffSameKey(h: Scheme, password: string, salt: Salt, candidate: string)
    ensures VerifyPassword(h, candidate, HashPassword(h, password, salt))
      <==> Derive(h, candidate, salt, ITERATIONS) == Derive(h, password, salt, ITERATIONS)
  {
    PrintedHashParses(h, password, salt);
  }

  lemma HashPasswordVerifies(h: Scheme, password: string, salt: Salt)
    ensures VerifyPassword(h, password, HashPassword(h, password, salt))
    ensures !PasswordNeedsUpgrade(HashPassword(h, password, salt))
  {
    VerifiesIffSameKey(h, password, salt, password);
    PrintedHashParses(h, password, salt);
  }

  /**
    Whatever was stored, after a successful login the stored hash accepts the
    same password, needs no upgrade, and a second login leaves it as it is.
   */
  lemma LoginUpgradesOnce(h: Scheme, password: string, stored: string, salt: Salt, second: Salt)
    requires Login(h, password, stored, salt).0
    ensures var upgraded := Login(h, password, stored, salt).1;
      && VerifyPassword(h, password, upgraded) && !PasswordNeedsUpgrade(upgraded)
      && Login(h, password, upgraded, second) == (true, upgraded)
  {
    HashPasswordVerifies(h, password, salt);
  }

  lemma OctetsOfBytes(octets: seq<Octet>)
    ensures Octets(Bytes(octets)) == octets
  {
    forall i | 0 <= i < |octets| ensures Octets(Bytes(octets))[i] == octets[i] {
      OctetRoundTrip(octets[i]);
    }
  }

  lemma OctetRoundTrip(n: int)
    requires 0 <= n < 256
    ensures (n as bv8) as int == n
  {
    P.ByteValue(n);
    ByteRoundTrip(P.ToByte(n));
  }

  /**
    A stored hash with the prefix verifies only in canonical form: apart from
    the spelling of the iteration count it is the text printed for its salt and
    the derived key.
   */
  lemma VerifiedHashIsCanonical(h: Scheme, password: string, stored: string)
    requires Split(stored)[0] == PREFIX && VerifyPassword(h, password, stored)
    ensures |Split(stored)| == 4 && ParseU32(Split(stored)[1]).Some?
    ensures var count := ParseU32(Split(stored)[1]).value;
      0 < count <= MAX_ITERATIONS
      && exists salt: Salt ::
        (Split(stored)[2] == EncodeBytes(salt) && Split(stored)[3] == EncodeBytes(Derive(h, password, salt, count)))
  {
    var parts := Split(stored);
    var count := ParseU32(parts[1]).value;
    EncodeOfDecode(parts[2]);
    EncodeOfDecode(parts[3]);
    OctetsOfBytes(Decode(parts[2]).value);
    OctetsOfBytes(Decode(parts[3]).value);
    var salt: Salt := DecodeBytes(parts[2]).value;
    assert parts[2] == EncodeBytes(salt) && parts[3] == EncodeBytes(Derive(h, password, salt, count));
  }

  /** The verification as it runs: the key is derived into a buffer and compared in constant time. */
  method Verify(h: Scheme, password: string, stored: string) returns (valid: bool)
    ensures valid <==> VerifyPassword(h, password, stored)
    ensures stored != "pbkdf2-sha256" && !("pbkdf2-sha256$" <= stored) ==> (valid <==> password == stored)
  {
    MarkedMeans(stored);
    var parts := Split(stored);
    if parts[0] != PREFIX { return password == stored; }
    if |parts| != 4 { return false; }
    var iterations := ParseU32(parts[1]);
    if iterations.None? || iterations.value == 0 || iterations.value > MAX_ITERATIONS { return false; }
    var salt := DecodeBytes(parts[2]);
    if salt.None? { return false; }
    var expected := DecodeBytes(parts[3]);
    if expected.None? { return false; }
    if |salt.value| != SALT_BYTES || |expected.value| != HASH_BYTES { return false; }
    var actual := new P.Byte[|expected.value|](_ => 0);
    P.Pbkdf2HmacSha256(h.prf, h.encode(password), salt.value, iterations.value, actual);
    valid := P.ConstantTimeEq(actual[..], expected.value);
  }

  method Hash(h: Scheme, password: string, salt: Salt) returns (stored: string)
    ensures stored == HashPassword(h, password, salt)
  {
    var output := new P.Byte[HASH_BYTES](_ => 0);
    P.Pbkdf2HmacSha256(h.prf, h.encode(password), salt, ITERATIONS, output);
    stored := PREFIX + "$" + ITERATIONS_TEXT + "$" + EncodeBytes(salt) + "$" + EncodeBytes(output[..]);
  }
}
