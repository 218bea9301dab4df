/**
  Which stored texts accept which passwords, and what a login leaves stored, in
  terms of the text alone.
 */
module PasswordTexts {
  import opened Wrappers
  import opened StoredHash
  import P = Pbkdf2

  type Key = k: seq<P.Byte> | |k| == 32 witness seq(32, _ => 0)

  /** A hash as it is stored, with its iteration count spelled `count`. */
  function Text(count: string, salt: Salt, key: Key): string {
    "pbkdf2-sha256" + "$" + count + "$" + EncodeBytes(salt) + "$" + EncodeBytes(key)
  }

  /** The count as it is printed. */
  function Decimal(n: nat): string {
    if n < 10 then ['0' + n as char] else Decimal(n / 10) + ['0' + (n % 10) as char]
  }

  lemma {:induction false} DecimalIsRead(n: nat)
    ensures DigitsValue(Decimal(n)) == Some(n)
    ensures Decimal(n) != [] && (forall c <- Decimal(n) :: '0' <= c <= '9')
  {
    var front := if n < 10 then [] else Decimal(n / 10);
    var last := '0' + (n % 10) as char;
    if n >= 10 {
      DecimalIsRead(n / 10);
    }
    assert Decimal(n) == front + [last];
    assert (front + [last])[..|front|] == front;
  }

  lemma DecimalParses(n: nat)
    requires n <= 0xFFFF_FFFF
    ensures ParseU32(Decimal(n)) == Some(n)
    ensures '$' !in Decimal(n)
  {
    DecimalIsRead(n);
    assert Decimal(n)[0] in Decimal(n);
  }

  lemma {:induction false} DigitsOnly(digits: string)
    requires DigitsValue(digits).Some?
    ensures forall c <- digits :: '0' <= c <= '9'
  {
    if digits != [] {
      var n := |digits| - 1;
      DigitsOnly(digits[..n]);
      assert digits == digits[..n] + [digits[n]];
    }
  }

  lemma CountHasNoSeparator(count: string)
    requires ParseU32(count).Some?
    ensures '$' !in count
  {
    var digits := if count[0] == '+' then count[1..] else count;
    DigitsOnly(digits);
    assert count == digits || count == ['+'] + digits;
  }

  lemma TextIsRead(count: string, salt: Salt, key: Key)
    requires ParseU32(count).Some?
    ensures Split(Text(count, salt, key)) == [PREFIX, count, EncodeBytes(salt), EncodeBytes(key)]
    ensures DecodeBytes(EncodeBytes(salt)) == Some(salt) && DecodeBytes(EncodeBytes(key)) == Some(key)
  {
    CountHasNoSeparator(count);
    DecodeOfEncodeBytes(salt);
    DecodeOfEncodeBytes(key);
    SplitFour(PREFIX, count, EncodeBytes(salt), EncodeBytes(key));
  }

  /** A stored hash accepts a password iff the password derives its key with its salt and its count, up to a million. */
  lemma TextVerifies(h: Scheme, password: string, count: string, salt: Salt, key: Key)
    requires ParseU32(count).Some?
    ensures var n := ParseU32(count).value;
      VerifyPassword(h, password, Text(count, salt, key))
      <==> 1 <= n <= 1_000_000 && Derive(h, password, salt, n) == key
  {
    TextIsRead(count, salt, key);
  }

  /** In particular with the count in plain decimal. */
  lemma PrintedTextVerifies(h: Scheme, password: string, n: nat, salt: Salt, key: Key)
    requires 1 <= n <= 1_000_000
    ensures VerifyPassword(h, password, Text(Decimal(n), salt, key)) <==> Derive(h, password, salt, n) == key
  {
    DecimalParses(n);
    TextVerifies(h, password, Decimal(n), salt, key);
  }

  function Join(parts: seq<string>): string {
    if parts == [] then [] else if |parts| == 1 then parts[0] else parts[0] + "$" + Join(parts[1..])
  }

  lemma {:induction false} SplitJoins(text: string)
    ensures Join(Split(text)) == text
  {
    if text != [] {
      var rest := Split(text[1..]);
      SplitJoins(text[1..]);
      if text[0] == '$' {
        assert Split(text)[1..] == rest;
        assert text == "$" + text[1..];
      } else {
        assert Split(text)[1..] == rest[1..];
        assert text == [text[0]] + text[1..];
      }
    }
  }

  lemma FourFields(text: string)
    requires |Split(text)| == 4
    ensures var f := Split(text); text == f[0] + "$" + f[1] + "$" + f[2] + "$" + f[3]
  {
    var f := Split(text);
    SplitJoins(text);
    assert f[1..][1..] == f[2..] && f[2..][1..] == f[3..];
    assert Join(f[3..]) == f[3];
    assert Join(f[2..]) == f[2] + "$" + f[3];
    assert Join(f[1..]) == f[1] + "$" + (f[2] + "$" + f[3]);
    assert f[0] + "$" + (f[1] + "$" + (f[2] + "$" + f[3])) == f[0] + "$" + f[1] + "$" + f[2] + "$" + f[3];
  }

  /** A marked text that accepts a password is the text of some salt, some count and the key the password derives. */
  lemma AcceptedText(h: Scheme, password: string, stored: string) returns (count: string, n: nat, salt: Salt)
    requires Split(stored)[0] == PREFIX && VerifyPassword(h, password, stored)
    ensures ParseU32(count) == Some(n) && 1 <= n <= 1_000_000
    ensures count == Split(stored)[1]
    ensures stored == Text(count, salt, Derive(h, password, salt, n))
  {
    VerifiedHashIsCanonical(h, password, stored);
    FourFields(stored);
    count := Split(stored)[1];
    n := ParseU32(count).value;
    var s: Salt :| Split(stored)[2] == EncodeBytes(s) && Split(stored)[3] == EncodeBytes(Derive(h, password, s, n));
    salt := s;
  }

  /** What hashing prints. */
  lemma HashIsText(h: Scheme, password: string, salt: Salt)
    ensures HashPassword(h, password, salt) == Text("600000", salt, Derive(h, password, salt, 600_000))
  {
  }

  /**
    Whatever was stored, a successful login leaves the text of a key the password
    derives with at least 600000 iterations; a failed one leaves what was there.
   */
  lemma LoginLeavesStrongHash(h: Scheme, password: string, stored: string, drawn: Salt)
    returns (count: string, n: nat, salt: Salt)
    ensures var (accepted, left) := Login(h, password, stored, drawn);
      && (accepted <==> VerifyPassword(h, password, stored))
      && (!accepted ==> left == stored)
      && (accepted ==>
            && ParseU32(count) == Some(n) && 600_000 <= n <= 1_000_000
            && left == Text(count, salt, Derive(h, password, salt, n)))
  {
    count, n, salt := ITERATIONS_TEXT, ITERATIONS, drawn;
    IterationsTextParses();
    if VerifyPassword(h, password, stored) && !PasswordNeedsUpgrade(stored) {
      count, n, salt := AcceptedText(h, password, stored);
    }
  }

  /** A stored hash of at least 600000 iterations is not rewritten. */
  lemma StrongHashIsKept(h: Scheme, password: string, count: string, salt: Salt, key: Key, drawn: Salt)
    requires ParseU32(count).Some? && ParseU32(count).value >= 600_000
    ensures Login(h, password, Text(count, salt, key), drawn).1 == Text(count, salt, key)
  {
    TextIsRead(count, salt, key);
  }
}
