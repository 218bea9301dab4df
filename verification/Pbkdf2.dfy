/** PBKDF2 (section 5.2 of RFC 8018) over an arbitrary pseudorandom function with 32-byte output. */
module Pbkdf2 {

  type Byte = bv8

  const H_LEN: nat := 32

  const MAX_BLOCKS: nat := 0xFFFF_FFFF

  type Digest = d: seq<Byte> | |d| == 32 witness seq(32, _ => 0)

  type Prf = (seq<Byte>, seq<Byte>) -> Digest

  function Xor(a: Digest, b: Digest): Digest {
    seq(32, i requires 0 <= i < 32 => a[i] ^ b[i])
  }

  /** The byte of value `n`. */
  function ToByte(n: int): Byte
    requires 0 <= n < 256
    decreases n
  {
    if n == 0 then 0 else ToByte(n - 1) + 1
  }

  lemma {:induction false} ByteValue(n: int)
    requires 0 <= n < 256
    ensures ToByte(n) as int == n
    decreases n
  {
    if n > 0 {
      ByteValue(n - 1);
      Successor(ToByte(n - 1));
    }
  }

  lemma Successor(b: bv8)
    requires b as int < 255
    ensures (b + 1) as int == b as int + 1
  {
  }

  /** INT (i): the block number as four bytes, most significant first. */
  function BigEndian(i: nat): seq<Byte>
    requires i <= MAX_BLOCKS
  {
    [ToByte(i / 0x100_0000), ToByte(i / 0x1_0000 % 0x100), ToByte(i / 0x100 % 0x100), ToByte(i % 0x100)]
  }

  /** U_1 = PRF (P, S || INT (i)), U_j = PRF (P, U_{j-1}). */
  function U(prf: Prf, password: seq<Byte>, salt: seq<Byte>, i: nat, j: nat): Digest
    requires i <= MAX_BLOCKS && j >= 1
    decreases j
  {
    if j == 1 then prf(password, salt + BigEndian(i)) else prf(password, U(prf, password, salt, i, j - 1))
  }

  /** F (P, S, c, i) = U_1 xor U_2 xor ... xor U_c. */
  function F(prf: Prf, password: seq<Byte>, salt: seq<Byte>, c: nat, i: nat): Digest
    requires i <= MAX_BLOCKS && c >= 1
    decreases c
  {
    if c == 1 then U(prf, password, salt, i, 1)
    else Xor(F(prf, password, salt, c - 1, i), U(prf, password, salt, i, c))
  }

  /** T_1 || ... || T_n. */
  function Blocks(prf: Prf, password: seq<Byte>, salt: seq<Byte>, c: nat, n: nat): (r: seq<Byte>)
    requires n <= MAX_BLOCKS && c >= 1
    ensures |r| == n * H_LEN
  {
    if n == 0 then [] else Blocks(prf, password, salt, c, n - 1) + F(prf, password, salt, c, n)
  }

  /** l = CEIL (dkLen / hLen). */
  function BlockCount(length: nat): nat {
    (length + H_LEN - 1) / H_LEN
  }

  /** DK = the first dkLen bytes of T_1 || ... || T_l. */
  function DerivedKey(prf: Prf, password: seq<Byte>, salt: seq<Byte>, c: nat, length: nat): (r: seq<Byte>)
    requires BlockCount(length) <= MAX_BLOCKS && c >= 1
    ensures |r| == length
  {
    Blocks(prf, password, salt, c, BlockCount(length))[..length]
  }

  /** The rounds the loops perform: a count of zero still computes the first. */
  function Rounds(iterations: nat): nat {
    if iterations == 0 then 1 else iterations
  }

  /** `result` is combined byte by byte with `u`. */
  method XorInto(result: array<Byte>, u: Digest)
    requires result.Length == 32
    modifies result
    ensures result[..] == Xor(old(result[..]), u)
  {
    for i := 0 to 32
      invariant forall k | 0 <= k < i :: result[k] == old(result[k]) ^ u[k]
      invariant forall k | i <= k < 32 :: result[k] == old(result[k])
    {
      result[i] := result[i] ^ u[i];
    }
  }

  method ToArray(u: Digest) returns (copy: array<Byte>)
    ensures fresh(copy) && copy[..] == u
  {
    copy := new Byte[32](k requires 0 <= k < 32 => u[k]);
  }

  /** One output block. */
  method Block(prf: Prf, password: seq<Byte>, salt: seq<Byte>, iterations: nat, number: nat)
    returns (result: array<Byte>)
    requires number <= MAX_BLOCKS
    ensures fresh(result) && result.Length == 32
    ensures result[..] == F(prf, password, salt, Rounds(iterations), number)
  {
    var u := prf(password, salt + BigEndian(number));
    result := ToArray(u);
    var j := 1;
    while j < iterations
      invariant 1 <= j <= Rounds(iterations)
      invariant u == U(prf, password, salt, number, j)
      invariant result[..] == F(prf, password, salt, j, number)
    {
      u := prf(password, u);
      XorInto(result, u);
      j := j + 1;
    }
  }

  /** `before` with `block` written from `start` on, as far as it fits. */
  function Overwritten(before: seq<Byte>, start: nat, block: Digest): seq<Byte> {
    seq(|before|, k requires 0 <= k < |before| => if start <= k < start + H_LEN then block[k - start] else before[k])
  }

  /** `chunk.copy_from_slice`: the chunk at `start`, which may be short. */
  method CopyChunk(output: array<Byte>, start: nat, result: array<Byte>)
    requires start <= output.Length && result.Length == H_LEN && output != result
    modifies output
    ensures output[..] == Overwritten(old(output[..]), start, result[..])
  {
    var width := if output.Length - start < H_LEN then output.Length - start else H_LEN;
    forall k | 0 <= k < width {
      output[start + k] := result[k];
    }
  }

  /** How much of an output of the given length the first `n` blocks fill. */
  function Reach(n: nat, length: nat): nat {
    if n * H_LEN < length then n * H_LEN else length
  }

  /** One more chunk extends what has been written by one more block. */
  lemma ChunkDone(before: seq<Byte>, blocks: seq<Byte>, block: Digest)
    requires |blocks| <= |before| && before[..|blocks|] == blocks
    ensures var after := Overwritten(before, |blocks|, block);
      var end := if |blocks| + H_LEN < |after| then |blocks| + H_LEN else |after|;
      after[..end] == (blocks + block)[..end]
  {
    assert forall k | 0 <= k < |blocks| :: blocks[k] == before[k];
  }

  lemma BlocksNeeded(n: nat, length: nat)
    ensures n * H_LEN < length ==> n + 1 <= BlockCount(length)
    ensures n * H_LEN >= length && n <= BlockCount(length) ==> n == BlockCount(length)
  {
  }

  /** Writes the derived key into the output, chunk by chunk; the last chunk may be short. */
  method Pbkdf2HmacSha256(prf: Prf, password: seq<Byte>, salt: seq<Byte>, iterations: nat, output: array<Byte>)
    requires BlockCount(output.Length) <= MAX_BLOCKS
    modifies output
    ensures output[..] == DerivedKey(prf, password, salt, Rounds(iterations), output.Length)
  {
    var index := 0;
    ghost var c := Rounds(iterations);
    while index * H_LEN < output.Length
      invariant index <= BlockCount(output.Length)
      invariant output[..Reach(index, output.Length)]
             == Blocks(prf, password, salt, c, index)[..Reach(index, output.Length)]
      decreases BlockCount(output.Length) - index
    {
      BlocksNeeded(index, output.Length);
      var result := Block(prf, password, salt, iterations, index + 1);
      ghost var before := output[..];
      CopyChunk(output, index * H_LEN, result);
      ChunkDone(before, Blocks(prf, password, salt, c, index), result[..]);
      index := index + 1;
    }
    BlocksNeeded(index, output.Length);
  }

  /** Compares without stopping at the first difference. */
  method ConstantTimeEq(left: seq<Byte>, right: seq<Byte>) returns (equal: bool)
    ensures equal <==> left == right
  {
    if |left| != |right| {
      return false;
    }
    var difference: bv8 := 0;
    for i := 0 to |left|
      invariant difference == 0 <==> left[..i] == right[..i]
    {
      OrIsZero(difference, left[i], right[i]);
      assert left[..i + 1] == left[..i] + [left[i]] && right[..i + 1] == right[..i] + [right[i]];
      difference := difference | (left[i] ^ right[i]);
    }
    assert left[..|left|] == left && right[..|right|] == right;
    equal := difference == 0;
  }

  lemma OrIsZero(d: bv8, a: bv8, b: bv8)
    ensures d | (a ^ b) == 0 <==> d == 0 && a == b
  {
  }

  /** Byte k of the derived key is byte k mod 32 of block k div 32 + 1, so keys of different lengths share a prefix. */
  lemma {:induction false} BlocksAt(prf: Prf, password: seq<Byte>, salt: seq<Byte>, c: nat, n: nat, k: nat)
    requires n <= MAX_BLOCKS && c >= 1 && k < n * H_LEN
    ensures k / H_LEN + 1 <= MAX_BLOCKS
    ensures Blocks(prf, password, salt, c, n)[k] == F(prf, password, salt, c, k / H_LEN + 1)[k % H_LEN]
  {
    if k < (n - 1) * H_LEN {
      BlocksAt(prf, password, salt, c, n - 1, k);
    } else {
      assert k / H_LEN == n - 1;
    }
  }

  lemma DerivedKeyAt(prf: Prf, password: seq<Byte>, salt: seq<Byte>, c: nat, length: nat, k: nat)
    requires BlockCount(length) <= MAX_BLOCKS && c >= 1 && k < length
    ensures k / H_LEN + 1 <= MAX_BLOCKS
    ensures DerivedKey(prf, password, salt, c, length)[k] == F(prf, password, salt, c, k / H_LEN + 1)[k % H_LEN]
  {
    BlocksAt(prf, password, salt, c, BlockCount(length), k);
  }

  /** The four bytes of a block number, read most significant first, give the number. */
  lemma BigEndianIsRead(i: nat)
    requires i <= MAX_BLOCKS
    ensures var b := BigEndian(i);
      |b| == 4 && 0x100_0000 * (b[0] as int) + 0x1_0000 * (b[1] as int) + 0x100 * (b[2] as int) + (b[3] as int) == i
  {
    ByteValue(i / 0x100_0000);
    ByteValue(i / 0x1_0000 % 0x100);
    ByteValue(i / 0x100 % 0x100);
    ByteValue(i % 0x100);
    FourDigits(i);
  }

  lemma FourDigits(i: int)
    ensures 0x100_0000 * (i / 0x100_0000) + 0x1_0000 * (i / 0x1_0000 % 0x100)
            + 0x100 * (i / 0x100 % 0x100) + i % 0x100 == i
  {
  }

  /** A short key of one iteration is the start of the PRF of the password over the salt and the number one. */
  lemma OneIteration(prf: Prf, password: seq<Byte>, salt: seq<Byte>, length: nat)
    requires 0 < length <= 32
    ensures DerivedKey(prf, password, salt, 1, length) == prf(password, salt + [0, 0, 0, 1])[..length]
  {
    assert BigEndian(1) == [0, 0, 0, 1];
    assert Blocks(prf, password, salt, 1, 0) == [];
    assert Blocks(prf, password, salt, 1, 1) == F(prf, password, salt, 1, 1);
  }

  /** Each iteration applies the PRF of the password to the previous result and combines the two bit by bit. */
  lemma OneMoreIteration(prf: Prf, password: seq<Byte>, salt: seq<Byte>, c: nat, i: nat, k: nat)
    requires i <= MAX_BLOCKS && c >= 1 && k < 32
    ensures U(prf, password, salt, i, c + 1) == prf(password, U(prf, password, salt, i, c))
    ensures F(prf, password, salt, c + 1, i)[k] == F(prf, password, salt, c, i)[k] ^ U(prf, password, salt, i, c + 1)[k]
    ensures F(prf, password, salt, 1, i) == U(prf, password, salt, i, 1) == prf(password, salt + BigEndian(i))
  {
  }
}
