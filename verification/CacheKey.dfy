/** The cache key of src/runtime_cache.rs. */
module CacheKey {
  import opened Prelude

  // ----- 64-bit FNV-1a, with the wrap-around written out -----

  const WRAP: int := 0x1_0000_0000_0000_0000

  type Hash = h: int | 0 <= h < WRAP

  const FNV_OFFSET: Hash := 0xcbf29ce484222325

  /** Exclusive or of the lowest `bits` bits. */
  function Xor(a: nat, b: nat, bits: nat): (r: nat)
    decreases bits
  {
    if bits == 0 then 0
    else (if a % 2 == b % 2 then 0 else 1) + 2 * Xor(a / 2, b / 2, bits - 1)
  }

  function Bit(n: nat, k: nat): nat {
    if k == 0 then n % 2 else Bit(n / 2, k - 1)
  }

  /** A bit is set exactly if it is set in one of the two. */
  lemma {:induction false} XorBits(a: nat, b: nat, bits: nat, k: nat)
    requires k < bits
    ensures Bit(Xor(a, b, bits), k) == 1 <==> Bit(a, k) != Bit(b, k)
  {
    if k > 0 {
      XorBits(a / 2, b / 2, bits - 1, k - 1);
    }
  }

  function Power2(bits: nat): nat {
    if bits == 0 then 1 else 2 * Power2(bits - 1)
  }

  lemma {:induction false} XorBound(a: nat, b: nat, bits: nat)
    ensures Xor(a, b, bits) < Power2(bits)
  {
    if bits > 0 {
      XorBound(a / 2, b / 2, bits - 1);
    }
  }

  lemma LowByteFits(hash: Hash, low: Byte)
    ensures 0 <= hash / 256 * 256 + low < WRAP
    ensures (hash / 256 * 256 + low) / 256 == hash / 256
  {
    var high := hash / 256;
    assert high < 0x100_0000_0000_0000;
  }

  function LowXor(hash: Hash, byte: Byte): Byte {
    XorBound(hash % 256, byte, 8);
    assert Power2(8) == 256;
    Xor(hash % 256, byte, 8)
  }

  /** XOR with a byte changes the low eight bits only. */
  function XorByte(hash: Hash, byte: Byte): (r: Hash)
    ensures r / 256 == hash / 256
  {
    LowByteFits(hash, LowXor(hash, byte));
    hash / 256 * 256 + LowXor(hash, byte)
  }

  function MulPrime(x: Hash): Hash {
    x * 0x100000001b3 % WRAP
  }

  function FnvStep(hash: Hash, byte: Byte): Hash {
    MulPrime(XorByte(hash, byte))
  }

  type Step = (Hash, Byte) -> Hash

  /** Folding a byte string into a hash, byte by byte. */
  function Folded(step: Step, hash: Hash, bytes: seq<Byte>): Hash
    decreases |bytes|
  {
    if bytes == [] then hash else Folded(step, step(hash, bytes[0]), bytes[1..])
  }

  function AsmHash(asm: seq<Byte>): Hash {
    Folded(FnvStep, FNV_OFFSET, asm)
  }

  method RuntimeAsmHash(asm: seq<Byte>) returns (hash: Hash)
    ensures hash == AsmHash(asm)
  {
    hash := FNV_OFFSET;
    for i := 0 to |asm|
      invariant Folded(FnvStep, hash, asm[i..]) == AsmHash(asm)
    {
      assert asm[i..][0] == asm[i] && asm[i..][1..] == asm[i + 1..];
      hash := XorByte(hash, asm[i]);
      hash := MulPrime(hash);
    }
    assert asm[|asm|..] == [];
  }

  // ----- a step can be undone -----

  /** The multiplicative inverse of the FNV prime modulo 2^64. */
  const FNV_PRIME_INVERSE: int := 0xce965057aff6957b

  lemma MulPrimeUndone(x: Hash)
    ensures MulPrime(x) * FNV_PRIME_INVERSE % WRAP == x
  {
    var d := x * 0x100000001b3 / WRAP;
    var multiple := 887285111055 * x - d * FNV_PRIME_INVERSE;
    assert MulPrime(x) == x * 0x100000001b3 - d * WRAP;
    assert MulPrime(x) * FNV_PRIME_INVERSE == x + multiple * WRAP;
    ModuloOf(x, multiple);
  }

  lemma ModuloOf(x: Hash, multiple: int)
    ensures (x + multiple * WRAP) % WRAP == x
  {
  }

  /** XOR with the same left or right operand is injective. */
  lemma {:induction false} XorInjective(a: nat, b: nat, a': nat, b': nat, bits: nat)
    requires Xor(a, b, bits) == Xor(a', b', bits)
    requires a < Power2(bits) && b < Power2(bits) && a' < Power2(bits) && b' < Power2(bits)
    ensures b == b' ==> a == a'
    ensures a == a' ==> b == b'
  {
    if bits > 0 {
      XorInjective(a / 2, b / 2, a' / 2, b' / 2, bits - 1);
    }
  }

  lemma XorByteInjective(h1: Hash, b1: Byte, h2: Hash, b2: Byte)
    requires XorByte(h1, b1) == XorByte(h2, b2)
    ensures b1 == b2 ==> h1 == h2
    ensures h1 == h2 ==> b1 == b2
  {
    assert Power2(8) == 256;
    XorInjective(h1 % 256, b1, h2 % 256, b2, 8);
  }

  /** A step forgets neither the hash nor the byte. */
  lemma StepInjective(h1: Hash, b1: Byte, h2: Hash, b2: Byte)
    requires FnvStep(h1, b1) == FnvStep(h2, b2)
    ensures b1 == b2 ==> h1 == h2
    ensures h1 == h2 ==> b1 == b2
  {
    MulPrimeUndone(XorByte(h1, b1));
    MulPrimeUndone(XorByte(h2, b2));
    XorByteInjective(h1, b1, h2, b2);
  }

  /** A step that forgets neither the hash nor the byte. */
  ghost predicate Injective(step: Step) {
    forall h1, b1, h2, b2 :: step(h1, b1) == step(h2, b2) ==> (h1 == h2 <==> b1 == b2)
  }

  lemma FnvIsInjective()
    ensures Injective(FnvStep)
  {
    forall h1: Hash, b1: Byte, h2: Hash, b2: Byte | FnvStep(h1, b1) == FnvStep(h2, b2) ensures h1 == h2 <==> b1 == b2 {
      StepInjective(h1, b1, h2, b2);
    }
  }

  lemma {:induction false} SuffixInjective(step: Step, h1: Hash, h2: Hash, bytes: seq<Byte>)
    requires Injective(step) && h1 != h2
    ensures Folded(step, h1, bytes) != Folded(step, h2, bytes)
    decreases |bytes|
  {
    if bytes != [] {
      SuffixInjective(step, step(h1, bytes[0]), step(h2, bytes[0]), bytes[1..]);
    }
  }

  lemma {:induction false} OneByteChanges(step: Step, hash: Hash, asm: seq<Byte>, i: nat, b: Byte)
    requires Injective(step) && i < |asm| && asm[i] != b
    ensures Folded(step, hash, asm[i := b]) != Folded(step, hash, asm)
    decreases |asm|
  {
    var changed := asm[i := b];
    if i == 0 {
      assert changed[1..] == asm[1..];
      SuffixInjective(step, step(hash, b), step(hash, asm[0]), asm[1..]);
    } else {
      assert changed[1..] == asm[1..][i - 1 := b];
      OneByteChanges(step, step(hash, asm[0]), asm[1..], i - 1, b);
    }
  }

  /** Changing one byte of the assembly always changes its hash. */
  lemma OneByteChangesHash(asm: seq<Byte>, i: nat, b: Byte)
    requires i < |asm| && asm[i] != b
    ensures AsmHash(asm[i := b]) != AsmHash(asm)
  {
    FnvIsInjective();
    OneByteChanges(FnvStep, FNV_OFFSET, asm, i, b);
  }

  lemma XorByteOf25And61()
    ensures XorByte(FNV_OFFSET, 0x61) == 0xcbf29ce484222344
  {
    assert Xor(0, 0, 1) == 0 && Xor(0, 1, 2) == 1 && Xor(1, 3, 3) == 2;
    assert Xor(2, 6, 4) == 4 && Xor(4, 12, 5) == 8 && Xor(9, 24, 6) == 17;
    assert Xor(18, 48, 7) == 34 && Xor(0x25, 0x61, 8) == 0x44;
  }

  lemma StepOf61()
    ensures FnvStep(FNV_OFFSET, 0x61) == 0xaf63dc4c8601ec8c
  {
    XorByteOf25And61();
    hide XorByte;
  }

  lemma OneStep(step: Step, hash: Hash, b: Byte)
    ensures Folded(step, hash, []) == hash && Folded(step, hash, [b]) == step(hash, b)
  {
    assert [b][1..] == [];
  }

  /** The published hashes of the empty string and of "a" (draft-eastlake-fnv, appendix C). */
  lemma KnownHashes()
    ensures AsmHash([]) == 0xcbf29ce484222325 && AsmHash([0x61]) == 0xaf63dc4c8601ec8c
  {
    StepOf61();
    hide FnvStep;
    OneStep(FnvStep, FNV_OFFSET, 0x61);
  }
}
