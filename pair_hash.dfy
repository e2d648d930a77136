/**
 * The key type of the h^2 table: a pair of facts with its hash. The struct
 * stores the hash computed from the two facts at construction and never
 * reassigns either fact, so the stored value is always `ComputeHash(first,
 * second)`; the model computes it on demand.
 */
module HTwoPair {
  import opened Facts

  /** The prime used by both hash functions. */
  const MOD: int := 100003

  /** Arithmetic on std::size_t wraps modulo 2^64. */
  const SIZE_RANGE: int := 0x1_0000_0000_0000_0000

  /** Conversion of a (possibly negative) int to std::size_t. */
  function ToSize(x: int): (r: int)
    ensures 0 <= r < SIZE_RANGE
    ensures (x - r) % SIZE_RANGE == 0
  {
    x % SIZE_RANGE
  }

  datatype Pair = Pair(first: FactPair, second: FactPair) {

    /** operator==: both facts agree, in order. */
    predicate Equals(other: Pair)
    {
      first == other.first && second == other.second
    }

    /** The hash stored in the struct. */
    function Hash(): int
    {
      ComputeHash(first, second)
    }
  }

  /** compute_hash: the two facts are hashed separately in int, converted to
      size_t, and combined as h2 * MOD + h1 in size_t arithmetic. */
  function ComputeHash(f1: FactPair, f2: FactPair): (h: int)
    ensures 0 <= h < SIZE_RANGE
    ensures h == ((f2.variable * MOD + f2.value) * MOD + (f1.variable * MOD + f1.value)) % SIZE_RANGE
  {
    var h1 := ToSize(f1.variable * MOD + f1.value);
    var h2 := ToSize(f2.variable * MOD + f2.value);
    WrapCombine(f2.variable * MOD + f2.value, h2, f1.variable * MOD + f1.value, h1);
    (h2 * MOD + h1) % SIZE_RANGE
  }

  /** Wrapping the two halves first does not change the wrapped result. */
  lemma {:induction false} WrapCombine(a: int, ha: int, b: int, hb: int)
    requires ha == a % SIZE_RANGE && hb == b % SIZE_RANGE
    ensures (ha * MOD + hb) % SIZE_RANGE == (a * MOD + b) % SIZE_RANGE
  {
    var qa := a / SIZE_RANGE;
    var qb := b / SIZE_RANGE;
    assert a == qa * SIZE_RANGE + ha;
    assert b == qb * SIZE_RANGE + hb;
    assert a * MOD + b == (ha * MOD + hb) + (qa * MOD + qb) * SIZE_RANGE;
    ModShift(ha * MOD + hb, qa * MOD + qb);
  }

  lemma {:induction false} ModShift(x: int, k: int)
    ensures (x + k * SIZE_RANGE) % SIZE_RANGE == x % SIZE_RANGE
  {
    var q := x / SIZE_RANGE;
    var r := x % SIZE_RANGE;
    assert x + k * SIZE_RANGE == (q + k) * SIZE_RANGE + r;
  }

  /** PairHash: the stored hash. */
  function PairHash(p: Pair): (h: int)
    ensures 0 <= h < SIZE_RANGE
    ensures h == ComputeHash(p.first, p.second)
  {
    p.Hash()
  }

  /** FactPairHash: var * MOD + value, converted to size_t. */
  function FactPairHash(f: FactPair): (h: int)
    ensures 0 <= h < SIZE_RANGE
    ensures (h - (f.variable * MOD + f.value)) % SIZE_RANGE == 0
  {
    ToSize(f.variable * MOD + f.value)
  }

  /** Pairs that are equal under operator== have equal hashes, so the
      unordered_map finds an entry under any equal key. */
  lemma {:induction false} EqualPairsHashEqually(a: Pair, b: Pair)
    requires a.Equals(b)
    ensures a == b && PairHash(a) == PairHash(b)
  {
  }

  /** operator== is order-sensitive: swapping two different facts gives a
      different key. */
  lemma {:induction false} PairOrderMatters(f: FactPair, s: FactPair)
    requires f != s
    ensures !Pair(f, s).Equals(Pair(s, f))
  {
  }

  /** On facts of a task whose domains have fewer than MOD values, and with
      fewer than 2^47 variables, FactPairHash has no collisions. */
  lemma {:induction false} FactPairHashInjective(a: FactPair, b: FactPair)
    requires 0 <= a.variable < 0x8000_0000_0000 && 0 <= a.value < MOD
    requires 0 <= b.variable < 0x8000_0000_0000 && 0 <= b.value < MOD
    requires FactPairHash(a) == FactPairHash(b)
    ensures a == b
  {
    var ha := a.variable * MOD + a.value;
    var hb := b.variable * MOD + b.value;
    assert 0 <= ha < SIZE_RANGE by {
      assert a.variable * MOD <= (0x8000_0000_0000 - 1) * MOD;
    }
    assert 0 <= hb < SIZE_RANGE by {
      assert b.variable * MOD <= (0x8000_0000_0000 - 1) * MOD;
    }
    assert FactPairHash(a) == ha;
    assert FactPairHash(b) == hb;
  }

  /** The largest value of a 32-bit int. */
  const INT_MAX: int := 0x7FFF_FFFF

  /** When var * MOD + value fits in an int, the source's int intermediate
      does not overflow, the conversion to size_t keeps it, and FactPairHash
      has no collisions on such facts. */
  lemma {:induction false} FactPairHashInjectiveInInt(a: FactPair, b: FactPair)
    requires 0 <= a.variable && 0 <= a.value < MOD && a.variable * MOD + a.value <= INT_MAX
    requires 0 <= b.variable && 0 <= b.value < MOD && b.variable * MOD + b.value <= INT_MAX
    requires FactPairHash(a) == FactPairHash(b)
    ensures FactPairHash(a) == a.variable * MOD + a.value
    ensures FactPairHash(b) == b.variable * MOD + b.value
    ensures a == b
  {
    assert a.variable <= a.variable * MOD;
    assert b.variable <= b.variable * MOD;
    FactPairHashInjective(a, b);
    assert FactPairHash(a) == a.variable * MOD + a.value;
  }
}
