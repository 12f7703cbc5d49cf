/** The handshake's proof of work (internal/crypto/pow.go). The hash is a parameter. */
module ProofOfWork {
  import opened Prelude

  const HASH_BITS: nat := 256
  const TWO64: nat := 0x1_0000_0000_0000_0000

  function Pow2(e: nat): (r: nat)
    ensures r > 0
  {
    if e == 0 then 1 else 2 * Pow2(e - 1)
  }

  /** The big-endian value of a byte string. */
  function Value(h: bytes): nat {
    if h == [] then 0 else h[0] as nat * Pow2(8 * (|h| - 1)) + Value(h[1..])
  }

  /** The k low bits of n, most significant first. */
  function LowBits(n: nat, k: nat): (r: seq<bool>)
    ensures |r| == k
  {
    if k == 0 then [] else LowBits(n / 2, k - 1) + [n % 2 == 1]
  }

  function Bits(h: bytes): (r: seq<bool>)
    ensures |r| == 8 * |h|
  {
    if h == [] then [] else LowBits(h[0], 8) + Bits(h[1..])
  }

  function BitsValue(s: seq<bool>): nat {
    if s == [] then 0 else (if s[0] then Pow2(|s| - 1) else 0) + BitsValue(s[1..])
  }

  ghost predicate LeadingZeros(s: seq<bool>, d: nat)
    requires d <= |s|
  {
    forall i | 0 <= i < d :: !s[i]
  }

  lemma MulAssociates(x: nat, y: nat, z: nat)
    ensures x * (y * z) == (x * y) * z
  {
  }

  lemma {:induction false} Pow2Add(m: nat, n: nat)
    ensures Pow2(m + n) == Pow2(m) * Pow2(n)
  {
    if m == 0 {
      assert Pow2(0) == 1;
    } else {
      calc {
        Pow2(m + n);
        2 * Pow2(m - 1 + n);
        { Pow2Add(m - 1, n); }
        2 * (Pow2(m - 1) * Pow2(n));
        { MulAssociates(2, Pow2(m - 1), Pow2(n)); }
        (2 * Pow2(m - 1)) * Pow2(n);
        Pow2(m) * Pow2(n);
      }
    }
  }

  lemma {:induction false} Pow2Monotone(m: nat, n: nat)
    requires m <= n
    ensures Pow2(m) <= Pow2(n)
    decreases n
  {
    if m < n { Pow2Monotone(m, n - 1); }
  }

  lemma {:induction false} BitsValueBelow(s: seq<bool>)
    ensures BitsValue(s) < Pow2(|s|)
  {
    if s != [] { BitsValueBelow(s[1..]); }
  }

  /** A value is below 2^(n-d) exactly when its first d of n bits are zero. */
  lemma {:induction false} SmallIffLeadingZeros(s: seq<bool>, d: nat)
    requires d <= |s|
    ensures BitsValue(s) < Pow2(|s| - d) <==> LeadingZeros(s, d)
  {
    if d == 0 {
      BitsValueBelow(s);
    } else {
      SmallIffLeadingZeros(s[1..], d - 1);
      Pow2Monotone(|s| - d, |s| - 1);
      assert LeadingZeros(s, d) <==> !s[0] && LeadingZeros(s[1..], d - 1) by {
        if !s[0] && LeadingZeros(s[1..], d - 1) {
          forall i | 0 <= i < d ensures !s[i] { if i > 0 { assert s[i] == s[1..][i - 1]; } }
        }
        if LeadingZeros(s, d) {
          forall i | 0 <= i < d - 1 ensures !s[1..][i] { assert s[1..][i] == s[i + 1]; }
        }
      }
    }
  }

  lemma {:induction false} BitsValueConcat(a: seq<bool>, b: seq<bool>)
    ensures BitsValue(a + b) == BitsValue(a) * Pow2(|b|) + BitsValue(b)
  {
    if a == [] {
      assert a + b == b;
    } else {
      assert (a + b)[0] == a[0] && (a + b)[1..] == a[1..] + b;
      BitsValueConcat(a[1..], b);
      Pow2Add(|a| - 1, |b|);
      Distribute(if a[0] then Pow2(|a| - 1) else 0, BitsValue(a[1..]), Pow2(|b|));
    }
  }

  lemma Distribute(x: nat, y: nat, p: nat)
    ensures (x + y) * p == x * p + y * p
  {
  }

  lemma {:induction false} LowBitsValue(n: nat, k: nat)
    requires n < Pow2(k)
    ensures BitsValue(LowBits(n, k)) == n
  {
    if k > 0 {
      LowBitsValue(n / 2, k - 1);
      BitsValueConcat(LowBits(n / 2, k - 1), [n % 2 == 1]);
      assert Pow2(1) == 2 * Pow2(0) && BitsValue([n % 2 == 1]) == n % 2;
    }
  }

  lemma {:induction false} ValueOfBits(h: bytes)
    ensures Value(h) == BitsValue(Bits(h))
  {
    if h != [] {
      ValueOfBits(h[1..]);
      assert Pow2(8) == 256;
      LowBitsValue(h[0], 8);
      BitsValueConcat(LowBits(h[0], 8), Bits(h[1..]));
    }
  }

  /** How many leading zeros a difficulty asks for: below 0 none. */
  function Zeros(difficulty: int): nat {
    if difficulty < 0 then 0 else difficulty
  }

  /** The target test on a hash is the documented one: the first d bits of the hash are zero. */
  lemma TargetTestIsLeadingZeros(h: bytes, d: int)
    requires 8 * |h| == HASH_BITS && d <= HASH_BITS
    ensures Value(h) < Pow2(HASH_BITS - d) <==> LeadingZeros(Bits(h), Zeros(d))
  {
    ValueOfBits(h);
    if d >= 0 {
      SmallIffLeadingZeros(Bits(h), d);
    } else {
      BitsValueBelow(Bits(h));
      Pow2Monotone(HASH_BITS, HASH_BITS - d);
    }
  }

  // The search -------------------------------------------------------------------------------------

  type Hash = bytes -> bytes

  function PutUint64(n: nat): bytes
    requires n < TWO64
  {
    BigEndian(n, 8)
  }

  /** The k low bytes of n, most significant first. */
  function BigEndian(n: nat, k: nat): bytes {
    if k == 0 then [] else BigEndian(n / 256, k - 1) + [n % 256]
  }

  /** SHA256(data + nonce) is below the target. */
  predicate Solves(hash: Hash, data: bytes, nonce: nat, difficulty: int)
    requires nonce < TWO64 && difficulty <= HASH_BITS
  {
    Value(hash(data + PutUint64(nonce))) < Pow2(HASH_BITS - difficulty)
  }

  method VerifyPoW(hash: Hash, data: bytes, nonce: nat, difficulty: int) returns (ok: bool)
    requires nonce < TWO64 && difficulty <= HASH_BITS
    requires forall b :: 8 * |hash(b)| == HASH_BITS
    ensures ok == Solves(hash, data, nonce, difficulty)
    ensures ok <==> LeadingZeros(Bits(hash(data + PutUint64(nonce))), Zeros(difficulty))
  {
    var target := Pow2(HASH_BITS - difficulty);
    var h := hash(data + PutUint64(nonce));
    TargetTestIsLeadingZeros(h, difficulty);
    ok := Value(h) < target;
  }

  /** The search ends as soon as some nonce solves the puzzle, and returns the least one that does. */
  method ComputePoW(hash: Hash, data: bytes, difficulty: int, ghost solution: nat) returns (nonce: nat)
    requires difficulty <= HASH_BITS
    requires solution < TWO64 && Solves(hash, data, solution, difficulty)
    ensures nonce < TWO64 && Solves(hash, data, nonce, difficulty)
    ensures forall n: nat | n < nonce :: !Solves(hash, data, n, difficulty)
  {
    nonce := 0;
    var target := Pow2(HASH_BITS - difficulty);
    while true
      invariant nonce <= solution
      invariant forall n: nat | n < nonce :: !Solves(hash, data, n, difficulty)
      decreases solution - nonce
    {
      var h := hash(data + PutUint64(nonce));
      if Value(h) < target {
        return;
      }
      nonce := nonce + 1;
    }
  }

  /** Different nonces are hashed as different strings, so no nonce can stand in for another. */
  lemma {:induction false} BigEndianInjective(m: nat, n: nat, k: nat)
    requires m < Pow2(8 * k) && n < Pow2(8 * k) && BigEndian(m, k) == BigEndian(n, k)
    ensures m == n
  {
    if k > 0 {
      var a, b := BigEndian(m, k), BigEndian(n, k);
      assert a[..|a| - 1] == BigEndian(m / 256, k - 1) && b[..|b| - 1] == BigEndian(n / 256, k - 1);
      assert a[|a| - 1] == m % 256 && b[|b| - 1] == n % 256;
      Pow2Add(8, 8 * (k - 1));
      assert Pow2(8) == 256 && Pow2(8 * k) == 256 * Pow2(8 * (k - 1));
      BigEndianInjective(m / 256, n / 256, k - 1);
    }
  }

  lemma {:induction false} ValueSnoc(b: bytes, last: byte)
    ensures Value(b + [last]) == Value(b) * 256 + last
  {
    if b == [] {
      assert Pow2(0) == 1 && b + [last] == [last] && [last][1..] == [];
    } else {
      assert (b + [last])[0] == b[0] && (b + [last])[1..] == b[1..] + [last];
      ValueSnoc(b[1..], last);
      Pow2Add(8 * (|b| - 1), 8);
      assert Pow2(8) == 256;
      MulAssociates(b[0], Pow2(8 * (|b| - 1)), 256);
      Distribute(b[0] as nat * Pow2(8 * (|b| - 1)), Value(b[1..]), 256);
    }
  }

  /** A nonce is hashed as its big-endian bytes. */
  lemma {:induction false} BigEndianValue(n: nat, k: nat)
    requires n < Pow2(8 * k)
    ensures |BigEndian(n, k)| == k && Value(BigEndian(n, k)) == n
  {
    if k > 0 {
      Pow2Add(8, 8 * (k - 1));
      assert Pow2(8) == 256;
      BigEndianValue(n / 256, k - 1);
      ValueSnoc(BigEndian(n / 256, k - 1), n % 256);
    }
  }
}
