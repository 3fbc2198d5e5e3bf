/** internal/routing/sticky.go: which cluster owns a partition in load_balance mode.
    The hash is FNV-1a, 64 bits, of the topic's bytes followed by the partition
    number in big-endian, reduced to a percentage. */
module StickyRouting {
  import opened Wire

  const FNV_OFFSET: nat := 14695981039346656037
  const FNV_PRIME: nat := 1099511628211
  const TWO_64: nat := 0x1_0000_0000_0000_0000

  datatype Cluster = Primary | Secondary

  /** Exclusive or of the low `bits` bits. */
  function Xor(a: nat, b: nat, bits: nat): nat {
    if bits == 0 then 0 else (if a % 2 == b % 2 then 0 else 1) + 2 * Xor(a / 2, b / 2, bits - 1)
  }

  /** Exclusive or of a byte into the low byte. */
  function Mixed(h: nat, b: byte): nat {
    h - h % 0x100 + Xor(h % 0x100, b as nat, 8)
  }

  /** One step of the hash; the multiplication is on 64 bits. */
  function Mix(h: nat, b: byte): nat {
    Mixed(h, b) * FNV_PRIME % TWO_64
  }

  function Fold(mix: (nat, byte) -> nat, h: nat, data: Bytes): nat {
    if data == [] then h else mix(Fold(mix, h, data[..|data| - 1]), data[|data| - 1])
  }

  function Fnv1a(h: nat, data: Bytes): nat {
    Fold(Mix, h, data)
  }

  function HashKey(key: Bytes): (percent: int)
    ensures 0 <= percent < 100
  {
    Fnv1a(FNV_OFFSET, key) % 100
  }

  function StickyHash(topic: Bytes, partition: int32): (percent: int)
    ensures 0 <= percent < 100
  {
    HashKey(topic + Put32(partition))
  }

  function Owner(primaryWeight: int, topic: Bytes, partition: int32): Cluster {
    if StickyHash(topic, partition) < primaryWeight then Primary else Secondary
  }

  /** Feeding a hasher piece by piece is hashing the pieces in one. */
  lemma {:induction false} FoldAppend(mix: (nat, byte) -> nat, h: nat, a: Bytes, b: Bytes)
    ensures Fold(mix, Fold(mix, h, a), b) == Fold(mix, h, a + b)
  {
    if b == [] {
      assert a + b == a;
    } else {
      FoldAppend(mix, h, a, b[..|b| - 1]);
      assert (a + b)[..|a + b| - 1] == a + b[..|b| - 1];
    }
  }

  lemma FoldStep(mix: (nat, byte) -> nat, h: nat, data: Bytes, i: nat)
    requires i < |data|
    ensures Fold(mix, h, data[..i + 1]) == mix(Fold(mix, h, data[..i]), data[i])
  {
    assert data[..i + 1][..i] == data[..i];
  }

  class Hasher {
    var sum: nat

    constructor ()
      ensures sum == FNV_OFFSET
    {
      sum := FNV_OFFSET;
    }

    method Write(data: Bytes)
      modifies this
      ensures sum == Fnv1a(old(sum), data)
    {
      for i := 0 to |data|
        invariant sum == Fold(Mix, old(sum), data[..i])
      {
        FoldStep(Mix, old(sum), data, i);
        sum := Mix(sum, data[i]);
      }
      assert data[..|data|] == data;
    }
  }

  method ComputeStickyHash(topic: Bytes, partition: int32) returns (percent: int)
    ensures percent == StickyHash(topic, partition) == Fnv1a(0xcbf2_9ce4_8422_2325, topic + Put32(partition)) % 100
  {
    var h := new Hasher();
    h.Write(topic);
    h.Write(Put32(partition));
    FoldAppend(Mix, FNV_OFFSET, topic, Put32(partition));
    percent := h.sum % 100;
  }

  /** Raising the primary's weight takes partitions from the secondary only, and just
      those whose hash lies between the two weights; the rest keep their owner. */
  lemma RaisingMovesOnlyToPrimary(weight: int, weight': int, topic: Bytes, partition: int32)
    requires weight <= weight'
    ensures Owner(weight, topic, partition) == Primary ==> Owner(weight', topic, partition) == Primary
    ensures Owner(weight, topic, partition) != Owner(weight', topic, partition)
       <==> weight <= StickyHash(topic, partition) < weight'
  {
  }

  lemma ExtremeWeights(weight: int, topic: Bytes, partition: int32)
    ensures weight <= 0 ==> Owner(weight, topic, partition) == Secondary
    ensures weight >= 100 ==> Owner(weight, topic, partition) == Primary
  {
  }

  // --------------------------------------------------------------- what is hashed

  function Pow2(n: nat): (p: nat)
    ensures p > 0
  {
    if n == 0 then 1 else 2 * Pow2(n - 1)
  }

  lemma {:induction false} XorBelow(a: nat, b: nat, bits: nat)
    ensures Xor(a, b, bits) < Pow2(bits)
  {
    if bits > 0 {
      XorBelow(a / 2, b / 2, bits - 1);
    }
  }

  lemma {:induction false} XorCommutes(a: nat, b: nat, bits: nat)
    ensures Xor(a, b, bits) == Xor(b, a, bits)
  {
    if bits > 0 {
      XorCommutes(a / 2, b / 2, bits - 1);
    }
  }

  /** Exclusive or with one operand tells the other apart. */
  lemma {:induction false} XorInjective(a: nat, b: nat, c: nat, bits: nat)
    requires b < Pow2(bits) && c < Pow2(bits) && Xor(a, b, bits) == Xor(a, c, bits)
    ensures b == c
  {
    if bits > 0 {
      assert b % 2 == c % 2;
      XorInjective(a / 2, b / 2, c / 2, bits - 1);
    }
  }

  /** The prime is odd, so multiplying by it loses nothing modulo 2^64. */
  lemma TimesPrimeInjective(x: nat, y: nat)
    requires x < TWO_64 && y < TWO_64
    requires x * FNV_PRIME % TWO_64 == y * FNV_PRIME % TWO_64
    ensures x == y
  {
    var d: int, k: int := x - y, x * FNV_PRIME / TWO_64 - y * FNV_PRIME / TWO_64;
    assert d * 0x100_0000_01B3 == k * 0x1_0000_0000_0000_0000;
    assert 0x100_0000_01B3 * 14886173955864302971 == 1 + 887285111055 * 0x1_0000_0000_0000_0000;
    assert d == (k * 14886173955864302971 - d * 887285111055) * 0x1_0000_0000_0000_0000;
  }

  lemma MixedBelow(h: nat, b: byte)
    requires h < TWO_64
    ensures Mixed(h, b) < TWO_64 && Mixed(h, b) / 0x100 == h / 0x100
    ensures Mixed(h, b) % 0x100 == Xor(h % 0x100, b as nat, 8)
  {
    XorBelow(h % 0x100, b as nat, 8);
    Pow2Of8();
    LowByte(h, Xor(h % 0x100, b as nat, 8));
  }

  lemma LowByte(h: nat, low: nat)
    requires low < 0x100
    ensures var x := h - h % 0x100 + low;
            x / 0x100 == h / 0x100 && x % 0x100 == low && (h < TWO_64 ==> x < TWO_64)
  {
  }

  lemma Pow2Of8()
    ensures Pow2(8) == 0x100
  {
    assert Pow2(4) == 16;
  }

  /** A hash step tells apart its byte, and its state. */
  lemma MixInjective(h: nat, b: byte, h': nat, b': byte)
    requires h < TWO_64 && h' < TWO_64 && Mix(h, b) == Mix(h', b')
    ensures h == h' <==> b == b'
  {
    MixedBelow(h, b);
    MixedBelow(h', b');
    TimesPrimeInjective(Mixed(h, b), Mixed(h', b'));
    Pow2Of8();
    if h == h' {
      XorInjective(h % 0x100, b as nat, b' as nat, 8);
    }
    if b == b' {
      XorCommutes(h % 0x100, b as nat, 8);
      XorCommutes(h' % 0x100, b as nat, 8);
      XorInjective(b as nat, h % 0x100, h' % 0x100, 8);
    }
  }

  lemma FnvBelow(h: nat, data: Bytes)
    requires h < TWO_64
    ensures Fnv1a(h, data) < TWO_64
  {
  }

  /** Every byte counts: changing one changes the 64-bit hash. */
  lemma {:induction false} OneByteMatters(h: nat, data: Bytes, i: nat, b: byte)
    requires h < TWO_64 && i < |data| && b != data[i]
    ensures Fnv1a(h, data[i := b]) != Fnv1a(h, data)
  {
    var last := |data| - 1;
    var past, past' := data[..last], data[i := b][..last];
    FnvBelow(h, past);
    FnvBelow(h, past');
    if i == last {
      assert past' == past;
    } else {
      assert past' == past[i := b];
      OneByteMatters(h, past, i, b);
    }
    if Mix(Fnv1a(h, past'), data[i := b][last]) == Mix(Fnv1a(h, past), data[last]) {
      MixInjective(Fnv1a(h, past'), data[i := b][last], Fnv1a(h, past), data[last]);
    }
  }

  /** So the partition matters: two of one topic whose numbers differ in the last byte
      have different hashes. */
  lemma PartitionMatters(topic: Bytes, partition: int32, partition': int32)
    requires partition != partition' && partition / 0x100 == partition' / 0x100
    ensures Fnv1a(FNV_OFFSET, topic + Put32(partition)) != Fnv1a(FNV_OFFSET, topic + Put32(partition'))
  {
    var data, last := topic + Put32(partition), |topic| + 3;
    LastByte(partition, partition');
    LastByte(partition', partition);
    assert data[last] == Put32(partition)[3];
    SameBut(topic, Put32(partition), Put32(partition'));
    OneByteMatters(FNV_OFFSET, data, last, Put32(partition')[3]);
  }

  lemma SameBut(topic: Bytes, a: Bytes, b: Bytes)
    requires |a| == |b| == 4 && a[..3] == b[..3]
    ensures topic + b == (topic + a)[|topic| + 3 := b[3]]
  {
    forall i | 0 <= i < 3 ensures a[i] == b[i] {
      assert a[..3][i] == b[..3][i];
    }
  }

  lemma Shifts(n: int)
    ensures n / 0x1_0000 == n / 0x100 / 0x100
    ensures n % 0x1_0000 / 0x100 == n / 0x100 % 0x100
    ensures n % 0x1_0000 % 0x100 == n % 0x100
  {
  }

  /** The last byte is the number modulo 256; the others depend on the rest. */
  lemma LastByte(n: int32, n': int32)
    ensures Put32(n)[3] as int == n % 0x100
    ensures n / 0x100 == n' / 0x100 ==> Put32(n)[..3] == Put32(n')[..3]
  {
    Shifts(n);
    Shifts(n');
  }

  lemma XorStep(a: nat, b: nat, bits: nat, high: nat)
    requires bits > 0 && Xor(a / 2, b / 2, bits - 1) == high
    ensures Xor(a, b, bits) == (if a % 2 == b % 2 then 0 else 1) + 2 * high
  {
  }

  lemma RemainderIs(x: nat, k: nat, r: nat)
    requires r < 0x1_0000_0000_0000_0000 && x == k * 0x1_0000_0000_0000_0000 + r
    ensures x % 0x1_0000_0000_0000_0000 == r
  {
  }

  lemma MixIs(h: nat, b: byte, mixed: nat, product: nat, h': nat)
    requires Mixed(h, b) == mixed && product == mixed * FNV_PRIME && product % TWO_64 == h'
    ensures Mix(h, b) == h'
  {
  }

  lemma MixedIs(h: nat, b: byte, low: nat, xored: nat)
    requires h % 0x100 == low && Xor(low, b as nat, 8) == xored
    ensures Mixed(h, b) == h - low + xored
  {
  }

  lemma HashOfOne(b: byte, h: nat)
    requires Mix(FNV_OFFSET, b) == h
    ensures Fnv1a(FNV_OFFSET, [b]) == h
  {
    FoldStep(Mix, FNV_OFFSET, [b], 0);
  }

  /** The published 64-bit FNV-1a hashes of nothing and of "a". */
  lemma KnownHashes()
    ensures Fnv1a(FNV_OFFSET, []) == 0xcbf2_9ce4_8422_2325
    ensures Fnv1a(FNV_OFFSET, [97]) == 0xaf63_dc4c_8601_ec8c
  {
    XorStep(0, 0, 1, 0);
    XorStep(0, 1, 2, 0);
    XorStep(1, 3, 3, 1);
    XorStep(2, 6, 4, 2);
    XorStep(4, 12, 5, 4);
    XorStep(9, 24, 6, 8);
    XorStep(18, 48, 7, 17);
    XorStep(37, 97, 8, 34);
    MixedIs(FNV_OFFSET, 97, 0x25, 0x44);
    RemainderIs(0xcbf29ce5deaf63dc4c8601ec8c, 0xcbf29ce5de, 0xaf63_dc4c_8601_ec8c);
    MixIs(FNV_OFFSET, 97, 0xcbf2_9ce4_8422_2344, 0xcbf29ce5deaf63dc4c8601ec8c, 0xaf63_dc4c_8601_ec8c);
    HashOfOne(97, 0xaf63_dc4c_8601_ec8c);
  }
}
