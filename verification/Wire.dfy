/** Big-endian wire primitives of the Kafka protocol ("Protocol Primitive
    Types" of the Apache Kafka protocol guide).

    A printer (`Put...`) and a reader (`Read...`) are defined for each primitive.
    A reader takes the unread input and returns the value together with what
    is still unread, so the grammar of a message is a chain of readers.  Each
    reader is proved to be the exact inverse of its printer. */
module Wire {
  newtype byte = x: int | 0 <= x < 256

  /** Go strings and byte slices are both byte sequences. */
  type Bytes = seq<byte>

  type int16 = x: int | -0x8000 <= x < 0x8000
  type int32 = x: int | -0x8000_0000 <= x < 0x8000_0000

  datatype Option<+T> = None | Some(value: T)

  datatype Error =
    | TooShort
    | ResponseTooLarge
    | BrokerHostTooLong
    | InvalidFrameSize
    | InvalidLength
    | UnknownLeader
    | WriteFailed

  datatype Result<+T> = Ok(value: T) | Err(error: Error) {
    predicate IsFailure() {
      Err?
    }

    function PropagateFailure<U>(): Result<U>
      requires Err?
    {
      Err(error)
    }

    function Extract(): T
      requires Ok?
    {
      value
    }
  }

  // ---------------------------------------------------------------- printing

  /** Two's complement: negative numbers print as their value modulo 2^16. */
  function Put16(n: int): (b: Bytes)
    ensures |b| == 2
  {
    [(n / 0x100 % 0x100) as byte, (n % 0x100) as byte]
  }

  function Put32(n: int): (b: Bytes)
    ensures |b| == 4
  {
    Put16(n / 0x1_0000) + Put16(n % 0x1_0000)
  }

  // ----------------------------------------------------------------- reading

  function Get16(b: Bytes): (n: nat)
    requires |b| >= 2
    ensures n < 0x1_0000
  {
    b[0] as int * 0x100 + b[1] as int
  }

  function Get32(b: Bytes): (n: nat)
    requires |b| >= 4
    ensures n < 0x1_0000_0000
  {
    Get16(b) * 0x1_0000 + Get16(b[2..])
  }

  function Signed16(n: nat): int16
    requires n < 0x1_0000
  {
    if n < 0x8000 then n else n - 0x1_0000
  }

  function Signed32(n: nat): int32
    requires n < 0x1_0000_0000
  {
    if n < 0x8000_0000 then n else n - 0x1_0000_0000
  }

  function ReadU16(d: Bytes): Result<(nat, Bytes)> {
    if |d| < 2 then Err(TooShort) else Ok((Get16(d), d[2..]))
  }

  function ReadU32(d: Bytes): Result<(nat, Bytes)> {
    if |d| < 4 then Err(TooShort) else Ok((Get32(d), d[4..]))
  }

  function ReadI16(d: Bytes): Result<(int16, Bytes)> {
    if |d| < 2 then Err(TooShort) else Ok((Signed16(Get16(d)), d[2..]))
  }

  function ReadI32(d: Bytes): Result<(int32, Bytes)> {
    if |d| < 4 then Err(TooShort) else Ok((Signed32(Get32(d)), d[4..]))
  }

  function Take(d: Bytes, n: nat): Result<(Bytes, Bytes)> {
    if |d| < n then Err(TooShort) else Ok((d[..n], d[n..]))
  }

  // -------------------------------------------------- readers invert printers

  lemma Get16OfPut16(n: int, rest: Bytes)
    ensures Get16(Put16(n) + rest) == n % 0x1_0000
  {
    assert (Put16(n) + rest)[0] == Put16(n)[0] && (Put16(n) + rest)[1] == Put16(n)[1];
  }

  lemma Get32OfPut32(n: int, rest: Bytes)
    ensures Get32(Put32(n) + rest) == n % 0x1_0000_0000
  {
    var hi, lo := Put16(n / 0x1_0000), Put16(n % 0x1_0000);
    assert Put32(n) + rest == hi + (lo + rest);
    assert (hi + (lo + rest))[2..] == lo + rest;
    Get16OfPut16(n / 0x1_0000, lo + rest);
    Get16OfPut16(n % 0x1_0000, rest);
  }

  /** Printing depends on the value modulo 2^16 only. */
  lemma Put16Modulo(n: int)
    ensures Put16(n) == Put16(n - 0x1_0000)
  {
    assert (n - 0x1_0000) / 0x100 == n / 0x100 - 0x100;
    assert (n / 0x100 - 0x100) % 0x100 == n / 0x100 % 0x100;
    assert (n - 0x1_0000) % 0x100 == n % 0x100;
  }

  lemma Put16OfGet16(b: Bytes)
    requires |b| >= 2
    ensures Put16(Get16(b)) == Put16(Signed16(Get16(b))) == b[..2]
  {
    var hi, lo := b[0] as int, b[1] as int;
    assert Get16(b) / 0x100 == hi && Get16(b) % 0x100 == lo;
    assert hi % 0x100 == hi;
    Put16Modulo(Get16(b));
  }

  lemma Put32OfGet32(b: Bytes)
    requires |b| >= 4
    ensures Put32(Get32(b)) == Put32(Signed32(Get32(b))) == b[..4]
  {
    var hi: int, lo: int := Get16(b), Get16(b[2..]);
    Put16OfGet16(b);
    Put16OfGet16(b[2..]);
    assert Get32(b) / 0x1_0000 == hi && Get32(b) % 0x1_0000 == lo;
    assert b[..4] == b[..2] + b[2..][..2];
    var s := Get32(b) - 0x1_0000_0000;
    assert s / 0x1_0000 == hi - 0x1_0000 && s % 0x1_0000 == lo;
    Put16Modulo(hi);
  }

  /** Network byte order: the first byte counts most. */
  lemma BigEndian(b: Bytes)
    requires |b| >= 4
    ensures Get16(b) == 256 * b[0] as int + b[1] as int
    ensures Get32(b) == 16777216 * b[0] as int + 65536 * b[1] as int + 256 * b[2] as int + b[3] as int
    ensures Signed32(Get32(b)) < 0 <==> b[0] >= 128
  {
    assert b[2..][0] == b[2] && b[2..][1] == b[3];
  }

  /** A signed 16-bit reader and printer are inverse, in both directions. */
  lemma Read16Inverts(n: int16, rest: Bytes)
    ensures ReadI16(Put16(n) + rest) == Ok((n, rest))
  {
    Get16OfPut16(n, rest);
    assert (Put16(n) + rest)[2..] == rest;
  }

  lemma Read32Inverts(n: int32, rest: Bytes)
    ensures ReadI32(Put32(n) + rest) == Ok((n, rest))
  {
    Get32OfPut32(n, rest);
    assert (Put32(n) + rest)[4..] == rest;
  }

  lemma ReadU16Inverts(n: nat, rest: Bytes)
    requires n < 0x1_0000
    ensures ReadU16(Put16(n) + rest) == Ok((n, rest))
  {
    Get16OfPut16(n, rest);
    assert (Put16(n) + rest)[2..] == rest;
  }

  lemma ReadU32Inverts(n: nat, rest: Bytes)
    requires n < 0x1_0000_0000
    ensures ReadU32(Put32(n) + rest) == Ok((n, rest))
  {
    Get32OfPut32(n, rest);
    assert (Put32(n) + rest)[4..] == rest;
  }

  lemma Read16Splits(d: Bytes)
    requires |d| >= 2
    ensures d == Put16(Signed16(Get16(d))) + d[2..] == Put16(Get16(d)) + d[2..]
  {
    Put16OfGet16(d);
  }

  lemma Read32Splits(d: Bytes)
    requires |d| >= 4
    ensures d == Put32(Signed32(Get32(d))) + d[4..] == Put32(Get32(d)) + d[4..]
  {
    Put32OfGet32(d);
  }

  lemma TakeInverts(s: Bytes, rest: Bytes)
    ensures Take(s + rest, |s|) == Ok((s, rest))
  {
  }

  lemma DropDrop(d: Bytes, m: nat, n: nat)
    requires m <= |d| && n <= |d| - m
    ensures d[m..][n..] == d[m + n..]
  {
  }

  lemma AppendAssoc(a: Bytes, b: Bytes, c: Bytes)
    ensures a + (b + c) == (a + b) + c
  {
  }

  lemma AppendAssoc3(a: Bytes, b: Bytes, c: Bytes, rest: Bytes)
    ensures (a + (b + c)) + rest == a + (b + (c + rest))
  {
  }

  lemma AppendAssoc4(a: Bytes, b: Bytes, c: Bytes, d: Bytes, rest: Bytes)
    ensures (a + (b + (c + d))) + rest == a + (b + (c + (d + rest)))
  {
  }

  // ---------------------------------------------------------- cursor parsers

  /** A cursor parser returns how many bytes it consumed; it does what a reader
      does when the bytes from that position on are the reader's unread input. */
  ghost predicate ReadsAs<T>(r: Result<(T, nat)>, data: Bytes, reader: Result<(T, Bytes)>) {
    match r
    case Err(e) => reader == Err(e)
    case Ok((x, n)) => n <= |data| && reader == Ok((x, data[n..]))
  }

  // ---------------------------------------------------------- output buffers

  /** Go's `copy(dst[offset:], src)` for a destination that is large enough. */
  method Copy(dst: array<byte>, offset: nat, src: Bytes)
    requires offset + |src| <= dst.Length
    modifies dst
    ensures dst[..offset + |src|] == old(dst[..offset]) + src
    ensures dst[offset + |src|..] == old(dst[offset + |src|..])
  {
    for i := 0 to |src|
      invariant dst[..offset] == old(dst[..offset])
      invariant dst[offset..offset + i] == src[..i]
      invariant dst[offset + i..] == old(dst[offset + i..])
    {
      dst[offset + i] := src[i];
    }
  }
}
