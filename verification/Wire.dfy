/** Byte streams with the semantics of io.ReadFull and Write, and big-endian 32-bit integers. */
module Wire {
  import opened Prelude

  function LowByte(n: nat): byte { n % 0x100 }

  function PutUint32(n: uint32): (b: bytes)
    ensures |b| == 4
  {
    [LowByte(n / 0x100_0000), LowByte(n / 0x1_0000), LowByte(n / 0x100), LowByte(n)]
  }

  function Uint32(b: bytes): uint32
    requires |b| == 4
  {
    b[0] as int * 0x100_0000 + b[1] as int * 0x1_0000 + b[2] as int * 0x100 + b[3] as int
  }

  lemma Uint32RoundTrip(n: uint32)
    ensures Uint32(PutUint32(n)) == n
  {
    var q1, q2, q3 := n / 0x100, n / 0x1_0000, n / 0x100_0000;
    assert q2 == q1 / 0x100 && q3 == q2 / 0x100;
  }

  lemma PutUint32Injective(m: uint32, n: uint32)
    requires PutUint32(m) == PutUint32(n)
    ensures m == n
  {
    Uint32RoundTrip(m);
    Uint32RoundTrip(n);
  }

  /** The number that bytes denote, the most significant first. */
  function BigEndian(b: bytes): nat {
    if b == [] then 0 else BigEndian(b[..|b| - 1]) * 0x100 + b[|b| - 1] as nat
  }

  lemma LowBytes(n: nat)
    ensures n == (n / 0x100) * 0x100 + LowByte(n)
  {
  }

  lemma Quotients(n: uint32)
    ensures n / 0x100 / 0x100 == n / 0x1_0000 && n / 0x1_0000 / 0x100 == n / 0x100_0000 && n / 0x100_0000 / 0x100 == 0
  {
  }

  /** Lengths and indices go out in network order. */
  lemma NetworkOrder(n: uint32)
    ensures BigEndian(PutUint32(n)) == n
  {
    var b := PutUint32(n);
    LowBytes(n);
    LowBytes(n / 0x100);
    LowBytes(n / 0x1_0000);
    LowBytes(n / 0x100_0000);
    Quotients(n);
    assert b[..3][..2] == b[..2] && b[..2][..1] == b[..1] && b[..1][..0] == [];
    assert BigEndian(b[..1]) == n / 0x100_0000;
    assert BigEndian(b[..2]) == n / 0x1_0000;
    assert BigEndian(b[..3]) == n / 0x100;
  }

  datatype ReadErr = EOF | UnexpectedEOF

  /** The error io.ReadFull reports for n bytes wanted and `have` bytes left, if any. */
  function FullErr(n: nat, have: nat): Option<ReadErr> {
    if n <= have then None else if have == 0 then Some(EOF) else Some(UnexpectedEOF)
  }

  function Min(a: nat, b: nat): nat { if a < b then a else b }

  class Reader {
    var rest: bytes

    constructor (data: bytes)
      ensures rest == data
    {
      rest := data;
    }

    /** Fills the buffer as far as the input goes; what it does not reach keeps its old content. */
    method ReadFull(buf: array<byte>) returns (n: nat, err: Option<ReadErr>)
      modifies this, buf
      ensures n == Min(buf.Length, |old(rest)|) && err == FullErr(buf.Length, |old(rest)|)
      ensures buf[..n] == old(rest)[..n] && buf[n..] == old(buf[n..])
      ensures rest == old(rest)[n..]
    {
      n := Min(buf.Length, |rest|);
      forall i | 0 <= i < n {
        buf[i] := rest[i];
      }
      err := FullErr(buf.Length, |rest|);
      rest := rest[n..];
    }
  }

  class Writer {
    var data: bytes

    constructor ()
      ensures data == []
    {
      data := [];
    }

    method Write(b: bytes)
      modifies this
      ensures data == old(data) + b
    {
      data := data + b;
    }
  }
}
