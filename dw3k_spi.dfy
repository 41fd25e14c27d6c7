/** The DW3000 SPI transactions of the UWB test program, following the
    transaction formats of section 2.3.1.2 of the DW3000 User Manual: a
    one- or two-byte header naming the register file, the offset in it and
    the access mode, then the data. The SPI bus is seen as the sequence of
    events the driver causes on it. */
module Dw3kSpi {
  import opened Common

  /** A register: its file (bits 1-5 of the first header byte) and its
      byte offset in the file. */
  datatype Address = Address(file: bv8, offset: bv16)

  /** What the driver does on the bus: lower chip select, clock out one
      byte, clock in `n` bytes, raise chip select. A `Receive` does not
      record the bytes clocked out while the data comes in. */
  datatype Event = Select | Send(b: byte) | Receive(n: nat) | Deselect

  /** The low byte of a 16-bit value, as `SPI.transfer` truncates it. */
  function Low(x: bv16): byte
  {
    (x & 0xFF) as bv8
  }

  /** The first header byte: the write bit, bit 6 for the long form, the
      file in bits 1-5 and, in the long form, bit 7 of the offset in
      bit 0. */
  function Lead(a: Address, wr: bool, long: bool): byte
  {
    (if wr then 0x80 else 0) | (if long then 0x40 else 0) | (a.file << 1)
      | (if long then Low(a.offset >> 6) else 0)
  }

  /** The second byte of the long form: the offset's low six bits and the
      mask mode. */
  function Trail(a: Address, mbits: byte): byte
  {
    Low(a.offset << 2) | mbits
  }

  /** `send_header`: the short form is a single byte, used for a plain
      access at offset 0. */
  function Header(a: Address, wr: bool, mbits: byte): (h: Bytes)
    ensures |h| == (if mbits == 0 && a.offset == 0 then 1 else 2)
    ensures |h| == 1 ==> h[0] == (if wr then 0x80 else 0) | (a.file << 1)
  {
    if mbits == 0 && a.offset == 0 then [Lead(a, wr, false)]
    else [Lead(a, wr, true), Trail(a, mbits)]
  }

  /** What a header says: write or read, the address, the mask mode. */
  datatype Access = Access(wr: bool, a: Address, mbits: byte)

  function FileOf(h0: byte): byte
  {
    (h0 >> 1) & 0x1F
  }

  function OffsetOf(h0: byte, h1: byte): bv16
  {
    ((h0 & 1) as bv16 << 6) | (h1 >> 2) as bv16
  }

  /** Reads a header back; the second byte of the long form is there
      exactly when bit 6 of the first is set. */
  function Decode(h: Bytes): (r: Option<Access>)
    ensures r.Some? ==> |h| in {1, 2}
  {
    if |h| == 1 && h[0] & 0x41 == 0 then
      Some(Access(h[0] & 0x80 != 0, Address(FileOf(h[0]), 0), 0))
    else if |h| == 2 && h[0] & 0x40 != 0 then
      Some(Access(h[0] & 0x80 != 0, Address(FileOf(h[0]), OffsetOf(h[0], h[1])), h[1] & 0x3))
    else None
  }

  lemma LeadBack(a: Address, wr: bool, long: bool)
    requires a.file < 32 && a.offset < 128
    ensures Lead(a, wr, long) & 0x40 != 0 <==> long
    ensures (Lead(a, wr, long) & 0x80 != 0) == wr
    ensures FileOf(Lead(a, wr, long)) == a.file
    ensures !long ==> Lead(a, wr, long) & 0x01 == 0
  {
  }

  lemma OffsetBack(a: Address, wr: bool, mbits: byte)
    requires a.offset < 128 && mbits <= 3
    ensures OffsetOf(Lead(a, wr, true), Trail(a, mbits)) == a.offset
    ensures Trail(a, mbits) & 0x3 == mbits
  {
  }

  /** For a file below 32, an offset below 128 and a mask mode up to 3,
      the header determines the access. */
  lemma HeaderDecodes(a: Address, wr: bool, mbits: byte)
    requires a.file < 32 && a.offset < 128 && mbits <= 3
    ensures Decode(Header(a, wr, mbits)) == Some(Access(wr, a, mbits))
  {
    LeadBack(a, wr, mbits != 0 || a.offset != 0);
    if mbits != 0 || a.offset != 0 {
      OffsetBack(a, wr, mbits);
    }
  }

  /** Offsets of 128 or more spill into the file bits: offset 192 in file
      0 and offset 64 in file 1 give the same header. */
  lemma OffsetSpills()
    ensures Header(Address(0, 192), false, 0) == Header(Address(1, 64), false, 0)
  {
  }

  /** A fast command: one byte with bits 0 and 7 set and the command code
      in bits 1-6. */
  function CommandByte(bits: byte): (b: byte)
    ensures b & 0x81 == 0x81
    ensures bits < 64 ==> (b >> 1) & 0x3F == bits
  {
    0x81 | (bits << 1)
  }

  /** Clocking out bytes one at a time. */
  function Sends(data: Bytes): (e: seq<Event>)
    ensures |e| == |data|
    ensures forall i :: 0 <= i < |data| ==> e[i] == Send(data[i])
  {
    if data == [] then [] else Sends(data[..|data| - 1]) + [Send(data[|data| - 1])]
  }

  /** One transaction: chip select low, the events, chip select high. */
  function Transaction(body: seq<Event>): seq<Event>
  {
    [Select] + body + [Deselect]
  }

  /** The memory image of a value on a little-endian CPU, lowest byte
      first. */
  function Le16(x: bv16): (b: Bytes)
    ensures |b| == 2 && b[0] as bv16 | (b[1] as bv16 << 8) == x
  {
    [Low(x), Low(x >> 8)]
  }

  function Le32(x: bv32): (b: Bytes)
    ensures |b| == 4
    ensures b[0] as bv32 | (b[1] as bv32 << 8) | (b[2] as bv32 << 16) | (b[3] as bv32 << 24) == x
  {
    Le16((x & 0xFFFF) as bv16) + Le16((x >> 16) as bv16)
  }

  /** The bytes a sequence of events clocks out, in order. */
  function Sent(e: seq<Event>): Bytes
  {
    if e == [] then []
    else Sent(e[..|e| - 1]) + (if e[|e| - 1].Send? then [e[|e| - 1].b] else [])
  }

  lemma {:induction false} SentAppend(a: seq<Event>, b: seq<Event>)
    ensures Sent(a + b) == Sent(a) + Sent(b)
    decreases |b|
  {
    if b == [] {
      assert a + b == a;
    } else {
      assert (a + b)[..|a + b| - 1] == a + b[..|b| - 1];
      SentAppend(a, b[..|b| - 1]);
    }
  }

  lemma {:induction false} SentSends(data: Bytes)
    ensures Sent(Sends(data)) == data
  {
    if data != [] {
      var e := Sends(data);
      assert e[..|e| - 1] == Sends(data[..|data| - 1]);
      SentSends(data[..|data| - 1]);
    }
  }

  /** Within one transaction, the bytes clocked out are exactly the
      ones handed to it. */
  lemma {:induction false} TransactionSent(data: Bytes)
    ensures Sent(Transaction(Sends(data))) == data
  {
    SentAppend([Select] + Sends(data), [Deselect]);
    SentAppend([Select], Sends(data));
    SentSends(data);
    assert Sent([Select]) == [] by {
      assert [Select][..0] == [];
    }
    assert Sent([Deselect]) == [] by {
      assert [Deselect][..0] == [];
    }
  }

  /** `dw3k_read`: of the bytes the model records as sent, a read has only
      its header; the data is clocked in. */
  lemma {:induction false} ReadSent(a: Address, n: nat)
    ensures Sent(Transaction(Sends(Header(a, false, 0)) + [Receive(n)])) == Header(a, false, 0)
  {
    var h := Header(a, false, 0);
    assert Transaction(Sends(h) + [Receive(n)]) == [Select] + Sends(h) + [Receive(n), Deselect];
    SentAppend([Select] + Sends(h), [Receive(n), Deselect]);
    SentAppend([Select], Sends(h));
    SentSends(h);
    assert Sent([Select]) == [] by {
      assert [Select][..0] == [];
    }
    assert Sent([Receive(n), Deselect]) == [] by {
      assert [Receive(n), Deselect][..1] == [Receive(n)];
      assert [Receive(n)][..0] == [];
    }
  }

  /** The SPI bus as the driver drives it. */
  class Bus {
    var wire: seq<Event>

    constructor ()
      ensures wire == []
    {
      wire := [];
    }

    /** `send_data`: `n` bytes, one transfer each. */
    method SendData(data: Bytes)
      requires |data| < 256
      modifies this
      ensures wire == old(wire) + Sends(data)
    {
      var i := 0;
      while i < |data|
        invariant 0 <= i <= |data|
        invariant wire == old(wire) + Sends(data[..i])
      {
        assert data[..i + 1][..i] == data[..i];
        wire := wire + [Send(data[i])];
        i := i + 1;
      }
      assert data[..i] == data;
    }

    /** `send_header`. */
    method SendHeader(a: Address, wr: bool, mbits: byte)
      modifies this
      ensures wire == old(wire) + Sends(Header(a, wr, mbits))
    {
      if mbits == 0 && a.offset == 0 {
        wire := wire + [Send(Lead(a, wr, false))];
      } else {
        wire := wire + [Send(Lead(a, wr, true))];
        wire := wire + [Send(Trail(a, mbits))];
      }
    }

    /** `dw3k_command`. */
    method Command(bits: byte)
      modifies this
      ensures wire == old(wire) + Transaction([Send(CommandByte(bits))])
    {
      wire := wire + [Select];
      wire := wire + [Send(0x81 | (bits << 1))];
      wire := wire + [Deselect];
    }

    /** `dw3k_read`: the read header, then `n` bytes clocked in. */
    method Read(a: Address, n: nat)
      requires n < 256
      modifies this
      ensures wire == old(wire) + Transaction(Sends(Header(a, false, 0)) + [Receive(n)])
    {
      wire := wire + [Select];
      SendHeader(a, false, 0);
      wire := wire + [Receive(n)];
      wire := wire + [Deselect];
    }

    /** `dw3k_write`: the write header, then the data. */
    method Write(a: Address, data: Bytes)
      requires |data| < 256
      modifies this
      ensures wire == old(wire) + Transaction(Sends(Header(a, true, 0) + data))
    {
      wire := wire + [Select];
      SendHeader(a, true, 0);
      SendData(data);
      wire := wire + [Deselect];
    }

    /** The masked writes: a header with mask mode 1, 2 or 3 for 8, 16 or
        32 bits, then the AND mask and the OR value in memory order. */
    method Masked(a: Address, mbits: byte, mask: Bytes, value: Bytes)
      requires |mask| < 256 && |value| < 256
      modifies this
      ensures wire == old(wire) + Transaction(Sends(Header(a, true, mbits) + mask + value))
    {
      wire := wire + [Select];
      SendHeader(a, true, mbits);
      SendData(mask);
      SendData(value);
      wire := wire + [Deselect];
    }

    /** `dw3k_mask8`. */
    method Mask8(a: Address, mask: byte, value: byte)
      modifies this
      ensures wire == old(wire) + Transaction(Sends(Header(a, true, 1) + [mask] + [value]))
    {
      Masked(a, 1, [mask], [value]);
    }

    /** `dw3k_mask16`. */
    method Mask16(a: Address, mask: bv16, value: bv16)
      modifies this
      ensures wire == old(wire) + Transaction(Sends(Header(a, true, 2) + Le16(mask) + Le16(value)))
    {
      Masked(a, 2, Le16(mask), Le16(value));
    }

    /** `dw3k_mask32`. */
    method Mask32(a: Address, mask: bv32, value: bv32)
      modifies this
      ensures wire == old(wire) + Transaction(Sends(Header(a, true, 3) + Le32(mask) + Le32(value)))
    {
      Masked(a, 3, Le32(mask), Le32(value));
    }
  }
}
