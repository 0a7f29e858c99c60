/**
 The bit-serial exchange of the DS1302's three-wire interface, as an abstract
 trace of events with the pin timing left out.

 A session is opened by raising CE (`Start`) and closed by lowering it
 (`Stop`). The host writes a byte least significant bit first: for each bit
 it drives the I/O line and raises SCLK, and the chip latches the level on
 that rising edge (`WriteBit`). When a read follows, the host releases the
 I/O line after the last bit instead of lowering the clock (`Release`). It
 then reads a byte bit by bit: a clock pulse, after which it samples the
 level the chip drives (`ReadBit`).
 */
module Transport {

  datatype Event =
    | Start
    | WriteBit(level: bool)
    | Release
    | ReadBit
    | Stop

  /** `bit(i)`: the byte with only bit `i` set. */
  const BIT_MASKS: seq<bv8> := [0x01, 0x02, 0x04, 0x08, 0x10, 0x20, 0x40, 0x80]

  /** Bit `i` of `b`, counting from the least significant (`bitRead`). */
  function Bit(b: bv8, i: nat): bool
    requires i < 8
  {
    b & BIT_MASKS[i] != 0
  }

  /** `bitRead(b, i)` is `(b >> i) & 1`: the mask of bit `i` selects that bit. */
  lemma BitIsShiftedBit(b: bv8, i: nat)
    requires i < 8
    ensures Bit(b, i) <==> (b >> i) & 1 == 1
  {
  }

  /** The bits of a byte in the order they travel on the wire: least significant first. */
  function BitsOf(b: bv8): (bits: seq<bool>)
    ensures |bits| == 8
    ensures forall i :: 0 <= i < 8 ==> bits[i] == Bit(b, i)
  {
    [Bit(b, 0), Bit(b, 1), Bit(b, 2), Bit(b, 3), Bit(b, 4), Bit(b, 5), Bit(b, 6), Bit(b, 7)]
  }

  /** The byte whose bits, least significant first, are `bits`. */
  function ByteOfBits(bits: seq<bool>): bv8
    requires |bits| == 8
  {
    (if bits[0] then 0x01 else 0) | (if bits[1] then 0x02 else 0) | (if bits[2] then 0x04 else 0) | (if bits[3] then 0x08 else 0) |
    (if bits[4] then 0x10 else 0) | (if bits[5] then 0x20 else 0) | (if bits[6] then 0x40 else 0) | (if bits[7] then 0x80 else 0)
  }

  /** Reassembling the bits of a byte gives the byte back. */
  lemma ByteOfBitsOf(b: bv8)
    ensures ByteOfBits(BitsOf(b)) == b
  {
    assert b & 0x0F == ByteOfBits(BitsOf(b)) & 0x0F;
    assert b & 0xF0 == ByteOfBits(BitsOf(b)) & 0xF0;
  }

  /** A byte is determined by its bits: what travels on the wire identifies it. */
  lemma BitsOfInjective(a: bv8, b: bv8)
    requires BitsOf(a) == BitsOf(b)
    ensures a == b
  {
    ByteOfBitsOf(a);
    ByteOfBitsOf(b);
  }

  /** The bits of a sequence of bytes, first byte first, each least significant bit first. */
  function BitsOfBytes(bytes: seq<bv8>): (bits: seq<bool>)
    ensures |bits| == 8 * |bytes|
  {
    if |bytes| == 0 then [] else BitsOfBytes(bytes[..|bytes| - 1]) + BitsOf(bytes[|bytes| - 1])
  }

  /** The bytes whose bits, in wire order, are `bits`: eight bits per byte. */
  function BytesOfBits(bits: seq<bool>): (bytes: seq<bv8>)
    requires |bits| % 8 == 0
    ensures |bytes| == |bits| / 8
  {
    if |bits| == 0 then [] else BytesOfBits(bits[..|bits| - 8]) + [ByteOfBits(bits[|bits| - 8..])]
  }

  /** Regrouping the wire bits of a byte sequence into bytes gives the sequence back. */
  lemma {:induction false} BytesOfBitsOfBytes(a: seq<bv8>)
    ensures BytesOfBits(BitsOfBytes(a)) == a
  {
    if |a| > 0 {
      var n := |a| - 1;
      var bits := BitsOfBytes(a);
      assert bits[..8 * n] == BitsOfBytes(a[..n]);
      assert bits[8 * n..] == BitsOf(a[n]);
      BytesOfBitsOfBytes(a[..n]);
      ByteOfBitsOf(a[n]);
      SnocParts(a);
    }
  }

  lemma SnocParts<T>(a: seq<T>)
    requires |a| > 0
    ensures a == a[..|a| - 1] + [a[|a| - 1]]
  {
  }

  /** Byte sequences are determined by their bits. */
  lemma BitsOfBytesInjective(a: seq<bv8>, b: seq<bv8>)
    requires BitsOfBytes(a) == BitsOfBytes(b)
    ensures a == b
  {
    BytesOfBitsOfBytes(a);
    BytesOfBitsOfBytes(b);
  }

  // ---------------------------------------------------------------------
  // What the chip sees of a trace

  /** The levels the chip latches, in order: one per `WriteBit`. */
  function HostBits(trace: seq<Event>): seq<bool> {
    if |trace| == 0 then []
    else HostBits(trace[..|trace| - 1]) + (if trace[|trace| - 1].WriteBit? then [trace[|trace| - 1].level] else [])
  }

  /** The levels latched from two traces in a row are those of the first, then those of the second. */
  lemma {:induction false} HostBitsAppend(a: seq<Event>, b: seq<Event>)
    ensures HostBits(a + b) == HostBits(a) + HostBits(b)
    decreases |b|
  {
    if |b| > 0 {
      var n := |b| - 1;
      assert (a + b)[..|a + b| - 1] == a + b[..n];
      HostBitsAppend(a, b[..n]);
    } else {
      assert a + b == a;
    }
  }

  /** No session boundary inside: the trace belongs to one open session. */
  predicate InSession(trace: seq<Event>) {
    forall i :: 0 <= i < |trace| ==> !trace[i].Start? && !trace[i].Stop?
  }

  /** One complete session: `Start` first, `Stop` last, and no other boundary in between. */
  predicate Framed(trace: seq<Event>) {
    && |trace| >= 2
    && trace[0] == Start
    && trace[|trace| - 1] == Stop
    && InSession(trace[1..|trace| - 1])
  }

  /** A framed trace holds exactly one `Start` and exactly one `Stop`. */
  lemma FramedCountsBoundaries(trace: seq<Event>)
    requires Framed(trace)
    ensures multiset(trace)[Start] == 1 && multiset(trace)[Stop] == 1
  {
    var inner := trace[1..|trace| - 1];
    assert trace == [Start] + inner + [Stop];
    assert Start !in inner && Stop !in inner by {
      forall i | 0 <= i < |inner|
        ensures inner[i] != Start && inner[i] != Stop
      {
      }
    }
  }

  // ---------------------------------------------------------------------
  // Moving one byte

  /** One `WriteBit` per level, in order. */
  function Writes(levels: seq<bool>): (trace: seq<Event>)
    ensures |trace| == |levels|
    ensures forall i :: 0 <= i < |levels| ==> trace[i] == WriteBit(levels[i])
  {
    if |levels| == 0 then [] else Writes(levels[..|levels| - 1]) + [WriteBit(levels[|levels| - 1])]
  }

  /** The chip latches exactly the levels the host writes. */
  lemma {:induction false} HostBitsOfWrites(levels: seq<bool>)
    ensures HostBits(Writes(levels)) == levels
    ensures InSession(Writes(levels)) && ReadBit !in Writes(levels) && Release !in Writes(levels)
  {
    if |levels| > 0 {
      var n := |levels| - 1;
      var trace := Writes(levels);
      assert trace[..|trace| - 1] == Writes(levels[..n]);
      HostBitsOfWrites(levels[..n]);
      assert levels == levels[..n] + [levels[n]];
    }
  }

  /** Nothing but clock pulses and samples. */
  predicate AllReads(trace: seq<Event>) {
    forall i :: 0 <= i < |trace| ==> trace[i] == ReadBit
  }

  /** The chip latches nothing while the host only reads. */
  lemma {:induction false} ReadsLatchNothing(trace: seq<Event>)
    requires AllReads(trace)
    ensures HostBits(trace) == [] && InSession(trace)
  {
    if |trace| > 0 {
      ReadsLatchNothing(trace[..|trace| - 1]);
    }
  }

  /** Distinct bits have disjoint masks. */
  lemma MasksDisjoint(i: nat, k: nat)
    requires i < 8 && k < 8 && i != k
    ensures BIT_MASKS[i] & BIT_MASKS[k] == 0
  {
  }

  /** Setting or clearing the bits of one mask leaves the bits of a disjoint mask as they were. */
  lemma DisjointMaskKept(x: bv8, a: bv8, b: bv8)
    requires a & b == 0
    ensures ((x | a) & b != 0) == (x & b != 0) && ((x & !a) & b != 0) == (x & b != 0)
  {
    assert (x | a) & b == x & b && (x & !a) & b == x & b;
  }

  /** Setting or clearing bit `i` keeps every other bit. */
  lemma OtherBitsKept(x: bv8, i: nat)
    requires i < 8
    ensures forall k :: 0 <= k < 8 && k != i ==> Bit(x | BIT_MASKS[i], k) == Bit(x, k)
    ensures forall k :: 0 <= k < 8 && k != i ==> Bit(x & !BIT_MASKS[i], k) == Bit(x, k)
  {
    forall k | 0 <= k < 8 && k != i
      ensures Bit(x | BIT_MASKS[i], k) == Bit(x, k) && Bit(x & !BIT_MASKS[i], k) == Bit(x, k)
    {
      SetKeepsBit(x, i, k);
      ClearKeepsBit(x, i, k);
    }
  }

  /** Setting bit `i` keeps bit `k`. */
  lemma SetKeepsBit(x: bv8, i: nat, k: nat)
    requires i < 8 && k < 8 && k != i
    ensures Bit(x | BIT_MASKS[i], k) == Bit(x, k)
  {
    var a, m := BIT_MASKS[i], BIT_MASKS[k];
    assert a & m == 0 by { MasksDisjoint(i, k); }
    DisjointMaskKept(x, a, m);
  }

  /** Clearing bit `i` keeps bit `k`. */
  lemma ClearKeepsBit(x: bv8, i: nat, k: nat)
    requires i < 8 && k < 8 && k != i
    ensures Bit(x & !BIT_MASKS[i], k) == Bit(x, k)
  {
    var a, m := BIT_MASKS[i], BIT_MASKS[k];
    assert a & m == 0 by { MasksDisjoint(i, k); }
    DisjointMaskKept(x, a, m);
  }

  /** `bitWrite(x, i, v)`: bit `i` set to `v`, the other bits kept. */
  function BitWrite(x: bv8, i: nat, v: bool): (r: bv8)
    requires i < 8
    ensures Bit(r, i) == v
    ensures forall k :: 0 <= k < 8 && k != i ==> Bit(r, k) == Bit(x, k)
  {
    OtherBitsKept(x, i);
    if v then x | BIT_MASKS[i] else x & !BIT_MASKS[i]
  }

  /** The levels of a byte's bits, optionally followed by a release, form a well-behaved byte write. */
  lemma WritesOfByte(data: bv8, release: bool, trace: seq<Event>)
    requires trace == Writes(BitsOf(data)) + (if release then [Release] else [])
    ensures |trace| == if release then 9 else 8
    ensures forall i :: 0 <= i < 8 ==> trace[i] == WriteBit(Bit(data, i))
    ensures release ==> trace[8] == Release
    ensures HostBits(trace) == BitsOf(data)
    ensures InSession(trace) && ReadBit !in trace && (Release in trace <==> release)
  {
    var writes := Writes(BitsOf(data));
    HostBitsOfWrites(BitsOf(data));
    HostBitsAppend(writes, if release then [Release] else []);
    if release {
      assert HostBits([Release]) == [] by {
        assert [Release][..0] == [];
      }
    } else {
      assert trace == writes;
    }
  }

  /**
   `_DS1302_togglewrite`: the bits of `data`, least significant first; with
   `release`, the I/O line is released after the last bit.
   */
  method ToggleWrite(data: bv8, release: bool) returns (trace: seq<Event>)
    ensures |trace| == if release then 9 else 8
    ensures forall i :: 0 <= i < 8 ==> trace[i] == WriteBit(Bit(data, i))
    ensures release ==> trace[8] == Release
    ensures HostBits(trace) == BitsOf(data)
    ensures InSession(trace) && ReadBit !in trace && (Release in trace <==> release)
  {
    var bits := BitsOf(data);
    trace := [];
    var i := 0;
    while i <= 7
      invariant 0 <= i <= 8
      invariant trace == Writes(bits[..i]) + (if release && i == 8 then [Release] else [])
    {
      assert bits[..i + 1][..i] == bits[..i];
      trace := trace + [WriteBit(Bit(data, i))];
      if release && i == 7 {
        trace := trace + [Release];
      }
      i := i + 1;
    }
    assert bits[..8] == bits;
    WritesOfByte(data, release, trace);
  }

  /**
   `_DS1302_toggleread`: eight clock pulses, each followed by a sample of the
   I/O line; sample `i` (`samples[i]`, driven by the chip) becomes bit `i`.
   */
  method ToggleRead(samples: seq<bool>) returns (data: bv8, trace: seq<Event>)
    requires |samples| == 8
    ensures BitsOf(data) == samples
    ensures |trace| == 8 && AllReads(trace)
  {
    data := 0;
    trace := [];
    var i := 0;
    while i <= 7
      invariant 0 <= i <= 8
      invariant forall k :: 0 <= k < i ==> Bit(data, k) == samples[k]
      invariant |trace| == i && AllReads(trace)
    {
      trace := trace + [ReadBit];
      data := BitWrite(data, i, samples[i]);
      i := i + 1;
    }
  }

  /**
   A byte written with `_DS1302_togglewrite` and read back with
   `_DS1302_toggleread` from the levels the chip latched is the byte written,
   whether or not the line was released.
   */
  method Loopback(b: bv8, release: bool) returns (data: bv8, trace: seq<Event>)
    ensures data == b
    ensures |trace| == (if release then 17 else 16) && HostBits(trace) == BitsOf(b)
  {
    var written := ToggleWrite(b, release);
    var pulses;
    data, pulses := ToggleRead(HostBits(written));
    BitsOfInjective(data, b);
    ReadsLatchNothing(pulses);
    HostBitsAppend(written, pulses);
    trace := written + pulses;
  }
}
