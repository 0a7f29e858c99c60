/**
 Register access over the three-wire interface: single-byte reads and
 writes of an addressed register, and the clock burst that moves the whole
 8-byte clock block in one session.

 Every command byte has bit 7 set; bit 0 selects a read (1) or a write (0).
 The burst commands name no register: 0xBE writes the clock block and 0xBF
 reads it, byte 0 first.
 */
module RegisterAccess {
  import opened Transport
  import opened Registers

  const SECONDS: bv8 := 0x80
  const MINUTES: bv8 := 0x82
  const HOURS: bv8 := 0x84
  const DATE: bv8 := 0x86
  const MONTH: bv8 := 0x88
  const DAY: bv8 := 0x8A
  const YEAR: bv8 := 0x8C
  /** The write-protect register; bit 7 is WP. */
  const ENABLE: bv8 := 0x8E
  /** The trickle-charge register; 0 switches the charger off. */
  const TRICKLE: bv8 := 0x90
  const CLOCK_BURST: bv8 := 0xBE
  const CLOCK_BURST_WRITE: bv8 := 0xBE
  const CLOCK_BURST_READ: bv8 := 0xBF

  /** The read/write bit of a command byte. */
  const READBIT := 0

  /** `bitSet(address, DS1302_READBIT)`: bit 0 set, the other bits of the address kept. */
  function ReadCommand(address: bv8): (cmd: bv8)
    ensures Bit(cmd, READBIT)
    ensures forall i :: 0 < i < 8 ==> Bit(cmd, i) == Bit(address, i)
  {
    BitWrite(address, READBIT, true)
  }

  /** `bitClear(address, DS1302_READBIT)`: bit 0 clear, the other bits of the address kept. */
  function WriteCommand(address: bv8): (cmd: bv8)
    ensures !Bit(cmd, READBIT)
    ensures forall i :: 0 < i < 8 ==> Bit(cmd, i) == Bit(address, i)
  {
    BitWrite(address, READBIT, false)
  }

  /** The read and the write command for the same address differ in the read bit alone. */
  lemma CommandsDifferInReadBit(address: bv8)
    ensures ReadCommand(address) == WriteCommand(address) | 1
    ensures WriteCommand(address) & 1 == 0
  {
    var r, w := ReadCommand(address), WriteCommand(address);
    assert BitsOf(r) == BitsOf(w | 1);
    BitsOfInjective(r, w | 1);
  }

  /** An address whose read bit is clear is its own write command, and its read command is the next number. */
  lemma CommandPair(address: bv8)
    requires !Bit(address, READBIT)
    ensures WriteCommand(address) == address && ReadCommand(address) == address + 1
  {
    assert BitsOf(WriteCommand(address)) == BitsOf(address);
    BitsOfInjective(WriteCommand(address), address);
    CommandsDifferInReadBit(address);
  }

  /** The clock register addresses are write commands, and the read command of each is the next number. */
  lemma ClockRegisterCommands()
    ensures WriteCommand(SECONDS) == 0x80 && ReadCommand(SECONDS) == 0x81
    ensures WriteCommand(MINUTES) == 0x82 && ReadCommand(MINUTES) == 0x83
    ensures WriteCommand(HOURS) == 0x84 && ReadCommand(HOURS) == 0x85
    ensures WriteCommand(DATE) == 0x86 && ReadCommand(DATE) == 0x87
    ensures WriteCommand(MONTH) == 0x88 && ReadCommand(MONTH) == 0x89
    ensures WriteCommand(DAY) == 0x8A && ReadCommand(DAY) == 0x8B
    ensures WriteCommand(YEAR) == 0x8C && ReadCommand(YEAR) == 0x8D
  {
    CommandPair(SECONDS);
    CommandPair(MINUTES);
    CommandPair(HOURS);
    CommandPair(DATE);
    CommandPair(MONTH);
    CommandPair(DAY);
    CommandPair(YEAR);
  }

  /** The control addresses are write commands, and setting the read bit of 0xBE gives the burst read. */
  lemma ControlCommands()
    ensures WriteCommand(ENABLE) == 0x8E && ReadCommand(ENABLE) == 0x8F
    ensures WriteCommand(TRICKLE) == 0x90 && ReadCommand(TRICKLE) == 0x91
    ensures WriteCommand(CLOCK_BURST) == CLOCK_BURST_WRITE
    ensures ReadCommand(CLOCK_BURST) == CLOCK_BURST_READ
  {
    CommandPair(ENABLE);
    CommandPair(TRICKLE);
    CommandPair(CLOCK_BURST);
  }

  /** A session made of an opening `Start`, an inner trace and a closing `Stop` is framed. */
  lemma FramedSession(inner: seq<Event>)
    requires InSession(inner)
    ensures Framed([Start] + inner + [Stop])
  {
    var trace := [Start] + inner + [Stop];
    assert trace[1..|trace| - 1] == inner;
  }

  /** Two traces of one open session in a row form one open session. */
  lemma InSessionAppend(a: seq<Event>, b: seq<Event>)
    requires InSession(a) && InSession(b)
    ensures InSession(a + b)
  {
    forall i | 0 <= i < |a + b|
      ensures !(a + b)[i].Start? && !(a + b)[i].Stop?
    {
      if i < |a| {
        assert (a + b)[i] == a[i];
      } else {
        assert (a + b)[i] == b[i - |a|];
      }
    }
  }

  /** The boundaries of a session latch nothing: the chip sees only what happens inside. */
  lemma HostBitsOfSession(inner: seq<Event>)
    ensures HostBits([Start] + inner + [Stop]) == HostBits(inner)
  {
    HostBitsAppend([Start], inner);
    HostBitsAppend([Start] + inner, [Stop]);
    assert HostBits([Start]) == [] && HostBits([Stop]) == [] by {
      assert [Start][..0] == [] && [Stop][..0] == [];
    }
  }

  /**
   A command byte written with release, then clock pulses only, framed as one
   session: the chip latches just the command, the line is released at event
   9, and pulses follow until the closing `Stop`.
   */
  lemma ReadSession(command: seq<Event>, pulses: seq<Event>, c: bv8)
    requires |command| == 9 && command[8] == Release && InSession(command) && HostBits(command) == BitsOf(c)
    requires AllReads(pulses)
    ensures var trace := [Start] + (command + pulses) + [Stop];
      && Framed(trace) && |trace| == 11 + |pulses| && HostBits(trace) == BitsOf(c)
      && trace[9] == Release && AllReads(trace[10..10 + |pulses|])
  {
    ReadsLatchNothing(pulses);
    InSessionAppend(command, pulses);
    FramedSession(command + pulses);
    HostBitsOfSession(command + pulses);
    HostBitsAppend(command, pulses);
    var trace := [Start] + (command + pulses) + [Stop];
    assert trace[10..10 + |pulses|] == pulses;
  }

  /**
   Two writes without release framed as one session: the chip latches the
   first trace's bits, then the second's, and nothing is released or read.
   */
  lemma WriteSession(first: seq<Event>, second: seq<Event>)
    requires InSession(first) && Release !in first && ReadBit !in first
    requires InSession(second) && Release !in second && ReadBit !in second
    ensures var trace := [Start] + (first + second) + [Stop];
      && Framed(trace) && HostBits(trace) == HostBits(first) + HostBits(second)
      && Release !in trace && ReadBit !in trace
  {
    InSessionAppend(first, second);
    FramedSession(first + second);
    HostBitsOfSession(first + second);
    HostBitsAppend(first, second);
  }

  /**
   `DS1302_read`: one session that sends the read command for `address`,
   releases the I/O line and reads one byte, whose bit `i` is the chip's
   `samples[i]`.
   */
  method Read(address: bv8, samples: seq<bool>) returns (data: bv8, trace: seq<Event>)
    requires |samples| == 8
    ensures BitsOf(data) == samples
    ensures Framed(trace) && |trace| == 19
    ensures HostBits(trace) == BitsOf(ReadCommand(address))
    ensures trace[9] == Release && AllReads(trace[10..18])
  {
    var command := ToggleWrite(ReadCommand(address), true);
    var d, pulses := ToggleRead(samples);
    data := d;
    ReadSession(command, pulses, ReadCommand(address));
    trace := [Start] + (command + pulses) + [Stop];
  }

  /**
   `DS1302_write`: one session that sends the write command for `address`
   and then `data`, never releasing the I/O line and reading nothing.
   */
  method Write(address: bv8, data: bv8) returns (trace: seq<Event>)
    ensures Framed(trace) && |trace| == 18
    ensures HostBits(trace) == BitsOf(WriteCommand(address)) + BitsOf(data)
    ensures Release !in trace && ReadBit !in trace
  {
    var command := ToggleWrite(WriteCommand(address), false);
    var value := ToggleWrite(data, false);
    WriteSession(command, value);
    trace := [Start] + (command + value) + [Stop];
  }

  /**
   `DS1302_clock_burst_read`: one session that sends 0xBF, releases the I/O
   line and reads eight bytes into the clock block, byte 0 first; `samples`
   are the 64 levels the chip drives.
   */
  method BurstRead(samples: seq<bool>) returns (s: Snapshot, trace: seq<Event>)
    requires |samples| == 64
    ensures BitsOfBytes(s) == samples
    ensures Framed(trace) && |trace| == 75
    ensures HostBits(trace) == BitsOf(CLOCK_BURST_READ)
    ensures trace[9] == Release && AllReads(trace[10..74])
  {
    var command := ToggleWrite(CLOCK_BURST_READ, true);
    var bytes, pulses := ReadBytes(samples);
    s := bytes;
    ReadSession(command, pulses, CLOCK_BURST_READ);
    trace := [Start] + (command + pulses) + [Stop];
  }

  /** Consecutive byte reads, one per eight samples: the loop of the burst read. */
  method ReadBytes(samples: seq<bool>) returns (bytes: seq<bv8>, pulses: seq<Event>)
    requires |samples| % 8 == 0
    ensures |bytes| == |samples| / 8 && BitsOfBytes(bytes) == samples
    ensures |pulses| == |samples| && AllReads(pulses)
  {
    var n := |samples| / 8;
    bytes, pulses := [], [];
    var i := 0;
    while i < n
      invariant 0 <= i <= n
      invariant |bytes| == i && BitsOfBytes(bytes) == samples[..8 * i]
      invariant |pulses| == 8 * i && AllReads(pulses)
    {
      var data, more := ToggleRead(samples[8 * i..8 * i + 8]);
      BitsOfBytesAppend(bytes, data);
      TakeMore(samples, 8 * i, 8);
      bytes := bytes + [data];
      pulses := pulses + more;
      i := i + 1;
    }
    assert samples[..8 * n] == samples;
  }

  /** One more byte contributes its eight bits at the end. */
  lemma BitsOfBytesAppend(bytes: seq<bv8>, b: bv8)
    ensures BitsOfBytes(bytes + [b]) == BitsOfBytes(bytes) + BitsOf(b)
  {
    assert (bytes + [b])[..|bytes|] == bytes;
  }

  /** A longer prefix is the shorter one followed by the slice between them. */
  lemma TakeMore<T>(s: seq<T>, i: nat, n: nat)
    requires i + n <= |s|
    ensures s[..i + n] == s[..i] + s[i..i + n]
  {
  }

  /**
   `DS1302_clock_burst_write`: one session that sends 0xBE and then the eight
   bytes of the clock block, byte 0 first, never releasing the I/O line.
   */
  method BurstWrite(s: Snapshot) returns (trace: seq<Event>)
    ensures Framed(trace) && |trace| == 74
    ensures HostBits(trace) == BitsOf(CLOCK_BURST_WRITE) + BitsOfBytes(s)
    ensures Release !in trace && ReadBit !in trace
  {
    var command := ToggleWrite(CLOCK_BURST_WRITE, false);
    var writes: seq<Event> := [];
    var i := 0;
    while i < 8
      invariant 0 <= i <= 8
      invariant |writes| == 8 * i && HostBits(writes) == BitsOfBytes(s[..i])
      invariant InSession(writes) && Release !in writes && ReadBit !in writes
    {
      var w := ToggleWrite(s[i], false);
      HostBitsAppend(writes, w);
      InSessionAppend(writes, w);
      BitsOfBytesAppend(s[..i], s[i]);
      assert s[..i + 1] == s[..i] + [s[i]];
      writes := writes + w;
      i := i + 1;
    }
    assert s[..8] == s;
    WriteSession(command, writes);
    trace := [Start] + (command + writes) + [Stop];
  }
}
