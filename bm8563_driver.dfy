/**
  The BM8563 driver's stateful part: the two transfer-function pointers that
  initialisation stores, and the read and write paths that move the time
  block between the chip's registers and a time record through them.

  The only transfer functions whose code is visible are those of the test
  bus, so each pointer is modelled as a choice among them, and the chip is
  the bus's register memory.
 */
module Bm8563 {
  import opened Bm8563Header
  import opened Bm8563Codec
  import opened MockI2c

  /** What the driver's read pointer holds: nothing yet, or one of the bus's read functions. */
  datatype ReadFunction = NoRead | MockRead | MockLowVoltageRead | MockFailingRead

  /** What the driver's write pointer holds: nothing yet, or one of the bus's write functions. */
  datatype WriteFunction = NoWrite | MockWrite | MockFailingWrite

  class Driver {
    /** The bus both pointers lead to. */
    const bus: Bus
    /** The stored read pointer. */
    var read: ReadFunction
    /** The stored write pointer. */
    var write: WriteFunction

    /** The chip's seven time registers, seconds first. */
    ghost function TimeRegisters(): (block: seq<bv8>)
      reads this, bus, bus.memory
      requires bus.Valid()
      ensures |block| == TimeStructSize
    {
      bus.memory[SecondsRegister..SecondsRegister + TimeStructSize]
    }

    /** Program start: both pointers are still null. */
    constructor (bus: Bus)
      ensures this.bus == bus && read == NoRead && write == NoWrite
    {
      this.bus := bus;
      read := NoRead;
      write := NoWrite;
    }

    /**
      Stores both pointers, then writes zero to the two control and status
      registers through the new write pointer. Failures of those writes are
      not reported.
     */
    method Init(readFunction: ReadFunction, writeFunction: WriteFunction)
      requires bus.Valid() && writeFunction != NoWrite
      modifies this, bus.memory, bus`transfers
      ensures read == readFunction && write == writeFunction
      ensures writeFunction == MockWrite ==>
        bus.memory[..] == old(bus.memory[..])[ControlStatus1 := 0][ControlStatus2 := 0]
      ensures writeFunction == MockFailingWrite ==> bus.memory[..] == old(bus.memory[..])
      ensures bus.transfers == old(bus.transfers)
        + [WriteTransfer(Address, ControlStatus1, [0]), WriteTransfer(Address, ControlStatus2, [0])]
    {
      read := readFunction;
      write := writeFunction;
      var clear := new bv8[1](_ => 0);
      assert clear[..1] == [0];
      var status := CallWrite(ControlStatus1, clear, 1);
      status := CallWrite(ControlStatus2, clear, 1);
    }

    /** One call through the write pointer. */
    method CallWrite(register: nat, buffer: array<bv8>, size: nat) returns (status: Status)
      requires bus.Valid() && write != NoWrite && InMemory(register, size)
      requires size <= buffer.Length && buffer != bus.memory
      modifies bus.memory, bus`transfers
      ensures write == MockWrite ==>
        bus.memory[..] == old(bus.memory[..register]) + buffer[..size] + old(bus.memory[register + size..])
      ensures write == MockFailingWrite ==> bus.memory[..] == old(bus.memory[..])
      ensures bus.transfers == old(bus.transfers) + [WriteTransfer(Address, register, buffer[..size])]
    {
      match write {
        case MockWrite => status := bus.Write(Address, register, buffer, size);
        case MockFailingWrite => status := bus.FailingWrite(Address, register, buffer, size);
      }
    }

    /**
      Reads the seven time registers into a local buffer and decodes them.
      `stale` is what that buffer held beforehand: the source does not
      initialise it, and a failed read leaves it as it was. The low-voltage
      flag is not looked at.
     */
    method Read(stale: seq<bv8>) returns (time: DateTime)
      requires bus.Valid() && read != NoRead && |stale| == TimeStructSize
      modifies bus`transfers
      ensures read == MockRead ==> time == Decode(TimeRegisters())
      ensures read == MockLowVoltageRead ==> time == Decode(TimeRegisters())
      ensures read == MockFailingRead ==> time == Decode(stale)
      ensures bus.transfers == old(bus.transfers) + [ReadTransfer(Address, SecondsRegister, TimeStructSize)]
    {
      var buffer := new bv8[TimeStructSize](i requires 0 <= i < TimeStructSize => stale[i]);
      assert buffer[..] == stale;
      var status := CallRead(buffer);
      if read == MockLowVoltageRead {
        DecodeIgnoresLowVoltage(TimeRegisters());
      }
      time := DecodeBuffer(buffer);
    }

    /** The read path's one call through the read pointer: seven bytes from the seconds register on. */
    method CallRead(buffer: array<bv8>) returns (status: Status)
      requires bus.Valid() && read != NoRead && buffer.Length == TimeStructSize
      modifies buffer, bus`transfers
      ensures read == MockRead ==> buffer[..] == TimeRegisters()
      ensures read == MockLowVoltageRead ==>
        buffer[..] == TimeRegisters()[0 := TimeRegisters()[0] | LowVoltageBit]
      ensures read == MockFailingRead ==> buffer[..] == old(buffer[..])
      ensures bus.transfers == old(bus.transfers) + [ReadTransfer(Address, SecondsRegister, TimeStructSize)]
    {
      match read {
        case MockRead =>
          status := bus.Read(Address, SecondsRegister, buffer, TimeStructSize);
          assert buffer[..] == buffer[..TimeStructSize];
        case MockLowVoltageRead =>
          status := bus.LowVoltageRead(Address, SecondsRegister, buffer, TimeStructSize);
        case MockFailingRead =>
          status := bus.FailingRead(Address, SecondsRegister, buffer, TimeStructSize);
      }
    }

    /**
      The field-by-field decoding of the read path, on the buffer the
      transfer filled: each register's field bits converted from BCD, and the
      year register offset by the century the month register's top bit picks.
     */
    static method DecodeBuffer(buffer: array<bv8>) returns (time: DateTime)
      requires buffer.Length == TimeStructSize
      ensures time == Decode(buffer[..])
    {
      var seconds := DecodeRegister(buffer[0], SecondsMask);
      var minutes := DecodeRegister(buffer[1], MinutesMask);
      var hours := DecodeRegister(buffer[2], HoursMask);
      var day := DecodeRegister(buffer[3], DayMask);
      var weekday := DecodeRegister(buffer[4], WeekdayMask);
      var month := DecodeRegister(buffer[5], MonthMask);
      var year := DecodeYear(buffer[5], buffer[6]);
      time := DateTime(seconds, minutes, hours, day, weekday, month, year);
    }

    /**
      Encodes `time` field by field into a local buffer and writes it to the
      seven time registers through the write pointer.
     */
    method Write(time: DateTime)
      requires bus.Valid() && write != NoWrite
      modifies bus.memory, bus`transfers
      ensures write == MockWrite ==>
        bus.memory[..] == old(bus.memory[..SecondsRegister]) + Encode(time)
                          + old(bus.memory[SecondsRegister + TimeStructSize..])
      ensures write == MockWrite ==> TimeRegisters() == Encode(time)
      ensures write == MockFailingWrite ==> bus.memory[..] == old(bus.memory[..])
      ensures bus.transfers == old(bus.transfers) + [WriteTransfer(Address, SecondsRegister, Encode(time))]
    {
      var buffer := EncodeBuffer(time);
      assert buffer[..TimeStructSize] == buffer[..];
      var status := CallWrite(SecondsRegister, buffer, TimeStructSize);
    }

    /**
      The field-by-field encoding of the write path, into a fresh buffer:
      each field converted to BCD and masked, the century bit added to the
      month register for years from 2000 on, and the year's last two digits.
     */
    static method EncodeBuffer(time: DateTime) returns (buffer: array<bv8>)
      ensures fresh(buffer) && buffer[..] == Encode(time)
    {
      buffer := new bv8[TimeStructSize];
      buffer[0] := EncodeRegister(time.seconds, SecondsMask);
      buffer[1] := EncodeRegister(time.minutes, MinutesMask);
      buffer[2] := EncodeRegister(time.hours, HoursMask);
      buffer[3] := EncodeRegister(time.day, DayMask);
      buffer[4] := EncodeRegister(time.weekday, WeekdayMask);
      var month := EncodeRegister(time.month, MonthMask);
      if time.year >= 2000 {
        month := month | CenturyBit;
      }
      buffer[5] := month;
      buffer[6] := EncodeYear(time.year);
    }

    /** Does nothing. */
    method Close()
      ensures unchanged(this, bus, bus.memory)
    {
    }
  }

  /**
    A time written through the test bus and read back, as the driver's tests
    do: the result is the decoding of the encoded block, and equals the time
    written exactly when every field survives the write, whether or not the
    read reports low voltage.
   */
  method WriteThenRead(driver: Driver, time: DateTime, stale: seq<bv8>) returns (readBack: DateTime)
    requires driver.bus.Valid() && driver.write == MockWrite
    requires driver.read == MockRead || driver.read == MockLowVoltageRead
    requires |stale| == TimeStructSize
    modifies driver.bus.memory, driver.bus`transfers
    ensures readBack == Decode(Encode(time))
    ensures readBack == time <==> SurvivesWrite(time)
  {
    driver.Write(time);
    readBack := driver.Read(stale);
    DecodeEncode(time);
  }
}
