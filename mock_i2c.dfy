/**
  The I2C bus the driver's tests plug in: a 255-byte register memory that
  reads copy out of and writes copy into, plus a low-voltage variant of the
  read and two transfers that always fail.
 */
module MockI2c {
  import opened Bm8563Header

  /** Size of the mock's register memory. */
  const MemorySize: nat := 255

  /** Bit the low-voltage read forces on in the first byte it returns. */
  const LowVoltageFlag: bv8 := 0x80

  /** What a transfer function returns: success, or the mock's error code. */
  datatype Status = Ok | MockI2cError

  /** One call into the bus, as the device sees it. */
  datatype Transfer =
    | ReadTransfer(address: uint8, register: nat, size: nat)
    | WriteTransfer(address: uint8, register: nat, data: seq<bv8>)

  /** A transfer of `size` bytes starting at `register` stays inside the memory. */
  predicate InMemory(register: nat, size: nat)
  {
    register + size <= MemorySize
  }

  class Bus {
    /** The register memory, zero at start. */
    var memory: array<bv8>
    /** Every transfer requested so far, failed ones included. */
    ghost var transfers: seq<Transfer>

    ghost predicate Valid()
      reads this
    {
      memory.Length == MemorySize
    }

    constructor ()
      ensures Valid() && fresh(memory)
      ensures forall i :: 0 <= i < MemorySize ==> memory[i] == 0
      ensures transfers == []
    {
      memory := new bv8[MemorySize](_ => 0);
      transfers := [];
    }

    /** Copies `size` bytes of memory starting at `register` into `buffer` and succeeds. */
    method Read(address: uint8, register: nat, buffer: array<bv8>, size: nat) returns (status: Status)
      requires Valid() && InMemory(register, size)
      requires size <= buffer.Length && buffer != memory
      modifies buffer, this`transfers
      ensures status == Ok
      ensures buffer[..size] == memory[register..register + size]
      ensures buffer[size..] == old(buffer[size..])
      ensures unchanged(memory)
      ensures transfers == old(transfers) + [ReadTransfer(address, register, size)]
    {
      var start, n := register, size;
      for i := 0 to n
        invariant forall k :: 0 <= k < i ==> buffer[k] == memory[start + k]
        invariant forall k :: n <= k < buffer.Length ==> buffer[k] == old(buffer[k])
        invariant transfers == old(transfers)
      {
        buffer[i] := memory[start + i];
      }
      transfers := transfers + [ReadTransfer(address, register, size)];
      status := Ok;
    }

    /** Copies `size` bytes of `buffer` into memory starting at `register` and succeeds. */
    method Write(address: uint8, register: nat, buffer: array<bv8>, size: nat) returns (status: Status)
      requires Valid() && InMemory(register, size)
      requires size <= buffer.Length && buffer != memory
      modifies memory, this`transfers
      ensures Valid() && status == Ok
      ensures memory[..] == old(memory[..register]) + buffer[..size] + old(memory[register + size..])
      ensures transfers == old(transfers) + [WriteTransfer(address, register, buffer[..size])]
    {
      var start, n := register, size;
      for i := 0 to n
        invariant forall k :: 0 <= k < start ==> memory[k] == old(memory[k])
        invariant forall k :: 0 <= k < i ==> memory[start + k] == buffer[k]
        invariant forall k :: start + i <= k < memory.Length ==> memory[k] == old(memory[k])
        invariant transfers == old(transfers)
      {
        memory[start + i] := buffer[i];
      }
      assert memory[..] == old(memory[..register]) + buffer[..size] + old(memory[register + size..]);
      transfers := transfers + [WriteTransfer(address, register, buffer[..size])];
      status := Ok;
    }

    /**
      Reads like `Read`, then sets the low-voltage flag in the first byte of
      `buffer`, whether or not that byte was part of the copy.
     */
    method LowVoltageRead(address: uint8, register: nat, buffer: array<bv8>, size: nat) returns (status: Status)
      requires Valid() && InMemory(register, size)
      requires size <= buffer.Length && buffer != memory && buffer.Length > 0
      modifies buffer, this`transfers
      ensures status == Ok
      ensures buffer[0] & LowVoltageFlag != 0
      ensures buffer[0] == (if size == 0 then old(buffer[0]) else memory[register]) | LowVoltageFlag
      ensures forall i :: 1 <= i < size ==> buffer[i] == memory[register + i]
      ensures forall i :: 1 <= i < buffer.Length && size <= i ==> buffer[i] == old(buffer[i])
      ensures unchanged(memory)
      ensures transfers == old(transfers) + [ReadTransfer(address, register, size)]
    {
      status := Read(address, register, buffer, size);
      assert buffer[0] == (if size == 0 then old(buffer[0]) else memory[register]);
      buffer[0] := buffer[0] | LowVoltageFlag;
    }

    /** Fails without touching memory or the buffer. */
    method FailingRead(address: uint8, register: nat, buffer: array<bv8>, size: nat) returns (status: Status)
      modifies this`transfers
      ensures status == MockI2cError
      ensures unchanged(memory) && unchanged(buffer)
      ensures transfers == old(transfers) + [ReadTransfer(address, register, size)]
    {
      transfers := transfers + [ReadTransfer(address, register, size)];
      status := MockI2cError;
    }

    /**
      Fails without touching memory. The requirement on `size` is there only
      so that the transfer log can record the bytes offered; the bus itself
      reads none of them.
     */
    method FailingWrite(address: uint8, register: nat, buffer: array<bv8>, size: nat) returns (status: Status)
      requires size <= buffer.Length
      modifies this`transfers
      ensures status == MockI2cError
      ensures unchanged(memory)
      ensures transfers == old(transfers) + [WriteTransfer(address, register, buffer[..size])]
    {
      transfers := transfers + [WriteTransfer(address, register, buffer[..size])];
      status := MockI2cError;
    }
  }

  /** A write followed by a read of the same registers gives back exactly the bytes written. */
  method WriteThenReadBack(bus: Bus, register: nat, data: array<bv8>, out: array<bv8>, size: nat)
    requires bus.Valid() && InMemory(register, size)
    requires size <= data.Length && size <= out.Length
    requires data != bus.memory && out != bus.memory && out != data
    modifies bus.memory, bus`transfers, out
    ensures out[..size] == data[..size]
  {
    var status := bus.Write(Address, register, data, size);
    status := bus.Read(Address, register, out, size);
  }
}
