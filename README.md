# BM8563 real-time clock driver — a Dafny model

This project models the driver for the BM8563 real-time clock, a chip
compatible with the PCF8563. The driver has four entry points:

- `bm8563_init` stores the caller's I2C read and write functions. It then
  clears the two control and status registers.
- `bm8563_read` reads the seven time registers, from the seconds register
  on. It decodes them into a time record: each field is masked, then
  converted from BCD. The top bit of the month register chooses the
  century, 1900 or 2000.
- `bm8563_write` goes the other way. It converts each field to BCD and masks
  it, sets the century bit for years from 2000 on, and keeps the year's last
  two digits.
- `bm8563_close` does nothing.

The driver calls the bus only through the two stored function pointers. The
only bus whose code is visible is the test bus: a 255-byte register memory
with a plain read and write, a read that reports low voltage, and a read and
a write that always fail. The model has that bus as a class, `MockI2c.Bus`.
The driver, `Bm8563.Driver`, holds which of the bus's functions each pointer
refers to. A ghost log on the bus records every transfer the driver
requests, so the contracts can state which transfers each entry point
issues.

The model has four parts:

- `bm8563_h.dfy`: the header's constants, the time record and the ranges
  the header documents for its fields.
- `bm8563_codec.dfy`: the driver's pure arithmetic. It covers the BCD
  conversions, the per-register masks, the century rule and the whole
  seven-byte block. It also holds the round-trip lemmas in both directions,
  and lemmas saying which bits decoding ignores.
- `mock_i2c.dfy`: the test bus. Its methods copy bytes with loops, as
  `memcpy` does.
- `bm8563_driver.dfy`: the driver's state and its four entry points. The
  read and write paths are proved against the codec functions.

C's `uint8_t` and `uint16_t` are `bv8` and `bv16`, so the model keeps every
wrap-around and truncation of the source. `Bcd2Decimal` returns at most 165.
`Decimal2Bcd` loses the high bits of inputs from 160 on, and the year
register keeps only `year % 100`. Because of these, the round trip holds
exactly for the times `SurvivesWrite` describes: every field's digits fit
its register's bits, and the year is 1900..2099. That covers every time
whose six calendar fields lie in the header's ranges and whose year is in
1900..2099 (`ValidTimeRoundTrip`). The header's own year range, 0 to 99, is
not among them: such a year is read back as 1900 plus itself
(`HeaderYearReadsAs1900s`).

## Model

| member | source | states |
|---|---|---|
| Bm8563Codec.Truncate | bm8563.c:118 | narrowing to `uint8_t` keeps exactly the values below 256 |
| Bm8563Codec.Decimal2Bcd | bm8563.c:32-35 | the low nibble is `decimal % 10`; below 160 the high nibble is `decimal / 10`; below 100 the result is valid BCD, at most 0x99 |
| Bm8563Codec.Bcd2Decimal | bm8563.c:37-40 | never above 165; on valid BCD the result is below 100 and its tens and units are the two nibbles |
| Bm8563Codec.BcdRoundTrip | bm8563.c:32-40 | decoding an encoded value gives it back exactly when it is below 160 |
| Bm8563Codec.BcdRoundTripBack | bm8563.c:32-40 | encoding a decoded valid BCD byte gives that byte back |
| Bm8563Codec.BcdBytes | bm8563.c:32-35 | the valid BCD bytes are exactly the encodings of 0..99 |
| Bm8563Codec.DecodeRegister | bm8563.c:63-79 | a masked register decodes to at most 165, and to below 100 when its field bits are valid BCD |
| Bm8563Codec.EncodeRegister | bm8563.c:95-111 | the register has no bit outside the mask, and is valid BCD when the mask clears bit 7 or the value is below 100 |
| Bm8563Codec.Century | bm8563.c:81-84 | the century is 1900 or 2000, and 2000 exactly when the month register's century bit is set |
| Bm8563Codec.DecodeYear | bm8563.c:84-87 | the year lies between the century and the century plus 165, and below the century plus 100 for a valid BCD year register |
| Bm8563Codec.EncodeMonth | bm8563.c:110-116 | the month register holds the masked BCD month plus the century bit, and the century bit is set exactly when the year is 2000 or later |
| Bm8563Codec.EncodeYear | bm8563.c:118-119 | the year register is always valid BCD |
| Bm8563Codec.RegisterRoundTrip | bm8563.c:63-79 | a field written through its register's mask reads back unchanged exactly when it is below that register's limit: 80 for seconds and minutes, 40 for hours and day, 20 for the month, 8 for the weekday |
| Bm8563Codec.RegisterRoundTripBack | bm8563.c:95-111 | a valid BCD register with no bit outside its mask is written back unchanged after being read |
| Bm8563Codec.DecodeRegisterIgnores | bm8563.c:63-79 | decoding depends only on the bits inside the register's mask |
| Bm8563Codec.DecodeYearIgnores | bm8563.c:84-87 | the year depends on the month register only through its century bit |
| Bm8563Codec.MonthIgnoresCentury | bm8563.c:78-79 | setting the century bit does not change the month that is read back |
| Bm8563Codec.TwoDigitYear | bm8563.c:118 | in each of the two centuries, `year % 100` is the year minus that century |
| Bm8563Codec.YearRegisterDigits | bm8563.c:81-87 | a year in 1900..2099, written as century bit plus two digits, reads back unchanged |
| Bm8563Codec.YearOutsideCenturies | bm8563.c:81-87 | a year outside 1900..2099 can never be read back from a BCD year register whose century bit matches it |
| Bm8563Codec.YearRoundTrip | bm8563.c:81-87 | a written year reads back unchanged if and only if it lies in 1900..2099 |
| Bm8563Codec.CenturyDigits | bm8563.c:118 | a year that is a century plus a two-digit number keeps exactly those two digits |
| Bm8563Codec.DecodedYearDigits | bm8563.c:84-87 | the last two digits of a year that was read are the decoded year register |
| Bm8563Codec.YearRoundTripBack | bm8563.c:81-87 | re-encoding a year that was read gives the year register back, and a year from 2000 on exactly when the century bit was set |
| Bm8563Codec.ReadableYears | bm8563.c:81-87 | the years a valid BCD year register can be read as, under either century bit, are exactly 1900..2099 |
| Bm8563Codec.Decode | bm8563.c:63-87 | a decoded block has a year in 1900..2165, and one from 2000 on when the century bit is set |
| Bm8563Codec.Encode | bm8563.c:95-119 | an encoded block is well formed, has the low-voltage bit clear, and has the century bit set exactly for years from 2000 on |
| Bm8563Codec.ReadBackFields | bm8563.c:52-122 | a time whose fields are read back from its registers comes back equal to itself exactly when every field survives the write |
| Bm8563Codec.SameFields | bm8563.h:37-46 | proof step of `ReadBackFields`: two time records are equal exactly when every field survives, given that each field does so exactly within its limit |
| Bm8563Codec.DecodeEncode | bm8563.c:52-122 | reading back a written time gives it unchanged if and only if every field fits its register and the year is in 1900..2099 |
| Bm8563Codec.ValidTimeRoundTrip | bm8563.h:37-46 | every time whose six calendar fields lie in the header's documented ranges and whose year is in 1900..2099 reads back unchanged |
| Bm8563Codec.RegistersRoundTripBack | bm8563.c:95-119 | re-encoding each decoded field of a well-formed block gives that block's byte back |
| Bm8563Codec.MonthRoundTripBack | bm8563.c:110-116 | re-encoding a decoded month with the decoded century gives the month register back |
| Bm8563Codec.EncodeDecode | bm8563.c:52-122 | writing a time just read from a well-formed block gives the same seven bytes |
| Bm8563Codec.WrittenBlocks | bm8563.c:95-119 | the seven-byte blocks the write path can produce are exactly the well-formed blocks |
| Bm8563Codec.DecodeReadsFieldBits | bm8563.c:62-87 | two blocks that agree on the field bits, the century bit and the year register decode to the same time |
| Bm8563Codec.DecodeIgnoresLowVoltage | bm8563.c:62-64 | a block with the low-voltage bit forced on is flagged, and decodes to the same time as the block without it |
| Bm8563Codec.CenturyBitRegisters | bm8563.c:81-87 | setting the century bit adds exactly 100 years to the year read, and leaves the month unchanged |
| Bm8563Codec.ChristmasEve2006 | tests/unit.c:107-131 | 2006-12-24 23:15:20 encodes to 20 15 23 24 00 92 06 (hexadecimal) and reads back unchanged |
| Bm8563Codec.November2002 | tests/unit.c:83-105 | 2002-11-27 23:15:35 encodes to 35 15 23 27 00 91 02 (hexadecimal) and reads back unchanged |
| Bm8563Codec.HeaderYearReadsAs1900s | bm8563.h:45 | a year in the header's documented range 0..99, with the other fields in range, is read back as 1900 plus that year and so never unchanged |
| Bm8563Codec.Year2100ReadsAs2000 | bm8563.c:81-83 | with no third century, the year 2100 is read back as 2000 |
| MockI2c.Bus.constructor | tests/mock_i2c.c:40 | the register memory is 255 zero bytes, and no transfer has happened yet |
| MockI2c.Bus.Read | tests/mock_i2c.c:42-45 | copies `size` bytes of memory from `reg` into the buffer, leaves the rest of the buffer and the memory alone, and succeeds |
| MockI2c.Bus.Write | tests/mock_i2c.c:47-50 | memory becomes the old bytes before `reg`, then the buffer's first `size` bytes, then the old bytes after them; succeeds |
| MockI2c.Bus.LowVoltageRead | tests/mock_i2c.c:52-56 | copies like Read, then the first buffer byte has bit 7 set whether or not it was copied; succeeds |
| MockI2c.Bus.FailingRead | tests/mock_i2c.c:58-60 | returns the mock error and changes neither the memory nor the buffer |
| MockI2c.Bus.FailingWrite | tests/mock_i2c.c:62-64 | returns the mock error and leaves the memory unchanged |
| MockI2c.WriteThenReadBack | tests/mock_i2c.c:42-50 | reading back the registers just written gives exactly the bytes written |
| Bm8563.Driver.constructor | bm8563.c:29-30 | both function pointers start out null |
| Bm8563.Driver.Init | bm8563.c:42-50 | stores both pointers, then writes a single zero to control and status register 1 and then to register 2; through the plain write those two bytes become 0 and no other byte changes |
| Bm8563.Driver.CallWrite | bm8563.c:48-49 | one call through the write pointer: the plain write splices the bytes into memory, the failing one changes nothing; either way the transfer is logged |
| Bm8563.Driver.Read | bm8563.c:52-88 | issues one seven-byte read from the seconds register at address 0x34; the time is the decoding of the seven time registers, with or without the low-voltage bit, and of the buffer's earlier contents when the read fails |
| Bm8563.Driver.CallRead | bm8563.c:58-60 | the buffer receives the seven time registers, the same with bit 7 of the first byte set, or nothing, depending on the read pointer |
| Bm8563.Driver.DecodeBuffer | bm8563.c:62-87 | the field-by-field decoding of the filled buffer equals `Decode` of its bytes |
| Bm8563.Driver.Write | bm8563.c:90-122 | issues one seven-byte write of `Encode(time)` to the seconds register at address 0x34; through the plain write the seven time registers become that block and no other byte changes; a failing write changes nothing |
| Bm8563.Driver.EncodeBuffer | bm8563.c:92-119 | the field-by-field encoding into a fresh buffer equals `Encode(time)` |
| Bm8563.Driver.Close | bm8563.c:124-126 | changes nothing |
| Bm8563.WriteThenRead | tests/unit.c:83-131 | a time written and read back through the test bus, with or without the low-voltage flag, comes back as `Decode(Encode(time))`, and unchanged exactly when every field survives the write |

## Left out

- The I2C transport itself is not part of this model. So are the other functions a caller may plug in, since their code is not visible. Each function pointer is modelled as a choice among the test bus's functions.
- The pointers are null until `bm8563_init` runs. A call through a null pointer is excluded: `Init` requires a write function, and `Read` and `Write` require that the pointer they call is set.
- The test bus ignores its `handle` and `address` arguments. The model drops `handle` and logs `address`.
- The test bus's status values are shown as the `Status` datatype. Their integer values are defined in headers that are not part of this model. The driver discards every status, and so does the model.
- The test bus's `reg` is `uint8_t` and its `size` is `uint16_t`. A C transfer past the 255-byte memory overruns the array. The model has `reg` and `size` as naturals and requires the transfer to fit in memory.
- `bm8563_read` leaves its local buffer uninitialised, so a failed read decodes whatever the stack held. `Bm8563.Driver.Read` takes those bytes as its `stale` parameter.
- The tests are written against a newer version of the driver's API: a device handle, status results, and `struct tm` with `strftime`. That API, its status codes and its low-voltage error are not modelled.
- The example lemmas carry the tests' dates over into the driver's own time record.
- Bit 7 of the seconds register (low voltage) is modelled only by the predicate `LowVoltageFlagged`, kept apart from reading. The modelled driver never looks at it, so decoding ignores it.
- The chip's own timekeeping is not modelled. This includes the century rollover from 99 to 00, which the driver's comment says the BM8563 does not perform.
- Concurrent access to the bus and to the global pointers is not modelled.
- The header names the record's fields `second`, `minute` and `hour`, and documents the year as 0 to 99. The driver uses `seconds`, `minutes` and `hours`, and stores the absolute year. The model follows the driver.
- The header defines neither the control and status register offsets, nor the seconds register offset, nor the century bit. The model takes 0x00, 0x01, 0x02 and 0x80 from the chip's register map.
- `Bm8563.Driver.DecodeBuffer` and `Bm8563.Driver.EncodeBuffer` convert each register with one call of `DecodeRegister` or `EncodeRegister`, rather than through the separate `bcd` temporary the source assigns. The two forms compute the same bytes.
- Bm8563Codec.CenturyBitRegisters: the effect of the century bit is stated per register (month and year), not for the whole seven-byte block.
