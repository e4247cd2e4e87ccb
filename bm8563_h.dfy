/**
  Constants, integer widths and the time record of the BM8563 real-time-clock
  driver's public header, with the value ranges the header documents for each
  field of the record.
 */
module Bm8563Header {

  /**
    C's `uint8_t` and `uint16_t`. Every value the driver computes in `int`
    after promotion fits back in the declared width, except where a
    truncation is written out.
   */
  type uint8 = bv8
  type uint16 = bv16

  /** Bus address of the chip. */
  const Address: uint8 := 0x34

  /** Number of bytes in the time block (seconds .. year registers). */
  const TimeStructSize: nat := 7

  /**
    Register offsets and the century bit. The driver uses these names without
    the header defining them; the values are those of the chip's register map.
    The offsets are plain integer constants, used only as positions in the
    chip's register space.
   */
  const ControlStatus1: nat := 0x00
  const ControlStatus2: nat := 0x01
  const SecondsRegister: nat := 0x02
  const CenturyBit: bv8 := 0x80

  /**
    The time record the driver reads and writes. Field names follow the driver
    (`seconds`, `minutes`, `hours`); widths follow the header's record. The year
    is the absolute year (e.g. 2006), as the driver stores it.
   */
  datatype DateTime = DateTime(
    seconds: uint8,
    minutes: uint8,
    hours: uint8,
    day: uint8,
    weekday: uint8,
    month: uint8,
    year: uint16)

  /** The ranges the header documents for the six calendar fields. */
  predicate ValidFields(t: DateTime)
  {
    && t.seconds <= 59
    && t.minutes <= 59
    && t.hours <= 23
    && 1 <= t.day <= 31
    && t.weekday <= 6
    && 1 <= t.month <= 12
  }

  /** The absolute years that the two-digit year register and the century bit can hold. */
  predicate RepresentableYear(year: uint16)
  {
    1900 <= year <= 2099
  }

  /** A time the driver can store in the chip and get back unchanged. */
  predicate ValidTime(t: DateTime)
  {
    ValidFields(t) && RepresentableYear(t.year)
  }
}
