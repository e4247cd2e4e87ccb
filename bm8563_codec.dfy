/**
  The pure part of the BM8563 driver: the packed BCD conversions and the
  mapping between a time record and the seven-byte register block
  (seconds, minutes, hours, day, weekday, month with century bit, year).

  Every property of the whole block is proved from properties of one
  register at a time; the register lemmas carry the bit-level reasoning.
 */
module Bm8563Codec {
  import opened Bm8563Header

  /** Bits of each register that carry the field's BCD value. */
  const SecondsMask: bv8 := 0x7F
  const MinutesMask: bv8 := 0x7F
  const HoursMask: bv8 := 0x3F
  const DayMask: bv8 := 0x3F
  const WeekdayMask: bv8 := 0x07
  const MonthMask: bv8 := 0x1F
  const YearMask: bv8 := 0xFF

  /** Bit 7 of the seconds register: the chip's low-voltage flag. */
  const LowVoltageBit: bv8 := 0x80

  /** Both nibbles of `b` are decimal digits. */
  predicate IsBcd(b: bv8)
  {
    b >> 4 <= 9 && b & 0x0F <= 9
  }

  /** C's implicit conversion of a wider unsigned value to `uint8_t`: keep the low byte. */
  function Truncate(x: uint16): (b: uint8)
    ensures x < 0x100 ==> b as uint16 == x
    ensures x >= 0x100 ==> b as uint16 != x
  {
    (x & 0xFF) as uint8
  }

  /**
    Packs the tens digit into the high nibble and the ones digit into the low
    nibble. The shift is done on a byte, so for inputs of 160 and more the
    tens digit loses its high bits, as the C conversion back to `uint8_t` does.
   */
  function Decimal2Bcd(decimal: uint8): (bcd: bv8)
    ensures bcd & 0x0F == decimal % 10
    ensures decimal < 160 ==> bcd >> 4 == decimal / 10
    ensures decimal < 100 ==> IsBcd(bcd) && bcd <= 0x99
  {
    ((decimal / 10) << 4) | (decimal % 10)
  }

  /**
    High nibble times ten plus low nibble. Total on every byte; a malformed
    nibble above 9 is decoded by the same formula.
   */
  function Bcd2Decimal(bcd: bv8): (decimal: uint8)
    ensures decimal <= 165
    ensures IsBcd(bcd) ==> decimal < 100 && decimal / 10 == bcd >> 4 && decimal % 10 == bcd & 0x0F
  {
    (bcd >> 4) * 10 + (bcd & 0x0F)
  }

  /**
    Decoding undoes encoding exactly below 160: from 100 on the tens digit
    no longer fits a decimal nibble but still round-trips, and from 160 on
    the shift loses its high bits.
   */
  lemma BcdRoundTrip(x: uint8)
    ensures Bcd2Decimal(Decimal2Bcd(x)) == x <==> x < 160
  {
  }

  /** Encoding undoes decoding on well-formed BCD bytes. */
  lemma BcdRoundTripBack(b: bv8)
    requires IsBcd(b)
    ensures Decimal2Bcd(Bcd2Decimal(b)) == b
  {
  }

  /** The valid BCD bytes are exactly the encodings of 0..99. */
  lemma BcdBytes(b: bv8)
    ensures IsBcd(b) <==> exists decimal: uint8 :: decimal < 100 && Decimal2Bcd(decimal) == b
  {
    if IsBcd(b) {
      BcdRoundTripBack(b);
      assert Bcd2Decimal(b) < 100 && Decimal2Bcd(Bcd2Decimal(b)) == b;
    }
  }

  /* ---------------- One register at a time ---------------- */

  /** A register as the read path decodes it: its field bits, converted from BCD. */
  function DecodeRegister(register: bv8, mask: bv8): (value: uint8)
    ensures value <= 165
    ensures IsBcd(register & mask) ==> value < 100
  {
    Bcd2Decimal(register & mask)
  }

  /** A field as the write path stores it: converted to BCD, bits outside `mask` cleared. */
  function EncodeRegister(value: uint8, mask: bv8): (register: bv8)
    ensures register & mask == register
    ensures mask & 0x80 == 0 || value < 100 ==> IsBcd(register)
  {
    Decimal2Bcd(value) & mask
  }

  /** The century the read path assumes for a month register. */
  function Century(monthRegister: bv8): (century: uint16)
    ensures century == 1900 || century == 2000
    ensures century == 2000 <==> monthRegister & CenturyBit != 0
  {
    if monthRegister & CenturyBit != 0 then 2000 else 1900
  }

  /** The absolute year the read path computes from the month and year registers. */
  function DecodeYear(monthRegister: bv8, yearRegister: bv8): (year: uint16)
    ensures Century(monthRegister) <= year <= Century(monthRegister) + 165
    ensures IsBcd(yearRegister) ==> year < Century(monthRegister) + 100
  {
    DecodeRegister(yearRegister, YearMask) as uint16 + Century(monthRegister)
  }

  /** The month register the write path stores: the BCD month plus the century bit for years from 2000 on. */
  function EncodeMonth(month: uint8, year: uint16): (register: bv8)
    ensures register & (MonthMask | CenturyBit) == register
    ensures register & MonthMask == EncodeRegister(month, MonthMask)
    ensures register & CenturyBit != 0 <==> year >= 2000
  {
    var bcd := EncodeRegister(month, MonthMask);
    if year >= 2000 then bcd | CenturyBit else bcd
  }

  /** The year register the write path stores: the last two decimal digits of the year, in BCD. */
  function EncodeYear(year: uint16): (register: bv8)
    ensures IsBcd(register)
  {
    EncodeRegister(Truncate(year % 100), YearMask)
  }

  /**
    The largest value plus one whose tens digit fits the bits a register keeps:
    three bits of tens for seconds and minutes, two for hours and day, one for
    the month, and none (with three bits of units) for the weekday.
   */
  function FieldLimit(mask: bv8): (limit: uint8)
    requires mask in {SecondsMask, HoursMask, MonthMask, WeekdayMask}
  {
    if mask == SecondsMask then 80
    else if mask == HoursMask then 40
    else if mask == MonthMask then 20
    else 8
  }

  /**
    A field value survives encoding, masking and decoding exactly when it is
    below its register's limit.
   */
  lemma RegisterRoundTrip(x: uint8, mask: bv8)
    requires mask in {SecondsMask, HoursMask, MonthMask, WeekdayMask}
    ensures DecodeRegister(EncodeRegister(x, mask), mask) == x <==> x < FieldLimit(mask)
  {
  }

  /** A BCD register with no bits outside `mask` survives decoding and re-encoding under `mask`. */
  lemma RegisterRoundTripBack(register: bv8, mask: bv8)
    requires register & mask == register && IsBcd(register)
    ensures EncodeRegister(DecodeRegister(register, mask), mask) == register
  {
    BcdRoundTripBack(register);
  }

  /** Bits outside the mask do not change what the read path decodes. */
  lemma DecodeRegisterIgnores(register: bv8, other: bv8, mask: bv8)
    requires register & mask == other & mask
    ensures DecodeRegister(register, mask) == DecodeRegister(other, mask)
  {
  }

  /** Of the month register, the decoded year depends on the century bit alone. */
  lemma DecodeYearIgnores(monthRegister: bv8, other: bv8, yearRegister: bv8)
    requires monthRegister & CenturyBit == other & CenturyBit
    ensures DecodeYear(monthRegister, yearRegister) == DecodeYear(other, yearRegister)
  {
    assert Century(monthRegister) == Century(other);
  }

  /** The month decoded from the month register ignores the century bit. */
  lemma MonthIgnoresCentury(month: uint8, year: uint16)
    ensures DecodeRegister(EncodeMonth(month, year), MonthMask)
         == DecodeRegister(EncodeRegister(month, MonthMask), MonthMask)
  {
    DecodeRegisterIgnores(EncodeMonth(month, year), EncodeRegister(month, MonthMask), MonthMask);
  }

  /** The two-digit year the write path computes, on the two centuries the chip can tell apart. */
  lemma TwoDigitYear(year: uint16)
    ensures 1900 <= year < 2000 ==> year % 100 == year - 1900
    ensures 2000 <= year < 2100 ==> year % 100 == year - 2000
  {
  }

  /** On 1900..2099 the month and year registers written for `year` read back as `year`. */
  lemma YearRegisterDigits(month: uint8, year: uint16)
    requires RepresentableYear(year)
    ensures DecodeYear(EncodeMonth(month, year), EncodeYear(year)) == year
  {
    TwoDigitYear(year);
    BcdRoundTrip(Truncate(year % 100));
  }

  /**
    Outside 1900..2099 no year register decodes to `year` under the century
    bit the write path sets for it: the read path only produces 1900..1999
    without the bit and 2000..2099 with it.
   */
  lemma YearOutsideCenturies(year: uint16, monthRegister: bv8, yearRegister: bv8)
    requires !RepresentableYear(year)
    requires IsBcd(yearRegister)
    requires monthRegister & CenturyBit != 0 <==> year >= 2000
    ensures DecodeYear(monthRegister, yearRegister) != year
  {
  }

  /**
    The month and year registers written for `year` read back as `year`
    exactly on 1900..2099: earlier years come back in a later century and
    later years lose their century, since the chip keeps one century bit.
   */
  lemma YearRoundTrip(month: uint8, year: uint16)
    ensures DecodeYear(EncodeMonth(month, year), EncodeYear(year)) == year <==> RepresentableYear(year)
  {
    if RepresentableYear(year) {
      YearRegisterDigits(month, year);
    } else {
      YearOutsideCenturies(year, EncodeMonth(month, year), EncodeYear(year));
    }
  }

  /** A year of the form century plus two digits has those two digits as its remainder by 100. */
  lemma CenturyDigits(year: uint16, digits: uint8)
    requires digits < 100
    requires year == digits as uint16 + 1900 || year == digits as uint16 + 2000
    ensures Truncate(year % 100) == digits
  {
    TwoDigitYear(year);
    assert year % 100 == digits as uint16;
  }

  /** The two digits the write path takes from a decoded year are the year register's value. */
  lemma DecodedYearDigits(monthRegister: bv8, yearRegister: bv8)
    requires IsBcd(yearRegister)
    ensures Truncate(DecodeYear(monthRegister, yearRegister) % 100) == Bcd2Decimal(yearRegister)
  {
    CenturyDigits(DecodeYear(monthRegister, yearRegister), Bcd2Decimal(yearRegister));
  }

  /**
    A well-formed year register, under any month register, reads back as a
    year that the write path stores in the same register again; the decoded
    year is from 2000 on exactly when the century bit is set.
   */
  lemma YearRoundTripBack(monthRegister: bv8, yearRegister: bv8)
    requires IsBcd(yearRegister)
    ensures EncodeYear(DecodeYear(monthRegister, yearRegister)) == yearRegister
    ensures DecodeYear(monthRegister, yearRegister) >= 2000 <==> monthRegister & CenturyBit != 0
  {
    DecodedYearDigits(monthRegister, yearRegister);
    BcdRoundTripBack(yearRegister);
  }

  /** The years a well-formed year register can be read as are exactly 1900..2099. */
  lemma ReadableYears(year: uint16)
    ensures RepresentableYear(year) <==>
      exists monthRegister: bv8, yearRegister: bv8 ::
        IsBcd(yearRegister) && DecodeYear(monthRegister, yearRegister) == year
  {
    if RepresentableYear(year) {
      YearRegisterDigits(1, year);
      assert IsBcd(EncodeYear(year)) && DecodeYear(EncodeMonth(1, year), EncodeYear(year)) == year;
    }
  }

  /* ---------------- The whole time block ---------------- */

  /** The value encoded by the time block, as the driver's read path decodes it. */
  function Decode(block: seq<bv8>): (t: DateTime)
    requires |block| == TimeStructSize
    ensures 1900 <= t.year <= 2165
    ensures block[5] & CenturyBit != 0 ==> t.year >= 2000
  {
    DateTime(
      seconds := DecodeRegister(block[0], SecondsMask),
      minutes := DecodeRegister(block[1], MinutesMask),
      hours := DecodeRegister(block[2], HoursMask),
      day := DecodeRegister(block[3], DayMask),
      weekday := DecodeRegister(block[4], WeekdayMask),
      month := DecodeRegister(block[5], MonthMask),
      year := DecodeYear(block[5], block[6]))
  }

  /**
    The register image the driver's write path produces: every byte is BCD
    with its reserved bits clear, the low-voltage bit included, and the
    month register carries only the month and the century bit.
   */
  predicate WellFormedBlock(block: seq<bv8>)
  {
    && |block| == TimeStructSize
    && block[0] & SecondsMask == block[0] && IsBcd(block[0])
    && block[1] & MinutesMask == block[1] && IsBcd(block[1])
    && block[2] & HoursMask == block[2] && IsBcd(block[2])
    && block[3] & DayMask == block[3] && IsBcd(block[3])
    && block[4] & WeekdayMask == block[4] && IsBcd(block[4])
    && block[5] & (MonthMask | CenturyBit) == block[5] && IsBcd(block[5] & MonthMask)
    && IsBcd(block[6])
  }

  /** The time block the driver's write path sends for `t`. */
  function Encode(t: DateTime): (block: seq<bv8>)
    ensures WellFormedBlock(block)
    ensures block[0] & LowVoltageBit == 0
    ensures block[5] & CenturyBit != 0 <==> t.year >= 2000
  {
    [ EncodeRegister(t.seconds, SecondsMask),
      EncodeRegister(t.minutes, MinutesMask),
      EncodeRegister(t.hours, HoursMask),
      EncodeRegister(t.day, DayMask),
      EncodeRegister(t.weekday, WeekdayMask),
      EncodeMonth(t.month, t.year),
      EncodeYear(t.year) ]
  }

  /** The times whose every field comes back unchanged from a write and a read. */
  predicate SurvivesWrite(t: DateTime)
  {
    && t.seconds < 80 && t.minutes < 80
    && t.hours < 40 && t.day < 40
    && t.weekday < 8 && t.month < 20
    && RepresentableYear(t.year)
  }

  /**
    The field-wise core of `DecodeEncode`: a record whose fields are the
    registers written for `t`, read back, equals `t` exactly when `t`
    survives a write.
   */
  lemma ReadBackFields(t: DateTime, r: DateTime)
    requires r.seconds == DecodeRegister(EncodeRegister(t.seconds, SecondsMask), SecondsMask)
    requires r.minutes == DecodeRegister(EncodeRegister(t.minutes, MinutesMask), MinutesMask)
    requires r.hours == DecodeRegister(EncodeRegister(t.hours, HoursMask), HoursMask)
    requires r.day == DecodeRegister(EncodeRegister(t.day, DayMask), DayMask)
    requires r.weekday == DecodeRegister(EncodeRegister(t.weekday, WeekdayMask), WeekdayMask)
    requires r.month == DecodeRegister(EncodeMonth(t.month, t.year), MonthMask)
    requires r.year == DecodeYear(EncodeMonth(t.month, t.year), EncodeYear(t.year))
    ensures r == t <==> SurvivesWrite(t)
  {
    RegisterRoundTrip(t.seconds, SecondsMask);
    RegisterRoundTrip(t.minutes, MinutesMask);
    RegisterRoundTrip(t.hours, HoursMask);
    RegisterRoundTrip(t.day, DayMask);
    RegisterRoundTrip(t.weekday, WeekdayMask);
    RegisterRoundTrip(t.month, MonthMask);
    MonthIgnoresCentury(t.month, t.year);
    YearRoundTrip(t.month, t.year);
    SameFields(t, r);
  }

  /** Proof step of `ReadBackFields`: record equality from the seven per-field conditions. */
  lemma SameFields(t: DateTime, r: DateTime)
    requires r.seconds == t.seconds <==> t.seconds < 80
    requires r.minutes == t.minutes <==> t.minutes < 80
    requires r.hours == t.hours <==> t.hours < 40
    requires r.day == t.day <==> t.day < 40
    requires r.weekday == t.weekday <==> t.weekday < 8
    requires r.month == t.month <==> t.month < 20
    requires r.year == t.year <==> RepresentableYear(t.year)
    ensures r == t <==> SurvivesWrite(t)
  {
  }

  /** Decoding the block written for `t` gives back `t` exactly when `t` survives a write. */
  lemma DecodeEncode(t: DateTime)
    ensures Decode(Encode(t)) == t <==> SurvivesWrite(t)
  {
    ReadBackFields(t, Decode(Encode(t)));
  }

  /** Every time within the documented field ranges and years 1900..2099 reads back as written. */
  lemma ValidTimeRoundTrip(t: DateTime)
    requires ValidTime(t)
    ensures Decode(Encode(t)) == t
  {
    DecodeEncode(t);
  }

  /**
    The register-wise core of `EncodeDecode`: the fields read from a
    well-formed block are written back as the same seven registers.
   */
  lemma RegistersRoundTripBack(block: seq<bv8>, t: DateTime)
    requires WellFormedBlock(block)
    requires t.seconds == DecodeRegister(block[0], SecondsMask)
    requires t.minutes == DecodeRegister(block[1], MinutesMask)
    requires t.hours == DecodeRegister(block[2], HoursMask)
    requires t.day == DecodeRegister(block[3], DayMask)
    requires t.weekday == DecodeRegister(block[4], WeekdayMask)
    requires t.month == DecodeRegister(block[5], MonthMask)
    requires t.year == DecodeYear(block[5], block[6])
    ensures EncodeRegister(t.seconds, SecondsMask) == block[0]
    ensures EncodeRegister(t.minutes, MinutesMask) == block[1]
    ensures EncodeRegister(t.hours, HoursMask) == block[2]
    ensures EncodeRegister(t.day, DayMask) == block[3]
    ensures EncodeRegister(t.weekday, WeekdayMask) == block[4]
    ensures EncodeMonth(t.month, t.year) == block[5]
    ensures EncodeYear(t.year) == block[6]
  {
    RegisterRoundTripBack(block[0], SecondsMask);
    RegisterRoundTripBack(block[1], MinutesMask);
    RegisterRoundTripBack(block[2], HoursMask);
    RegisterRoundTripBack(block[3], DayMask);
    RegisterRoundTripBack(block[4], WeekdayMask);
    MonthRoundTripBack(block[5], t.year);
    YearRoundTripBack(block[5], block[6]);
  }

  /**
    A well-formed month register reads back as a month that the write path
    stores in the same register again, given a year on the side of 2000 that
    its century bit says.
   */
  lemma MonthRoundTripBack(monthRegister: bv8, year: uint16)
    requires monthRegister & (MonthMask | CenturyBit) == monthRegister && IsBcd(monthRegister & MonthMask)
    requires year >= 2000 <==> monthRegister & CenturyBit != 0
    ensures EncodeMonth(DecodeRegister(monthRegister, MonthMask), year) == monthRegister
  {
    var month := monthRegister & MonthMask;
    RegisterRoundTripBack(month, MonthMask);
    DecodeRegisterIgnores(monthRegister, month, MonthMask);
    assert monthRegister == if monthRegister & CenturyBit != 0 then month | CenturyBit else month;
  }

  /** Encoding undoes decoding on every well-formed block. */
  lemma EncodeDecode(block: seq<bv8>)
    requires WellFormedBlock(block)
    ensures Encode(Decode(block)) == block
  {
    RegistersRoundTripBack(block, Decode(block));
  }

  /** The blocks the write path can produce are exactly the well-formed ones. */
  lemma WrittenBlocks(block: seq<bv8>)
    ensures WellFormedBlock(block) <==> exists t :: Encode(t) == block
  {
    if WellFormedBlock(block) {
      EncodeDecode(block);
    }
  }

  /* ---------------- What the read path ignores ---------------- */

  /**
    Bit 7 of the seconds register is set: the chip's low-voltage warning,
    meaning the clock may have lost its time. The read path never looks at it.
   */
  predicate LowVoltageFlagged(block: seq<bv8>)
    requires |block| == TimeStructSize
  {
    block[0] & LowVoltageBit != 0
  }

  /** Two blocks that agree on every bit the read path keeps decode to the same time. */
  lemma DecodeReadsFieldBits(block: seq<bv8>, other: seq<bv8>)
    requires |block| == TimeStructSize && |other| == TimeStructSize
    requires block[0] & SecondsMask == other[0] & SecondsMask
    requires block[1] & MinutesMask == other[1] & MinutesMask
    requires block[2] & HoursMask == other[2] & HoursMask
    requires block[3] & DayMask == other[3] & DayMask
    requires block[4] & WeekdayMask == other[4] & WeekdayMask
    requires block[5] & MonthMask == other[5] & MonthMask
    requires block[5] & CenturyBit == other[5] & CenturyBit
    requires block[6] == other[6]
    ensures Decode(block) == Decode(other)
  {
    DecodeRegisterIgnores(block[0], other[0], SecondsMask);
    DecodeRegisterIgnores(block[1], other[1], MinutesMask);
    DecodeRegisterIgnores(block[2], other[2], HoursMask);
    DecodeRegisterIgnores(block[3], other[3], DayMask);
    DecodeRegisterIgnores(block[4], other[4], WeekdayMask);
    DecodeRegisterIgnores(block[5], other[5], MonthMask);
    DecodeYearIgnores(block[5], other[5], block[6]);
  }

  /** Setting the low-voltage flag does not change the time the read path decodes. */
  lemma DecodeIgnoresLowVoltage(block: seq<bv8>)
    requires |block| == TimeStructSize
    ensures LowVoltageFlagged(block[0 := block[0] | LowVoltageBit])
    ensures Decode(block[0 := block[0] | LowVoltageBit]) == Decode(block)
  {
    DecodeReadsFieldBits(block[0 := block[0] | LowVoltageBit], block);
  }

  /**
    Setting the century bit of the month register moves the decoded year
    forward by exactly one hundred years and leaves the decoded month alone.
   */
  lemma CenturyBitRegisters(monthRegister: bv8, yearRegister: bv8)
    requires monthRegister & CenturyBit == 0
    ensures DecodeYear(monthRegister | CenturyBit, yearRegister) == DecodeYear(monthRegister, yearRegister) + 100
    ensures DecodeRegister(monthRegister | CenturyBit, MonthMask) == DecodeRegister(monthRegister, MonthMask)
  {
    DecodeRegisterIgnores(monthRegister | CenturyBit, monthRegister, MonthMask);
  }

  /* ---------------- Examples ---------------- */

  /**
    23:15:20 on 24 December 2006: the write path sets the century bit, and
    the read path gives back the same time and year.
   */
  lemma ChristmasEve2006()
    ensures var t := DateTime(20, 15, 23, 24, 0, 12, 2006);
      Encode(t) == [0x20, 0x15, 0x23, 0x24, 0x00, 0x92, 0x06] && Decode(Encode(t)) == t
  {
    var t := DateTime(20, 15, 23, 24, 0, 12, 2006);
    ValidTimeRoundTrip(t);
  }

  /** 23:15:35 on 27 November 2002: the century bit is set and the time reads back unchanged. */
  lemma November2002()
    ensures var t := DateTime(35, 15, 23, 27, 0, 11, 2002);
      Encode(t) == [0x35, 0x15, 0x23, 0x27, 0x00, 0x91, 0x02] && Decode(Encode(t)) == t
  {
    ValidTimeRoundTrip(DateTime(35, 15, 23, 27, 0, 11, 2002));
  }

  /**
    The header documents the year as 0..99, but the driver handles absolute
    years: such a year is written without the century bit and read back as
    1900 plus that year, so it never comes back unchanged.
   */
  lemma HeaderYearReadsAs1900s(t: DateTime)
    requires ValidFields(t) && t.year <= 99
    ensures Decode(Encode(t)).year == t.year + 1900
    ensures Decode(Encode(t)) != t
  {
  }

  /** A year outside 1900..2099 comes back a century off: 2100 is written as 00 with the century bit and read as 2000. */
  lemma Year2100ReadsAs2000()
    ensures Decode(Encode(DateTime(0, 0, 0, 1, 0, 1, 2100))).year == 2000
  {
  }
}
