# PCF85063AT register codec

A Dafny model of the register codec of NXP's PCF85063AT real-time-clock driver and of the parts of its demo application the codec depends on. The codec converts decimal time and alarm values to the chip's packed-BCD, bit-masked register bytes and back. It also issues the single-field control writes (start/stop, 12/24-hour mode, interrupt enables and flags, the alarm-enable bits, the timer clock, the offset), and it fixes the register map and enum codes all of this rests on.

The chip is a register file: a map from each address 0x00..0x11 to a `bv8` byte.

The register transport (`Register_I2C_Write`/`Read`, `Sensor_I2C_Write`/`Read`) is not part of this model. It is stated as a parameterised assumption in module `Transport`:

- One call of the register write or read routine is one bus transaction.
- A masked write with a nonzero mask leaves `(prior & ~mask) | (value & mask)`. A write with mask 0 replaces the whole byte.
- A write list runs its entries in order, one transaction each, and stops at the first failure. A read list does the same.
- Which transactions fail is a parameter of the bus (`Bus.nacks`). A failed transaction changes no register.

The C `int` arguments are modelled by their bit patterns. The offset is the `int8_t` pattern (`bv8`), read as a signed value through `Signed8`. The countdown value is the `int32_t` pattern (`bv32`); its low byte is what reaches the 8-bit transport.

Several functions reach their closing brace without a `return` on the success path:

- `MinInt_Enable`, `HalfMinInt_Enable`, `TimerInt_Enable`, `TI_TP_Enable`
- `AlarmInt_Enable`
- `SetTimerClockFreq` with a selector outside 1..4

For these the status is `NoReturn`, an unspecified value, never `Ok`.

Time and alarm reading and setting behave as follows:

- They report a failed block read as a write error, exactly as the code does.
- They read straight into the caller's structure. A missing read list stops before the transport is called, so the structure is kept. After a failed transport read, the model leaves the structure's register bytes unknown: they are a parameter `partial`. The meridiem field lies outside the read and is kept.
- They ignore the status of their 12/24-hour mode read. When that read fails, the mode local is uninitialised, and the model takes its value as a parameter `stale`.
- Time and alarm setting replace the caller's decimal hour with the encoded hour byte once the first two writes succeed. The model returns that updated structure.

Modules follow the source:

- `Registers`: addresses, masks and shifts, from `pcf85063at.h`.
- `Bcd`: the two conversion helpers.
- `DriverTypes`: enums, structures and size constants, from `pcf85063at_drv.h`.
- `Transport`: the assumed register transport.
- `Device`: the handle, the status codes and the entry check.
- `Control`: the single-write entry points, the one-register reads, the write-list routines, the timer clock selector and the alarm interrupt enable.
- `TimeCodec`: hour encoding, and time and alarm setting and reading.
- `DemoApp`: prompt ranges, meridiem choice, the stop/set/start sequence, the alarm kind prompt and the offset conversion.
- `RoundTrip`: set-then-get round trips of time and alarm.

Source paths below are relative to the repository root of the demo. The driver is the `frdmmcxn947` board's copy. The headers are the `frdmmcxa153` copies.

## Model

| member | source | states |
|---|---|---|
| Bcd.DecimalToBcd | pcf85063at_demo_app/frdmmcxn947_pcf85063at_demoapp/rtc/pcf85063at_i2c_drv.c:33-36 | For a value below 100 the byte is valid BCD: the high nibble is the tens digit, the low nibble the ones digit |
| Bcd.BcdToDecimal | pcf85063at_demo_app/frdmmcxn947_pcf85063at_demoapp/rtc/pcf85063at_i2c_drv.c:38-41 | Any byte decodes to at most 165, because invalid nibbles are not rejected. A valid BCD byte decodes to a value below 100 whose digits are its nibbles |
| Bcd.DecimalToBcdRoundTrip | pcf85063at_demo_app/frdmmcxn947_pcf85063at_demoapp/rtc/pcf85063at_i2c_drv.c:33-41 | For 0..99, packing gives valid BCD and unpacking returns the value |
| Bcd.BcdToDecimalRoundTrip | pcf85063at_demo_app/frdmmcxn947_pcf85063at_demoapp/rtc/pcf85063at_i2c_drv.c:33-41 | A valid BCD byte unpacked and packed again is unchanged |
| Bcd.DecimalToBcdBounds | pcf85063at_demo_app/frdmmcxn947_pcf85063at_demoapp/rtc/pcf85063at_i2c_drv.c:33-36 | Values below 8, 20, 40 and 80 pack below 8, 0x20, 0x40 and 0x80. These bounds decide which register masks a packed value survives |
| Registers.Control1Layout | pcf85063at_demo_app/frdmmcxa153_pcf85063at_demoapp/rtc/pcf85063at.h:84-100 | The Control_1 fields share one register, are pairwise disjoint and cover 0xB7; bits 3 and 6 are left reserved |
| Registers.Control2Layout | pcf85063at_demo_app/frdmmcxa153_pcf85063at_demoapp/rtc/pcf85063at.h:132-148 | The Control_2 masks 0x80, 0x40, 0x20, 0x10, 0x08 and 0x07 are pairwise disjoint and their union is 0xFF |
| Registers.OffsetAndTimerModeLayout | pcf85063at_demo_app/frdmmcxa153_pcf85063at_demoapp/rtc/pcf85063at.h:173-177 | Offset (0x7F) and offset mode (0x80) partition the byte. The Timer_mode masks 0x01, 0x02, 0x04 and 0x18 (header lines 527-537) are disjoint and cover 0x1F |
| Registers.AlarmFieldsLayout | pcf85063at_demo_app/frdmmcxa153_pcf85063at_demoapp/rtc/pcf85063at.h:374-486 | In each alarm register, second to weekday at 0x0B+i, the enable mask is 0x80 and is disjoint from the value mask |
| Registers.HourMasks | pcf85063at_demo_app/frdmmcxa153_pcf85063at_demoapp/rtc/pcf85063at.h:260-264 | The 12-hour mask lies inside the 24-hour mask, and `1 << 5` is exactly the bit between them. The same holds for the alarm hour masks |
| Registers.ShiftsAreLowestBits | pcf85063at_demo_app/frdmmcxa153_pcf85063at_demoapp/rtc/pcf85063at.h:84-148 | Every shift constant is the index of the lowest set bit of its mask, in every register |
| Registers.FieldCodesFit | pcf85063at_demo_app/frdmmcxa153_pcf85063at_demoapp/rtc/pcf85063at.h:527-537 | Codes 0 and 1 fit every one-bit field, and codes 0..3 fit the timer clock field. Fitting means that after shifting, the code is inside the mask and loses no bit |
| Registers.AddressesContiguous | pcf85063at_demo_app/frdmmcxa153_pcf85063at_demoapp/rtc/pcf85063at.h:24-44 | The time registers run 0x04..0x0A from second to year, and the alarm registers run 0x0B..0x0F |
| DriverTypes.ModeOfBit | pcf85063at_demo_app/frdmmcxn947_pcf85063at_demoapp/rtc/pcf85063at_i2c_drv.c:435 | The mode read from a bit value of 0 or 1 has that bit value as its code |
| DriverTypes.Signed8 | pcf85063at_demo_app/frdmmcxn947_pcf85063at_demoapp/rtc/pcf85063at_i2c_drv.c:1400 | An `int8_t` bit pattern reads as a value in -128..127, and is non-negative exactly when bit 7 is clear |
| DriverTypes.StructLayouts | pcf85063at_demo_app/frdmmcxa153_pcf85063at_demoapp/rtc/pcf85063at_drv.h:214-245 | The time structure's seven bytes follow registers 0x04.. in order and the size constant is 7. The alarm structure's five bytes follow 0x0B.. and the size constant is 5 |
| DriverTypes.MeridiemBit | pcf85063at_demo_app/frdmmcxa153_pcf85063at_demoapp/rtc/pcf85063at_drv.h:171-176 | `PM << 5` is 0x20, which is the bit the 24-hour hour mask adds to the 12-hour one. `AM << 5` is 0 |
| DriverTypes.EnumCodesMatchBits | pcf85063at_demo_app/frdmmcxa153_pcf85063at_demoapp/rtc/pcf85063at_drv.h:85-144 | `mode12H` shifted is the mode mask and `mode24H` is 0. `rtcStop` shifted is the STOP mask. The timer clocks are 0..3 and all fit the clock field. The enable code is 1; the disable and clear codes are 0 |
| DriverTypes.DefaultTwelveHourValueMissesModeBit | pcf85063at_demo_app/frdmmcxa153_pcf85063at_demoapp/rtc/pcf85063at_drv.h:247-249 | The value documented as enabling 12-hour mode (0x04) shares no bit with the mode mask 0x02. It is the CIE bit |
| DriverTypes.AlarmTypeOrder | pcf85063at_demo_app/frdmmcxa153_pcf85063at_demoapp/rtc/pcf85063at_drv.h:32-39 | Alarm kinds are 1..5, and kind k names the alarm register 0x0B+k-1 (second, minute, hour, day, weekday) |
| DriverTypes.WeekDayCodesFit | pcf85063at_demo_app/frdmmcxa153_pcf85063at_demoapp/rtc/pcf85063at_drv.h:183-192 | Every weekday code is below 8, fits the 3-bit weekday mask, and equals its BCD form |
| Transport.Merge | pcf85063at_demo_app/frdmmcxn947_pcf85063at_demoapp/rtc/pcf85063at_i2c_drv.c:175-176 | Assumed write: under a nonzero mask the mask bits take the value and every other bit keeps its old value. Mask 0 writes the whole byte |
| Transport.Place | pcf85063at_demo_app/frdmmcxn947_pcf85063at_demoapp/rtc/pcf85063at_i2c_drv.c:175-176 | A field write targets the field's register under the field's mask. A code that fits reads back from the field whatever the register held before |
| Transport.Write | pcf85063at_demo_app/frdmmcxn947_pcf85063at_demoapp/rtc/pcf85063at_i2c_drv.c:175-182 | One transaction. It succeeds exactly when not failed. On success it merges the target register; it never changes another register |
| Transport.ReadBlock | pcf85063at_demo_app/frdmmcxn947_pcf85063at_demoapp/rtc/pcf85063at_i2c_drv.c:427-428 | One transaction. On success it returns the n consecutive registers from the start address. Registers are unchanged |
| Transport.WriteList | pcf85063at_demo_app/frdmmcxn947_pcf85063at_demoapp/rtc/pcf85063at_i2c_drv.c:121-122 | Succeeds exactly when the next \|list\| transactions succeed. It then applies every write in order. Registers no write targets are unchanged in every case |
| Transport.ApplyAllDistinct | pcf85063at_demo_app/frdmmcxn947_pcf85063at_demoapp/rtc/pcf85063at_i2c_drv.c:121-122 | When the list's targets are distinct, each target ends up merged with its own write only, and every other register is unchanged |
| Transport.WriteListSplit | pcf85063at_demo_app/frdmmcxn947_pcf85063at_demoapp/rtc/pcf85063at_i2c_drv.c:121-122 | Running a list equals running its first k entries, then, only if those succeeded, the rest |
| Transport.ReadList | pcf85063at_demo_app/frdmmcxn947_pcf85063at_demoapp/rtc/pcf85063at_i2c_drv.c:94-95 | Never changes a register. Succeeds exactly when the next \|list\| transactions succeed, and then returns the bytes of each span in order |
| Transport.MergeIdempotent | pcf85063at_demo_app/frdmmcxn947_pcf85063at_demoapp/rtc/pcf85063at_i2c_drv.c:175-176 | The same masked write twice leaves what it leaves once |
| Transport.MergeOverrides | pcf85063at_demo_app/frdmmcxn947_pcf85063at_demoapp/rtc/pcf85063at_i2c_drv.c:175-176 | A second write under the same mask overrides the first |
| Transport.MergeDisjointCommute | pcf85063at_demo_app/frdmmcxn947_pcf85063at_demoapp/rtc/pcf85063at_i2c_drv.c:175-176 | Writes under disjoint nonzero masks commute |
| Transport.MergeSameBits | pcf85063at_demo_app/frdmmcxn947_pcf85063at_demoapp/rtc/pcf85063at_i2c_drv.c:175-176 | Writing back a field's current bits changes nothing |
| Device.Guard | pcf85063at_demo_app/frdmmcxn947_pcf85063at_demoapp/rtc/pcf85063at_i2c_drv.c:247-257 | Each outcome, both ways: invalid parameter exactly when the handle or an argument is NULL; init error exactly when they are present but the handle is uninitialised; pass exactly otherwise. A failure is never Ok |
| Device.WriteStatus | pcf85063at_demo_app/frdmmcxn947_pcf85063at_demoapp/rtc/pcf85063at_i2c_drv.c:177-182 | Ok exactly when the transaction succeeded, write error exactly when it failed |
| Device.Initialize | pcf85063at_demo_app/frdmmcxn947_pcf85063at_demoapp/rtc/pcf85063at_i2c_drv.c:44-64 | Ok exactly when handle and bus are present, and then the handle is initialised. Otherwise invalid parameter with the handle untouched |
| Device.InitializeEnables | pcf85063at_demo_app/frdmmcxn947_pcf85063at_demoapp/rtc/pcf85063at_i2c_drv.c:44-64 | After a successful initialisation every entry check passes. A failed one leaves the entry check's verdict as it was |
| Control.EffectOf | pcf85063at_demo_app/frdmmcxn947_pcf85063at_demoapp/rtc/pcf85063at_i2c_drv.c:158-1425 | Every single-write entry point's field write names a field with a shift below 8 and a nonzero mask. Reset and RAM test are whole-byte writes |
| Control.Encoding | pcf85063at_demo_app/frdmmcxn947_pcf85063at_demoapp/rtc/pcf85063at_i2c_drv.c:229-230 | A field write goes to the field's register under its nonzero mask. A whole-byte write goes with mask 0 |
| Control.Run | pcf85063at_demo_app/frdmmcxn947_pcf85063at_demoapp/rtc/pcf85063at_i2c_drv.c:158-183 | A failed entry check returns its error with the bus untouched. Otherwise exactly one transaction: write error exactly when it fails, registers unchanged then. On success the target is merged, and the status is Ok, or unspecified for the four enables without a return. No other register changes |
| Control.FieldCommandEffect | pcf85063at_demo_app/frdmmcxn947_pcf85063at_demoapp/rtc/pcf85063at_i2c_drv.c:401-402 | After a successful field command, the field holds the command's code, the other bits of the register are kept, and every other register is unchanged |
| Control.CodesFit | pcf85063at_demo_app/frdmmcxn947_pcf85063at_demoapp/rtc/pcf85063at_i2c_drv.c:1390-1392 | Every field command's code fits its field, except the offset. That includes the countdown value cut to its low byte |
| Control.OffsetCodeFits | pcf85063at_demo_app/frdmmcxn947_pcf85063at_demoapp/rtc/pcf85063at_i2c_drv.c:1416-1417 | An offset fits the 7-bit offset field exactly when it is non-negative. A negative `int8_t` carries bit 7, which the mask drops |
| Control.TogglesShareField | pcf85063at_demo_app/frdmmcxn947_pcf85063at_demoapp/rtc/pcf85063at_i2c_drv.c:158-211 | Each enable/disable pair (start/stop, mode, capacitor, test mode, interrupts, pulse, offset mode, CIE, timer) writes 1 and 0 to the same one-bit field |
| Control.ToggleRestores | pcf85063at_demo_app/frdmmcxn947_pcf85063at_demoapp/rtc/pcf85063at_i2c_drv.c:158-211 | Setting a clear one-bit field and clearing it again restores every register |
| Control.StartStopBit | pcf85063at_demo_app/frdmmcxn947_pcf85063at_demoapp/rtc/pcf85063at_i2c_drv.c:175-204 | Stop sets exactly bit 5 of Control_1, and start clears exactly bit 5 |
| Control.SoftwareResetPattern | pcf85063at_demo_app/frdmmcxn947_pcf85063at_demoapp/rtc/pcf85063at_i2c_drv.c:229-230 | Reset writes 0x58 over all of Control_1. Of the reset and mode bits, 0x58 sets the reset bit and clears the mode bit |
| Control.ReadFieldOf | pcf85063at_demo_app/frdmmcxn947_pcf85063at_demoapp/rtc/pcf85063at_i2c_drv.c:570-577 | A failed entry check changes nothing. Otherwise one transaction: read error and no value when it fails; the field's value when it succeeds |
| Control.CheckMinHalfMinCTInt | pcf85063at_demo_app/frdmmcxn947_pcf85063at_demoapp/rtc/pcf85063at_i2c_drv.c:552-579 | A reported state is bit 3 of Control_2 (TF) |
| Control.CheckAlarmInt | pcf85063at_demo_app/frdmmcxn947_pcf85063at_demoapp/rtc/pcf85063at_i2c_drv.c:742-771 | A reported state is bit 6 of Control_2 (AF) |
| Control.CheckTiTp | pcf85063at_demo_app/frdmmcxn947_pcf85063at_demoapp/rtc/pcf85063at_i2c_drv.c:1044-1072 | A reported state is bit 0 of Timer_mode (TI_TP) |
| Control.ModeGet | pcf85063at_demo_app/frdmmcxn947_pcf85063at_demoapp/rtc/pcf85063at_i2c_drv.c:411-438 | Ok exactly when the entry check passes and the read succeeds; a mode is reported exactly then. The mode is 12-hour exactly when bit 1 of Control_1 is set |
| Control.ModeSetThenGet | pcf85063at_demo_app/frdmmcxn947_pcf85063at_demoapp/rtc/pcf85063at_i2c_drv.c:384-438 | A mode set and then read back is the mode that was set. Only Control_1 changes |
| Control.SetTimerClockFreq | pcf85063at_demo_app/frdmmcxn947_pcf85063at_demoapp/rtc/pcf85063at_i2c_drv.c:1315-1372 | Selector 1..4 stores selector-1 in TCF (bits 3-4 of Timer_mode), keeps the register's other bits and changes no other register. Any other selector writes nothing, and its status is unspecified |
| Control.ClockOf | pcf85063at_demo_app/frdmmcxn947_pcf85063at_demoapp/rtc/pcf85063at_i2c_drv.c:1331-1366 | Selector k names the timer clock with code k-1 |
| Control.WriteData | pcf85063at_demo_app/frdmmcxn947_pcf85063at_demoapp/rtc/pcf85063at_i2c_drv.c:104-129 | After the entry check: Ok exactly when every write succeeds, and then every write is applied. Otherwise a write error. Registers not in the list never change |
| Control.Configure | pcf85063at_demo_app/frdmmcxn947_pcf85063at_demoapp/rtc/pcf85063at_i2c_drv.c:131-156 | Configuration behaves exactly as the write-list routine |
| Control.DefaultConfigSelects24h | pcf85063at_demo_app/frdmmcxn947_pcf85063at_demoapp/source/pcf85063at_rtc_demoapp.c:47-51 | The default configuration, meant to select 12-hour mode, succeeds and leaves the chip in 24-hour mode |
| Control.IntendedConfigSelects12h | pcf85063at_demo_app/frdmmcxn947_pcf85063at_demoapp/source/pcf85063at_rtc_demoapp.c:47-51 | The corrected list selects 12-hour mode and keeps every other bit of Control_1 |
| Control.EnableWrite | pcf85063at_demo_app/frdmmcxn947_pcf85063at_demoapp/rtc/pcf85063at_i2c_drv.c:801-802 | Enabling alarm field i writes 0 under mask 0x80 to register 0x0B+i. That clears bit 7 only |
| Control.AlarmIntEnable | pcf85063at_demo_app/frdmmcxn947_pcf85063at_demoapp/rtc/pcf85063at_i2c_drv.c:773-841 | Sets AIE and then, by fallthrough, clears the AEN bit of the chosen kind and every later kind, one transaction each; kinds outside 1..5 clear none. The status is never Ok. It is the missing-return value exactly when the AIE write and every reached enable write succeed, and then 1 + (6 - kind) transactions were issued; otherwise it is a write error. No value bits change, and nothing outside Control_2 and the alarm registers changes |
| Control.FallCount | pcf85063at_demo_app/frdmmcxn947_pcf85063at_demoapp/rtc/pcf85063at_i2c_drv.c:797-839 | The number of enable writes a kind reaches: the fields it reaches are exactly the last that many, so kind k reaches fields k..5 and a kind outside 1..5 reaches none |
| Control.EnableFrom | pcf85063at_demo_app/frdmmcxn947_pcf85063at_demoapp/rtc/pcf85063at_i2c_drv.c:797-839 | The fallthrough's enable writes from a given field on, in register order: succeeds exactly when each is acknowledged, and then every field from there on has AEN cleared and the earlier ones are untouched. Value bits and all other registers are kept in every case |
| Control.SecondsAlarmEnablesAll | pcf85063at_demo_app/frdmmcxn947_pcf85063at_demoapp/rtc/pcf85063at_i2c_drv.c:797-802 | Choosing the seconds alarm with all six writes acknowledged sets AIE and clears bit 7 of every alarm register 0x0B..0x0F, so all five alarm fields are enabled |
| Control.AlarmIntEnableOnly | pcf85063at_demo_app/frdmmcxn947_pcf85063at_demoapp/rtc/pcf85063at_i2c_drv.c:773-841 | Corrected: sets AIE, clears only the chosen kind's AEN bit, and reports Ok exactly when both writes succeed |
| TimeCodec.EncodeHour | pcf85063at_demo_app/frdmmcxn947_pcf85063at_demoapp/rtc/pcf85063at_i2c_drv.c:276-287 | AM clears bit 5, PM sets bit 5, and the 12-hour forms hold the BCD of the low five bits. Hours in range leave bits 6-7 clear |
| TimeCodec.DecodeHour | pcf85063at_demo_app/frdmmcxn947_pcf85063at_demoapp/rtc/pcf85063at_i2c_drv.c:362-375 | 24-hour mode decodes six bits and yields `h24`, and only it does. 12-hour mode decodes five bits and yields PM exactly when bit 5 is set |
| TimeCodec.HourRoundTrip | pcf85063at_demo_app/frdmmcxn947_pcf85063at_demoapp/rtc/pcf85063at_i2c_drv.c:276-375 | An in-range hour written under the 24-hour mask decodes to the same hour and meridiem when the meridiem agrees with the mode, whatever the register held before |
| TimeCodec.HourMismatch | pcf85063at_demo_app/frdmmcxn947_pcf85063at_demoapp/rtc/pcf85063at_i2c_drv.c:362-366 | 1 PM encoded and read in 24-hour mode decodes as hour 21 |
| TimeCodec.TimeWrites | pcf85063at_demo_app/frdmmcxn947_pcf85063at_demoapp/rtc/pcf85063at_i2c_drv.c:259-323 | Seven writes in register order second..year, under each register's value mask, to distinct registers |
| TimeCodec.SetTime | pcf85063at_demo_app/frdmmcxn947_pcf85063at_demoapp/rtc/pcf85063at_i2c_drv.c:242-330 | A failed entry check changes nothing. Ok exactly when all seven writes succeed, otherwise a write error. The caller's hour becomes the encoded byte exactly when the first two writes succeed. Nothing outside 0x04..0x0A changes |
| TimeCodec.SetTimeSpans | pcf85063at_demo_app/frdmmcxn947_pcf85063at_demoapp/rtc/pcf85063at_i2c_drv.c:259-323 | The writes before and after the hour conversion together act as one write list |
| TimeCodec.ReadData | pcf85063at_demo_app/frdmmcxn947_pcf85063at_demoapp/rtc/pcf85063at_i2c_drv.c:75-102 | After the entry check: Ok exactly when every span is read, and then the bytes are the spans' registers. Otherwise a read error. Registers never change |
| TimeCodec.DecodeTime | pcf85063at_demo_app/frdmmcxn947_pcf85063at_demoapp/rtc/pcf85063at_i2c_drv.c:358-379 | The decoded meridiem agrees with the mode, and the weekday is below 8 |
| TimeCodec.GetTime | pcf85063at_demo_app/frdmmcxn947_pcf85063at_demoapp/rtc/pcf85063at_i2c_drv.c:334-382 | Never changes a register. After the entry check, Ok exactly when the list is given and the block read succeeds; any failure is a write error. A missing list keeps the caller's data; a failed transport read leaves the bytes `partial` and keeps the meridiem. On Ok the meridiem agrees with the mode read (or `stale`) |
| TimeCodec.AlarmWrites | pcf85063at_demo_app/frdmmcxn947_pcf85063at_demoapp/rtc/pcf85063at_i2c_drv.c:934-983 | Five writes in order second..weekday to distinct registers. Every mask is nonzero and leaves out bit 7 |
| TimeCodec.SetAlarmTime | pcf85063at_demo_app/frdmmcxn947_pcf85063at_demoapp/rtc/pcf85063at_i2c_drv.c:918-990 | As time setting, with five writes: Ok exactly when all five succeed. Nothing outside 0x0B..0x0F changes |
| TimeCodec.SetAlarmSpans | pcf85063at_demo_app/frdmmcxn947_pcf85063at_demoapp/rtc/pcf85063at_i2c_drv.c:934-983 | The alarm writes before and after the hour conversion act as one write list |
| TimeCodec.DecodeAlarm | pcf85063at_demo_app/frdmmcxn947_pcf85063at_demoapp/rtc/pcf85063at_i2c_drv.c:895-912 | The decoded meridiem agrees with the mode, and the weekday is below 8 |
| TimeCodec.GetAlarmTime | pcf85063at_demo_app/frdmmcxn947_pcf85063at_demoapp/rtc/pcf85063at_i2c_drv.c:870-915 | As time reading, over the five alarm registers: the same status cases, a kept structure for a missing list, `partial` bytes with a kept meridiem after a failed transport read, and a meridiem agreeing with the mode on Ok |
| DemoApp.MeridiemChoice | pcf85063at_demo_app/frdmmcxn947_pcf85063at_demoapp/source/pcf85063at_rtc_demoapp.c:524-554 | 24-hour mode forces `h24`. In 12-hour mode choice 1 gives AM, choice 2 gives PM, and any other choice keeps the previous value. So the result agrees with the mode exactly when the mode is 24-hour, or the choice is 1 or 2, or the previous value already agreed |
| DemoApp.AcceptedChoiceCanDisagree | pcf85063at_demo_app/frdmmcxn947_pcf85063at_demoapp/source/pcf85063at_rtc_demoapp.c:530-552 | Choice 0 passes the prompt's check but, in 12-hour mode, keeps a leftover `h24` |
| DemoApp.SetTimeFlowSucceeds | pcf85063at_demo_app/frdmmcxn947_pcf85063at_demoapp/source/pcf85063at_rtc_demoapp.c:556-580 | Stop, set, start reports no error exactly when the entry check passes and all nine transactions succeed |
| DemoApp.SetTimeFlowStopsAtStop | pcf85063at_demo_app/frdmmcxn947_pcf85063at_demoapp/source/pcf85063at_rtc_demoapp.c:556-563 | A failed stop reports an error and changes no register |
| DemoApp.FailedSetLeavesClockStopped | pcf85063at_demo_app/frdmmcxn947_pcf85063at_demoapp/source/pcf85063at_rtc_demoapp.c:556-571 | If the time writes fail after a successful stop, the sequence reports an error and the STOP bit stays set |
| DemoApp.SetTimeFlowRegisters | pcf85063at_demo_app/frdmmcxn947_pcf85063at_demoapp/source/pcf85063at_rtc_demoapp.c:556-580 | A successful sequence leaves STOP clear with the rest of Control_1 as before. Nothing besides the time registers changes |
| DemoApp.AlarmTypeKey | pcf85063at_demo_app/frdmmcxn947_pcf85063at_demoapp/source/pcf85063at_rtc_demoapp.c:206-225 | Keys '1'..'4' return kinds 1..4. Keys '0' and '5' fall off the end without a return; every other key asks again |
| DemoApp.WeekdayAlarmUnreachable | pcf85063at_demo_app/frdmmcxn947_pcf85063at_demoapp/source/pcf85063at_rtc_demoapp.c:215-224 | No key returns the weekday kind 5, and key '5' falls off the end |
| DemoApp.AlarmTypeKeyIntended | pcf85063at_demo_app/frdmmcxn947_pcf85063at_demoapp/source/pcf85063at_rtc_demoapp.c:206-225 | Corrected: keys '1'..'5' return an alarm kind and every other key asks again |
| DemoApp.SixtyFourSilentlyRejected | pcf85063at_demo_app/frdmmcxn947_pcf85063at_demoapp/source/pcf85063at_rtc_demoapp.c:1214-1220 | 64 is neither accepted nor warned about, and every warned value is rejected |
| DemoApp.OffsetArgument | pcf85063at_demo_app/frdmmcxn947_pcf85063at_demoapp/source/pcf85063at_rtc_demoapp.c:1222-1223 | An offset in 0..63 passes unchanged. A negative accepted offset becomes its negation |
| DemoApp.DecodeOffset | pcf85063at_demo_app/frdmmcxa153_pcf85063at_demoapp/rtc/pcf85063at.h:173-174 | The offset field reads as -64..63 and is negative exactly when bit 6 is set |
| DemoApp.OffsetFieldRoundTrip | pcf85063at_demo_app/frdmmcxa153_pcf85063at_demoapp/rtc/pcf85063at.h:173-174 | Every offset the prompt accepts survives the 7-bit field unchanged |
| DemoApp.OffsetModeStep | pcf85063at_demo_app/frdmmcxn947_pcf85063at_demoapp/source/pcf85063at_rtc_demoapp.c:1186-1205 | The mode choice sets bit 7 of the offset register to the choice and keeps the low seven bits |
| DemoApp.OffsetValueStep | pcf85063at_demo_app/frdmmcxn947_pcf85063at_demoapp/rtc/pcf85063at_i2c_drv.c:1416-1417 | The offset write replaces the low seven bits and keeps the mode bit |
| DemoApp.SetOffsetFlow | pcf85063at_demo_app/frdmmcxn947_pcf85063at_demoapp/source/pcf85063at_rtc_demoapp.c:1168-1233 | The mode write and the offset write touch only the offset register |
| DemoApp.OffsetWrite | pcf85063at_demo_app/frdmmcxn947_pcf85063at_demoapp/source/pcf85063at_rtc_demoapp.c:1222-1225 | After both writes, the register holds the chosen mode bit and the low seven bits of the converted offset |
| DemoApp.OffsetSignLost | pcf85063at_demo_app/frdmmcxn947_pcf85063at_demoapp/source/pcf85063at_rtc_demoapp.c:1222-1223 | An entered offset of -k (k in 1..63) reads back from the chip as +k. -64 reads back as -64 |
| DemoApp.SetOffsetIntended | pcf85063at_demo_app/frdmmcxn947_pcf85063at_demoapp/source/pcf85063at_rtc_demoapp.c:1225 | Corrected flow: the offset is written as entered, and only the offset register changes |
| DemoApp.IntendedOffsetReadsBack | pcf85063at_demo_app/frdmmcxn947_pcf85063at_demoapp/source/pcf85063at_rtc_demoapp.c:1214-1225 | With the corrected flow, every accepted offset reads back as entered, with the chosen mode bit |
| RoundTrip.ValueRoundTrip | pcf85063at_demo_app/frdmmcxn947_pcf85063at_demoapp/rtc/pcf85063at_i2c_drv.c:259-360 | A decimal value that fits its mask before and after packing reads back from a masked write, whatever the register held |
| RoundTrip.SetTimeRegisters | pcf85063at_demo_app/frdmmcxn947_pcf85063at_demoapp/rtc/pcf85063at_i2c_drv.c:259-323 | After successful time setting, each time register holds its own write merged into its old byte |
| RoundTrip.TimeByteBack | pcf85063at_demo_app/frdmmcxn947_pcf85063at_demoapp/rtc/pcf85063at_i2c_drv.c:259-379 | Each accepted non-hour time value reads back from its register |
| RoundTrip.DecodeWrittenTime | pcf85063at_demo_app/frdmmcxn947_pcf85063at_demoapp/rtc/pcf85063at_i2c_drv.c:358-379 | The bytes left by successful time setting decode to the time that was set, when its values are in range and its meridiem agrees with the mode |
| RoundTrip.TimeBytes | pcf85063at_demo_app/frdmmcxn947_pcf85063at_demoapp/rtc/pcf85063at_i2c_drv.c:352 | The seven bytes read into the time structure are registers 0x04..0x0A in order |
| RoundTrip.GetTimeDecodes | pcf85063at_demo_app/frdmmcxn947_pcf85063at_demoapp/rtc/pcf85063at_i2c_drv.c:334-382 | With both reads succeeding, time reading returns the time registers decoded in the chip's current mode and uses exactly two transactions |
| RoundTrip.TimeRoundTrip | pcf85063at_demo_app/frdmmcxn947_pcf85063at_demoapp/rtc/pcf85063at_i2c_drv.c:242-382 | Set then get returns the time that was set, given: values the prompts accept, a meridiem that agrees with the chip's mode, and nine successful transactions |
| RoundTrip.SetAlarmRegisters | pcf85063at_demo_app/frdmmcxn947_pcf85063at_demoapp/rtc/pcf85063at_i2c_drv.c:934-983 | After successful alarm setting, each alarm register holds its own write merged into its old byte |
| RoundTrip.SetAlarmKeepsEnables | pcf85063at_demo_app/frdmmcxn947_pcf85063at_demoapp/rtc/pcf85063at_i2c_drv.c:934-983 | Alarm setting keeps every AEN bit (bit 7) of the alarm registers |
| RoundTrip.AlarmByteBack | pcf85063at_demo_app/frdmmcxn947_pcf85063at_demoapp/rtc/pcf85063at_i2c_drv.c:895-983 | Each accepted non-hour alarm value reads back from its register |
| RoundTrip.DecodeWrittenAlarm | pcf85063at_demo_app/frdmmcxn947_pcf85063at_demoapp/rtc/pcf85063at_i2c_drv.c:895-912 | The bytes left by successful alarm setting decode to the alarm that was set |
| RoundTrip.AlarmBytes | pcf85063at_demo_app/frdmmcxn947_pcf85063at_demoapp/rtc/pcf85063at_i2c_drv.c:888 | The five bytes read into the alarm structure are registers 0x0B..0x0F in order |
| RoundTrip.GetAlarmDecodes | pcf85063at_demo_app/frdmmcxn947_pcf85063at_demoapp/rtc/pcf85063at_i2c_drv.c:870-915 | With both reads succeeding, alarm reading returns the alarm registers decoded in the chip's current mode |
| RoundTrip.AlarmRoundTrip | pcf85063at_demo_app/frdmmcxn947_pcf85063at_demoapp/rtc/pcf85063at_i2c_drv.c:870-990 | Set then get returns the alarm that was set, under the same conditions as for the time, with seven transactions |
| RoundTrip.MismatchedMeridiemBreaksRoundTrip | pcf85063at_demo_app/frdmmcxn947_pcf85063at_demoapp/rtc/pcf85063at_i2c_drv.c:276-366 | Setting 1 PM while the chip is in 24-hour mode reads back as hour 21 `h24` |

## Left out

- The I2C transport itself: `Sensor_I2C_Read`/`Write`, `Register_I2C_Read`/`Write`, `repeatedStart` and the idle-task hook. Their source is not part of this model; their behaviour is the assumption stated above.
- Transport: a read list is limited to spans inside the register map by its type. The transport's handling of spans past 0x11 is unknown.
- TimeCodec.GetTime: after a failed transport read the model does not say which bytes of the caller's structure the transport overwrote; they are the parameter `partial`. The same holds for TimeCodec.GetAlarmTime.
- The read lists are fixed to the demo's one-span lists (`PCF85063ATtimedata`, `PCF85063ATalarmdata`). Any other list given to time or alarm reading is not modelled.
- The interrupt service routine, GPIO and IRQ setup, EDMA, pin-mux and clock initialisation. They are hardware plumbing.
- Console input and output, the menu loop and the print routines. `SCANF("%d")` into a byte is undefined behaviour, so only the ranges the prompts enforce are modelled.
- The countdown computation in the timer menu: it uses floating-point division and truncation. So does that menu's own case fallthrough.
- `PCF85063AT_SetIdleTask` and the handle's bus, address and device-info fields. None of them affects a register value.
- The `Months` enum, whose codes skip 0x04. The code never uses it.
- The shield headers, which hold only the bus address and pin names.
- TimeCodec.SetTime: the `ampm` field is one of the three enum values. An out-of-range C value would encode like `h24`; that case is not modelled.
- DemoApp.MeridiemChoice: the alarm prompt applies the same choice mapping without its validation loop. The model states only the mapping.
- TimeCodec.GetTime: the status of its own mode read is ignored, as in the code. The uninitialised mode it then uses is a parameter.
- Control.AlarmIntEnable: a kind outside 1..5 matches no case. The model lets such a kind through as any `int`, which the enum type would not.

## Findings

| source | as written | input that shows it | evidently intended | confidence | as-written member | corrected member |
|---|---|---|---|---|---|---|
| pcf85063at_demo_app/frdmmcxn947_pcf85063at_demoapp/rtc/pcf85063at_i2c_drv.c:797-839 | The `switch` on the alarm kind has no `break`, so each case falls into the next | Kind `A_Seconds` with every write succeeding enables all five alarm fields | Enable only the chosen alarm field, and return success | not executed; high | Control.SecondsAlarmEnablesAll | Control.AlarmIntEnableOnly |
| pcf85063at_demo_app/frdmmcxn947_pcf85063at_demoapp/source/pcf85063at_rtc_demoapp.c:47-51 | The default configuration writes 0x04 under the mode mask 0x02 | Any initial Control_1 byte: the mode bit ends up clear, which is 24-hour mode | Store the 12-hour code in the mode bit (0x02 under mask 0x02) | not executed; high | Control.DefaultConfigSelects24h | Control.IntendedConfigSelects12h |
| pcf85063at_demo_app/frdmmcxn947_pcf85063at_demoapp/source/pcf85063at_rtc_demoapp.c:1222-1223 | A negative offset is replaced by its negation before it is written | Offset -5 is stored as +5 | Write the entered value; the 7-bit field is two's complement | not executed; medium | DemoApp.OffsetSignLost | DemoApp.IntendedOffsetReadsBack |
| pcf85063at_demo_app/frdmmcxn947_pcf85063at_demoapp/source/pcf85063at_rtc_demoapp.c:215-224 | Only kinds 1..4 are returned. Key '5' leaves the loop without a return statement | Key '5' (Weekday Alarm, offered in the menu) | Return 5 for the weekday alarm | not executed; high | DemoApp.WeekdayAlarmUnreachable | DemoApp.AlarmTypeKeyIntended |
