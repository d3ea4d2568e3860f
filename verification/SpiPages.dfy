/**
 The page cache of bme680_spi.c: with seven address bits on the bus, a page bit in the STATUS
 register says which half of the 256 registers an access means.
 */
module SpiPages {
  import opened Wrappers

  /** A u8. */
  type Byte = x: int | 0 <= x < 256

  const STATUS: Byte := 0x73
  /** STATUS answers at address 0x73 in either page, so this register is only another name for it. */
  const STATUS_ALIAS: Byte := 0xF3
  const SOFT_RESET: Byte := 0xE0
  const CMD_SOFTRESET: Byte := 0xB6
  const UNDEFINED_PAGE: Byte := 0xff

  predicate IsStatus(reg: Byte)
  {
    reg == STATUS || reg == STATUS_ALIAS
  }

  // ---------------------------------------------------------------- bits

  /** v & 0x80 */
  predicate HighBit(v: Byte)
  {
    v >= 128
  }

  /** v & ~0x80 */
  function LowBits(v: Byte): (r: Byte)
  {
    if v >= 128 then v - 128 else v
  }

  /** v | 0x80 */
  function WithHighBit(v: Byte): (r: Byte)
  {
    if v >= 128 then v else v + 128
  }

  /** v & BME680_SPI_MEM_PAGE_BIT, bit 4 of STATUS. */
  predicate PageBit(v: Byte)
  {
    v / 16 % 2 == 1
  }

  /** v | BME680_SPI_MEM_PAGE_BIT */
  function SetPageBit(v: Byte): (r: Byte)
    ensures PageBit(r)
  {
    if PageBit(v) then v else v + 16
  }

  /** v & ~BME680_SPI_MEM_PAGE_BIT */
  function ClearPageBit(v: Byte): (r: Byte)
    ensures !PageBit(r)
  {
    if PageBit(v) then v - 16 else v
  }

  /** The arithmetic above is the bit arithmetic of the C code. */
  lemma BitForms(v: bv8)
    ensures v & 0x80 != 0 <==> v >= 128
    ensures v & !0x80 == (if v >= 128 then v - 128 else v)
    ensures v | 0x80 == (if v >= 128 then v else v + 128)
    ensures v & 0x10 != 0 <==> v / 16 % 2 == 1
    ensures v | 0x10 == (if v / 16 % 2 == 1 then v else v + 16)
    ensures v & !0x10 == (if v / 16 % 2 == 1 then v - 16 else v)
  {
  }

  /** Which bit each function tests, sets and clears: bit 7 of an address, bit 4 of STATUS. */
  lemma BitPlaces(high: int, bit: int, low: int)
    requires 0 <= bit < 2
    ensures high == 0 && 0 <= low < 128 ==>
      && (HighBit(128 * bit + low) <==> bit == 1)
      && LowBits(128 * bit + low) == low && WithHighBit(128 * bit + low) == 128 + low
    ensures 0 <= high < 8 && 0 <= low < 16 ==>
      && (PageBit(32 * high + 16 * bit + low) <==> bit == 1)
      && SetPageBit(32 * high + 16 * bit + low) == 32 * high + 16 + low
      && ClearPageBit(32 * high + 16 * bit + low) == 32 * high + low
  {
  }

  // ---------------------------------------------------------------- the chip

  /** The registers by full address, and what they are after a reset, when page 0 is selected. */
  datatype Chip = Chip(regs: map<Byte, Byte>, defaults: map<Byte, Byte>)
  {
    ghost predicate Valid()
    {
      && (forall a: Byte :: a in regs && a in defaults)
      && !PageBit(defaults[STATUS])
    }
  }

  /** The page the chip is in: 1 is the low half of the registers. */
  function ChipPage(c: Chip): (r: Byte)
    requires STATUS in c.regs
  {
    if PageBit(c.regs[STATUS]) then 1 else 0
  }

  /** The register that seven address bits mean in the chip's page. */
  function Decode(c: Chip, address: Byte): (r: Byte)
    requires STATUS in c.regs
  {
    if address == STATUS then STATUS
    else if ChipPage(c) == 1 then address
    else WithHighBit(address)
  }

  /** The reply to a one-byte read; bit 7 of the command is not an address bit. */
  function ChipRead(c: Chip, command: Byte): (r: Byte)
    requires c.Valid()
  {
    c.regs[Decode(c, LowBits(command))]
  }

  /** A two-byte write with bit 7 of the first byte clear. */
  function ChipWrite(c: Chip, address: Byte, value: Byte): (r: Chip)
    requires c.Valid()
    ensures r.Valid() && r.defaults == c.defaults
  {
    if Decode(c, address) == SOFT_RESET && value == CMD_SOFTRESET then c.(regs := c.defaults)
    else c.(regs := c.regs[Decode(c, address) := value])
  }

  // ---------------------------------------------------------------- the driver

  /** The driver's cache beside the chip. */
  datatype State = State(chip: Chip, page: Byte)

  /** Which transfers of an access fail: the read and the write of STATUS, and the access proper. */
  datatype Faults = Faults(statusRead: bool, statusWrite: bool, transfer: bool)

  datatype Result = Result(state: State, ok: bool, value: Option<Byte>)

  /** The page that holds a register. */
  function PageOf(reg: Byte): (r: Byte)
  {
    if HighBit(reg) then 0 else 1
  }

  /** bme680_regmap_spi_select_page. */
  function SelectPage(s: State, reg: Byte, f: Faults): (r: Result)
    requires s.chip.Valid()
    ensures r.state.chip.Valid() && r.state.chip.defaults == s.chip.defaults
  {
    var page := PageOf(reg);
    if page == s.page then Result(s, true, None)
    else if f.statusRead then Result(s, false, None)
    else
      var status := ChipRead(s.chip, STATUS);
      var changed := if page != 0 then SetPageBit(status) else ClearPageBit(status);
      if f.statusWrite then Result(s, false, None)
      else Result(State(ChipWrite(s.chip, STATUS, changed), page), true, None)
  }

  /** bme680_regmap_spi_write. */
  function Write(s: State, reg: Byte, value: Byte, f: Faults): (r: Result)
    requires s.chip.Valid()
    ensures r.state.chip.Valid() && r.state.chip.defaults == s.chip.defaults
  {
    var selected := SelectPage(s, reg, f);
    if !selected.ok then selected
    else if f.transfer then Result(selected.state, false, None)
    else Result(selected.state.(chip := ChipWrite(selected.state.chip, LowBits(reg), value)), true, None)
  }

  /** bme680_regmap_spi_read of one byte. */
  function Read(s: State, reg: Byte, f: Faults): (r: Result)
    requires s.chip.Valid()
    ensures r.state.chip.Valid() && r.state.chip.defaults == s.chip.defaults
  {
    var selected := SelectPage(s, reg, f);
    if !selected.ok then selected
    else if f.transfer then Result(selected.state, false, None)
    else Result(selected.state, true, Some(ChipRead(selected.state.chip, WithHighBit(reg))))
  }

  /** The cache is undefined or tells the chip's page. */
  ghost predicate Coherent(s: State)
  {
    s.chip.Valid() && (s.page == UNDEFINED_PAGE || s.page == ChipPage(s.chip))
  }

  // ---------------------------------------------------------------- the flat register file

  /** The registers as regmap sees them: STATUS without the page bit, and no alias of it. */
  ghost function Flat(c: Chip): (r: map<Byte, Byte>)
    requires c.Valid()
  {
    map a | a in c.regs && a != STATUS_ALIAS :: if a == STATUS then ClearPageBit(c.regs[a]) else c.regs[a]
  }

  lemma StatusUpdate(c: Chip, v: Byte)
    requires c.Valid()
    ensures var c' := c.(regs := c.regs[STATUS := v]);
      && c'.Valid() && ChipPage(c') == (if PageBit(v) then 1 else 0)
      && (ClearPageBit(v) == ClearPageBit(c.regs[STATUS]) ==> Flat(c') == Flat(c))
  {
  }

  lemma PlainUpdate(c: Chip, reg: Byte, v: Byte)
    requires c.Valid() && !IsStatus(reg)
    ensures var c' := c.(regs := c.regs[reg := v]);
      && c'.Valid() && ChipPage(c') == ChipPage(c) && reg in Flat(c) && Flat(c') == Flat(c)[reg := v]
  {
  }

  /** Whether the page of a register can be selected, when the cache says `page`. */
  predicate Selects(page: Byte, reg: Byte, f: Faults)
  {
    PageOf(reg) == page || (!f.statusRead && !f.statusWrite)
  }

  /** The selection fails only if it has to talk to the chip and that fails; then nothing has changed. */
  lemma SelectPageSelects(s: State, reg: Byte, f: Faults)
    requires Coherent(s)
    ensures var r := SelectPage(s, reg, f);
      && Coherent(r.state) && Flat(r.state.chip) == Flat(s.chip)
      && (r.ok <==> Selects(s.page, reg, f))
      && (!r.ok ==> r.state == s)
      && (r.ok ==> ChipPage(r.state.chip) == PageOf(reg) == r.state.page)
  {
    var status := s.chip.regs[STATUS];
    StatusUpdate(s.chip, SetPageBit(status));
    StatusUpdate(s.chip, ClearPageBit(status));
  }

  /** In the page that holds it, the seven low bits of a register's address mean that register. */
  lemma DecodeHits(c: Chip, reg: Byte)
    requires STATUS in c.regs && ChipPage(c) == PageOf(reg)
    ensures Decode(c, LowBits(reg)) == if reg == STATUS_ALIAS then STATUS else reg
  {
  }

  /** A value read against the flat file; of STATUS, the file does not tell the page bit. */
  ghost predicate FlatRead(file: map<Byte, Byte>, reg: Byte, value: Byte)
  {
    if IsStatus(reg) then STATUS in file && ClearPageBit(value) == file[STATUS]
    else reg in file && value == file[reg]
  }

  /** A read changes no register and, if it succeeds, returns the register it names. */
  lemma ReadHits(s: State, reg: Byte, f: Faults)
    requires Coherent(s)
    ensures var r := Read(s, reg, f);
      && Coherent(r.state) && Flat(r.state.chip) == Flat(s.chip)
      && (r.ok <==> r.value.Some?)
      && (r.ok ==> FlatRead(Flat(s.chip), reg, r.value.value))
  {
    SelectPageSelects(s, reg, f);
    var selected := SelectPage(s, reg, f);
    if selected.ok {
      DecodeHits(selected.state.chip, reg);
      if !IsStatus(reg) {
        PlainUpdate(selected.state.chip, reg, 0);
      }
    }
  }

  /** What a write that succeeds does to the flat file, which does not tell the page bit. */
  ghost function FlatWrite(file: map<Byte, Byte>, defaults: map<Byte, Byte>, reg: Byte, value: Byte)
    : (r: map<Byte, Byte>)
  {
    if reg == SOFT_RESET && value == CMD_SOFTRESET then defaults
    else if IsStatus(reg) then file[STATUS := ClearPageBit(value)]
    else file[reg := value]
  }

  /** A value written to STATUS has the page bit that selecting the page of `reg` has just put there. */
  predicate KeepsPage(reg: Byte, value: Byte)
  {
    IsStatus(reg) ==> (PageBit(value) <==> PageOf(reg) == 1)
  }

  /**
   A write that succeeds changes the register it names and no other; one that fails changes none.
   It keeps the cache right if and only if it fails or keeps the page. The soft reset does, because
   its register is in page 0, the page after a reset.
   */
  lemma WriteHits(s: State, reg: Byte, value: Byte, f: Faults)
    requires Coherent(s)
    ensures var r := Write(s, reg, value, f);
      && Flat(r.state.chip) ==
         (if r.ok then FlatWrite(Flat(s.chip), Flat(s.chip.(regs := s.chip.defaults)), reg, value) else Flat(s.chip))
      && (Coherent(r.state) <==> !r.ok || KeepsPage(reg, value))
  {
    SelectPageSelects(s, reg, f);
    var selected := SelectPage(s, reg, f);
    if selected.ok && !f.transfer {
      DecodeHits(selected.state.chip, reg);
      if reg == SOFT_RESET && value == CMD_SOFTRESET {
        assert PageOf(SOFT_RESET) == 0;
      } else if IsStatus(reg) {
        StatusUpdate(selected.state.chip, value);
        StatusInFlat(selected.state.chip, value);
      } else {
        PlainUpdate(selected.state.chip, reg, value);
      }
    }
  }

  lemma StatusInFlat(c: Chip, v: Byte)
    requires c.Valid()
    ensures Flat(c.(regs := c.regs[STATUS := v])) == Flat(c)[STATUS := ClearPageBit(v)]
  {
  }

  /** A write to STATUS through regmap, by either name, keeps the cache right on this condition only. */
  lemma StatusWriteIff(s: State, reg: Byte, value: Byte, f: Faults)
    requires Coherent(s) && (reg == 0x73 || reg == 0xF3) && Write(s, reg, value, f).ok
    ensures Coherent(Write(s, reg, value, f).state) <==> (PageBit(value) <==> reg == 0x73)
  {
    WriteHits(s, reg, value, f);
  }

  /** The soft reset, 0xB6 to register 0xE0, sets every register to its default and leaves the cache right. */
  lemma SoftResetRestores(s: State, f: Faults)
    requires Coherent(s) && Write(s, 0xE0, 0xB6, f).ok
    ensures var s' := Write(s, 0xE0, 0xB6, f).state; s'.chip.regs == s.chip.defaults && Coherent(s') && s'.page == 0
  {
    SelectPageSelects(s, 0xE0, f);
  }

  /** With a cache that is wrong, an access reads the register of the same name in the other page. */
  lemma WrongCacheMisreads(s: State, reg: Byte, f: Faults)
    requires s.chip.Valid() && s.page == PageOf(reg) != ChipPage(s.chip)
    requires !IsStatus(reg) && !f.transfer
    ensures Read(s, reg, f).value == Some(s.chip.regs[if HighBit(reg) then LowBits(reg) else WithHighBit(reg)])
  {
    assert LowBits(reg) != STATUS;
    assert LowBits(WithHighBit(reg)) == LowBits(reg);
  }

  // ---------------------------------------------------------------- all runs

  datatype Access = Reads(reg: Byte, faults: Faults) | Writes(reg: Byte, value: Byte, faults: Faults)

  /** An access succeeds if its page can be selected and its own transfer does not fail. */
  predicate Succeeds(page: Byte, a: Access)
  {
    Selects(page, a.reg, a.faults) && !a.faults.transfer
  }

  function PageAfter(page: Byte, a: Access): (r: Byte)
  {
    if Selects(page, a.reg, a.faults) then PageOf(a.reg) else page
  }

  function Apply(s: State, a: Access): (r: Result)
    requires s.chip.Valid()
    ensures r.state.chip.Valid() && r.state.chip.defaults == s.chip.defaults
  {
    match a
    case Reads(reg, f) => Read(s, reg, f)
    case Writes(reg, value, f) => Write(s, reg, value, f)
  }

  /** Every write to STATUS that succeeds, by either name, keeps the page. */
  ghost predicate Admissible(s: State, accesses: seq<Access>)
    requires s.chip.Valid()
    decreases |accesses|
  {
    accesses == [] ||
    var a := accesses[0];
    && (a.Writes? && Apply(s, a).ok ==> KeepsPage(a.reg, a.value))
    && Admissible(Apply(s, a).state, accesses[1..])
  }

  ghost predicate AlwaysCoherent(s: State, accesses: seq<Access>)
    requires s.chip.Valid()
    decreases |accesses|
  {
    accesses == [] ||
    var s' := Apply(s, accesses[0]).state;
    Coherent(s') && AlwaysCoherent(s', accesses[1..])
  }

  /**
   The accesses, made one after the other on the chip, behave as on a flat file of registers:
   exactly those succeed that no fault stops, and they read or write `file` at their address.
   */
  ghost predicate BehavesFlat(s: State, file: map<Byte, Byte>, page: Byte, accesses: seq<Access>)
    requires s.chip.Valid()
    decreases |accesses|
  {
    accesses == [] ||
    var a := accesses[0];
    var r := Apply(s, a);
    && (r.ok <==> Succeeds(page, a))
    && (r.value.Some? <==> a.Reads? && r.ok)
    && (r.value.Some? ==> FlatRead(file, a.reg, r.value.value))
    && BehavesFlat(r.state,
         if a.Writes? && r.ok
         then FlatWrite(file, Flat(s.chip.(regs := s.chip.defaults)), a.reg, a.value) else file,
         PageAfter(page, a), accesses[1..])
  }

  lemma AccessHits(s: State, a: Access)
    requires Coherent(s)
    ensures var r := Apply(s, a);
      && (Coherent(r.state) <==> (a.Writes? && r.ok ==> KeepsPage(a.reg, a.value)))
      && (r.ok <==> Succeeds(s.page, a)) && r.state.page == PageAfter(s.page, a)
      && (r.value.Some? <==> a.Reads? && r.ok)
      && (r.value.Some? ==> FlatRead(Flat(s.chip), a.reg, r.value.value))
      && Flat(r.state.chip) ==
         if a.Writes? && r.ok
         then FlatWrite(Flat(s.chip), Flat(s.chip.(regs := s.chip.defaults)), a.reg, a.value) else Flat(s.chip)
  {
    SelectPageSelects(s, a.reg, a.faults);
    match a
    case Reads(reg, f) => ReadHits(s, reg, f);
    case Writes(reg, value, f) => WriteHits(s, reg, value, f);
  }

  /** For every chip, whatever the cache starts from, every admissible sequence and every failure. */
  lemma {:induction false} RefinesFlatFile(s: State, accesses: seq<Access>)
    requires Coherent(s) && Admissible(s, accesses)
    ensures BehavesFlat(s, Flat(s.chip), s.page, accesses)
    decreases |accesses|
  {
    if accesses != [] {
      AccessHits(s, accesses[0]);
      RefinesFlatFile(Apply(s, accesses[0]).state, accesses[1..]);
    }
  }

  /** The cache is right after every access of a run if and only if the run is admissible. */
  lemma {:induction false} CoherentIffAdmissible(s: State, accesses: seq<Access>)
    requires Coherent(s)
    ensures AlwaysCoherent(s, accesses) <==> Admissible(s, accesses)
    decreases |accesses|
  {
    if accesses != [] {
      AccessHits(s, accesses[0]);
      if Coherent(Apply(s, accesses[0]).state) {
        CoherentIffAdmissible(Apply(s, accesses[0]).state, accesses[1..]);
      }
    }
  }

  // ---------------------------------------------------------------- the object

  /** struct bme680_spi_bus_context with the chip at the other end of the bus. */
  class SpiBusContext {
    var currentPage: Byte
    var regs: map<Byte, Byte>
    const defaults: map<Byte, Byte>

    ghost function Abs(): (r: State)
      reads this
    {
      State(Chip(regs, defaults), currentPage)
    }

    constructor (regs: map<Byte, Byte>, defaults: map<Byte, Byte>)
      requires Chip(regs, defaults).Valid()
      ensures Abs() == State(Chip(regs, defaults), UNDEFINED_PAGE) && Coherent(Abs())
    {
      this.regs, this.defaults, currentPage := regs, defaults, UNDEFINED_PAGE;
    }

    /** spi_write of two bytes. */
    method Send(first: Byte, second: Byte, fails: bool) returns (ok: bool)
      requires Abs().chip.Valid()
      modifies this`regs
      ensures ok == !fails
      ensures Abs().chip == if ok then ChipWrite(old(Abs().chip), first, second) else old(Abs().chip)
    {
      if fails {
        return false;
      }
      regs := ChipWrite(Chip(regs, defaults), first, second).regs;
      return true;
    }

    method Select(reg: Byte, f: Faults) returns (ok: bool)
      requires Abs().chip.Valid()
      modifies this
      ensures Result(Abs(), ok, None) == SelectPage(old(Abs()), reg, f)
    {
      var page: Byte := if HighBit(reg) then 0 else 1;
      if page == currentPage {
        return true;
      }
      if f.statusRead {
        return false;
      }
      var status := ChipRead(Chip(regs, defaults), STATUS);
      if page != 0 {
        status := SetPageBit(status);
      } else {
        status := ClearPageBit(status);
      }
      ok := Send(STATUS, status, f.statusWrite);
      if !ok {
        return false;
      }
      currentPage := page;
    }

    method RegWrite(reg: Byte, value: Byte, f: Faults) returns (ok: bool)
      requires Coherent(Abs())
      modifies this
      ensures Result(Abs(), ok, None) == Write(old(Abs()), reg, value, f)
    {
      SelectPageSelects(Abs(), reg, f);
      ok := Select(reg, f);
      if !ok {
        return false;
      }
      ok := Send(LowBits(reg), value, f.transfer);
    }

    method RegRead(reg: Byte, f: Faults) returns (ok: bool, value: Option<Byte>)
      requires Coherent(Abs())
      modifies this
      ensures Result(Abs(), ok, value) == Read(old(Abs()), reg, f)
    {
      SelectPageSelects(Abs(), reg, f);
      ok := Select(reg, f);
      if !ok {
        return false, None;
      }
      if f.transfer {
        return false, None;
      }
      value := Some(ChipRead(Chip(regs, defaults), WithHighBit(reg)));
    }
  }
}
