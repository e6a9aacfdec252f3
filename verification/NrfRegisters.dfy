/** The configuration registers of an nRF24L01+ behind SPI frames, and the setters and getters of the
    HAL over them. */
module NrfRegisters {
  import opened Bytes
  import opened Bits8

  // ---------------------------------------------------------------- the chip

  const CONFIG := 0x00
  const EN_AA := 0x01
  const EN_RXADDR := 0x02
  const SETUP_AW := 0x03
  const SETUP_RETR := 0x04
  const RF_CH := 0x05
  const RF_SETUP := 0x06
  const STATUS := 0x07
  const RX_ADDR_P0 := 0x0a
  const TX_ADDR := 0x10
  const RX_PW_P0 := 0x11
  const FEATURE := 0x1d
  const W_REGISTER := 0x20
  const REGS := 0x20
  const PIPES := 6
  const PIPE_TX := 6
  const PIPE_ALL := 0xff

  /** Bytes of a register: the addresses of pipes 0 and 1 and of the transmitter have five. */
  function SizeOf(reg: nat): nat {
    if reg == RX_ADDR_P0 || reg == RX_ADDR_P0 + 1 || reg == TX_ADDR then 5 else 1
  }

  /** A register file, each register with its least significant byte first; the address width
      register has two bits. */
  predicate RegFile(r: seq<seq<bv8>>) {
    && |r| == REGS && (forall i :: 0 <= i < REGS ==> |r[i]| == SizeOf(i))
    && r[SETUP_AW][0] <= 3
  }

  type Regs = r: seq<seq<bv8>> | RegFile(r) witness Blank()

  function Blank(): (r: seq<seq<bv8>>)
    ensures RegFile(r)
  {
    seq(REGS, i requires 0 <= i < REGS => seq(SizeOf(i), _ => 0 as bv8))
  }

  /** Writing the first bytes of a register; only the low bits of the address width are there. */
  function Written(r: Regs, reg: nat, data: seq<bv8>): Regs
    requires reg < REGS && |data| <= SizeOf(reg)
  {
    var v := data + r[reg][|data|..];
    r[reg := if reg == SETUP_AW then [v[0] & 0x03] else v]
  }

  class Chip {
    var regs: Regs
    // the SPI frames it has been sent
    var frames: seq<seq<bv8>>

    constructor (regs: Regs)
      ensures this.regs == regs && frames == []
    {
      this.regs := regs;
      frames := [];
    }

    /** One SPI frame: a register read or a register write, answered by the status and the bytes read. */
    method Transmit(cmd: nat, tx: seq<bv8>) returns (status: bv8, rx: seq<bv8>)
      requires cmd < W_REGISTER + REGS && |tx| <= SizeOf(cmd % REGS)
      modifies this
      ensures status == old(regs)[STATUS][0] && |rx| == |tx|
      ensures cmd < W_REGISTER ==> regs == old(regs) && rx == regs[cmd][..|tx|]
      ensures cmd >= W_REGISTER ==> regs == Written(old(regs), cmd - W_REGISTER, tx)
      ensures frames == old(frames) + [[cmd as bv8] + tx]
    {
      frames := frames + [[cmd as bv8] + tx];
      status := regs[STATUS][0];
      if cmd < W_REGISTER {
        rx := regs[cmd][..|tx|];
      } else {
        rx := tx;
        regs := Written(regs, cmd - W_REGISTER, tx);
      }
    }
  }

  // ---------------------------------------------------------------- the abstract configuration

  datatype Crc = CrcOff | Crc8Bit | Crc16Bit

  /** What CONFIG, FEATURE, RF_SETUP and SETUP_RETR hold. Data rate and power are kept by their bits. */
  datatype Control = Control(prx: bool, pwrUp: bool, crc: Crc, irqMaxRt: bool, irqTxDs: bool, irqRxDr: bool)
  datatype Features = Features(dpl: bool, ackPay: bool, dynAck: bool)
  datatype Rf = Rf(rateLow: bool, rateHigh: bool, pwr1: bool, pwr0: bool, pll: bool, contWave: bool)
  datatype Retr = Retr(retries: bv8, step: bv8)

  /** What the radio is configured to. */
  datatype Config = Config(
    control: Control, features: Features, rf: Rf, channel: bv8, retr: Retr, width: nat,
    open: seq<bool>, autoAck: seq<bool>, payload: seq<seq<bv8>>, addrs: seq<seq<bv8>>)

  function CrcOf(x: bv8): Crc {
    if !Bit(x, 3) then CrcOff else if Bit(x, 2) then Crc16Bit else Crc8Bit
  }

  function ControlOf(x: bv8): Control {
    Control(Bit(x, 0), Bit(x, 1), CrcOf(x), !Bit(x, 4), !Bit(x, 5), !Bit(x, 6))
  }

  function FeaturesOf(x: bv8): Features { Features(Bit(x, 2), Bit(x, 1), Bit(x, 0)) }

  function RfOf(x: bv8): Rf { Rf(Bit(x, 5), Bit(x, 3), Bit(x, 2), Bit(x, 1), Bit(x, 4), Bit(x, 7)) }

  function RetrOf(x: bv8): Retr { Retr(x & 0x0f, (x >> 4) & 0x0f) }

  function WidthOf(x: bv8): nat { (x + 2) as nat }

  /** The abstraction: what a register file configures. */
  function Abs(r: Regs): Config {
    Config(
      ControlOf(r[CONFIG][0]), FeaturesOf(r[FEATURE][0]), RfOf(r[RF_SETUP][0]),
      r[RF_CH][0] & 0x7f, RetrOf(r[SETUP_RETR][0]), WidthOf(r[SETUP_AW][0]),
      PipeBits(r[EN_RXADDR][0]), PipeBits(r[EN_AA][0]),
      r[RX_PW_P0..RX_PW_P0 + PIPES], r[RX_ADDR_P0..RX_ADDR_P0 + PIPES + 1])
  }

  /** One bit for each receive pipe. */
  function PipeBits(x: bv8): (b: seq<bool>)
    ensures |b| == PIPES
  {
    [Bit(x, 0), Bit(x, 1), Bit(x, 2), Bit(x, 3), Bit(x, 4), Bit(x, 5)]
  }

  // ---------------------------------------------------------------- register access

  method ReadReg(chip: Chip, reg: nat) returns (v: bv8)
    requires reg < REGS
    ensures v == chip.regs[reg][0]
    modifies chip
    ensures chip.regs == old(chip.regs) && chip.frames == old(chip.frames) + [[reg as bv8, 0]]
  {
    var status, rx := chip.Transmit(reg, [0]);
    assert [reg as bv8] + [0] == [reg as bv8, 0];
    v := rx[0];
  }

  method WriteReg(chip: Chip, reg: nat, v: bv8)
    requires reg < REGS
    modifies chip
    ensures chip.regs == Written(old(chip.regs), reg, [v])
    ensures chip.frames == old(chip.frames) + [[(W_REGISTER + reg) as bv8, v]]
  {
    var status, rx := chip.Transmit(W_REGISTER + reg, [v]);
    assert [(W_REGISTER + reg) as bv8] + [v] == [(W_REGISTER + reg) as bv8, v];
  }

  // ---------------------------------------------------------------- single-bit settings

  /** The settings that are one bit of CONFIG, FEATURE or RF_SETUP. */
  datatype Switch = OpMode | PowerUp | IrqMaxRt | IrqTxDs | IrqRxDr | DynPayload | AckPayload | DynAck
                  | PllLock | ContWave

  function RegOf(sw: Switch): nat {
    match sw
    case OpMode | PowerUp | IrqMaxRt | IrqTxDs | IrqRxDr => CONFIG
    case DynPayload | AckPayload | DynAck => FEATURE
    case PllLock | ContWave => RF_SETUP
  }

  function BitOf(sw: Switch): (n: nat)
    ensures n < 8
  {
    match sw
    case OpMode => 0 case PowerUp => 1
    case IrqMaxRt => 4 case IrqTxDs => 5 case IrqRxDr => 6
    case DynPayload => 2 case AckPayload => 1 case DynAck => 0
    case PllLock => 4 case ContWave => 7
  }

  /** Interrupts are masked by their bits. */
  predicate Inverted(sw: Switch) { sw.IrqMaxRt? || sw.IrqTxDs? || sw.IrqRxDr? }

  function SwitchOf(c: Config, sw: Switch): bool {
    match sw
    case OpMode => c.control.prx case PowerUp => c.control.pwrUp
    case IrqMaxRt => c.control.irqMaxRt case IrqTxDs => c.control.irqTxDs case IrqRxDr => c.control.irqRxDr
    case DynPayload => c.features.dpl case AckPayload => c.features.ackPay case DynAck => c.features.dynAck
    case PllLock => c.rf.pll case ContWave => c.rf.contWave
  }

  function WithSwitch(c: Config, sw: Switch, v: bool): Config {
    match sw
    case OpMode => c.(control := c.control.(prx := v))
    case PowerUp => c.(control := c.control.(pwrUp := v))
    case IrqMaxRt => c.(control := c.control.(irqMaxRt := v))
    case IrqTxDs => c.(control := c.control.(irqTxDs := v))
    case IrqRxDr => c.(control := c.control.(irqRxDr := v))
    case DynPayload => c.(features := c.features.(dpl := v))
    case AckPayload => c.(features := c.features.(ackPay := v))
    case DynAck => c.(features := c.features.(dynAck := v))
    case PllLock => c.(rf := c.rf.(pll := v))
    case ContWave => c.(rf := c.rf.(contWave := v))
  }

  lemma PutBits(x: bv8, n: nat, v: bool)
    requires n < 8
    ensures forall m :: 0 <= m < 8 ==> (Bit(Put(x, n, v), m) <==> if m == n then v else Bit(x, m))
  {
    forall m | 0 <= m < 8 ensures Bit(Put(x, n, v), m) <==> if m == n then v else Bit(x, m) {
      PutBit(x, n, v, m);
    }
  }

  /** A write to one of the plain registers changes just its part of the configuration. */
  lemma WriteOne(r: Regs, reg: nat, x: bv8)
    requires reg == CONFIG || SETUP_AW <= reg <= RF_SETUP || reg == FEATURE
    ensures var a := Abs(r);
            Abs(Written(r, reg, [x])) == a.(
              control := if reg == CONFIG then ControlOf(x) else a.control,
              features := if reg == FEATURE then FeaturesOf(x) else a.features,
              rf := if reg == RF_SETUP then RfOf(x) else a.rf,
              channel := if reg == RF_CH then x & 0x7f else a.channel,
              retr := if reg == SETUP_RETR then RetrOf(x) else a.retr,
              width := if reg == SETUP_AW then WidthOf(x & 0x03) else a.width)
  {
    hide ControlOf, FeaturesOf, RfOf, RetrOf, WidthOf, PipeBits, Written;
    WrittenAt(r, reg, x);
  }

  /** A write touches one register. */
  lemma WrittenAt(r: Regs, reg: nat, x: bv8)
    requires reg < REGS && SizeOf(reg) == 1
    ensures var r' := Written(r, reg, [x]);
            && r'[reg] == [if reg == SETUP_AW then x & 0x03 else x]
            && (forall i :: 0 <= i < REGS && i != reg ==> r'[i] == r[i])
            && (!(RX_PW_P0 <= reg < RX_PW_P0 + PIPES) ==>
                  r'[RX_PW_P0..RX_PW_P0 + PIPES] == r[RX_PW_P0..RX_PW_P0 + PIPES])
            && (!(RX_ADDR_P0 <= reg <= TX_ADDR) ==>
                  r'[RX_ADDR_P0..RX_ADDR_P0 + PIPES + 1] == r[RX_ADDR_P0..RX_ADDR_P0 + PIPES + 1])
  {
  }

  /** The frames on the wire: register `reg` is read, then `x` goes into it. */
  function ReadWrite(reg: bv8, x: bv8): seq<seq<bv8>> { [[reg, 0], [0x20 | reg, x]] }

  /** Where a switch is: CONFIG, FEATURE or RF_SETUP. */
  function SwitchRegister(sw: Switch): bv8 {
    match sw
    case OpMode | PowerUp | IrqMaxRt | IrqTxDs | IrqRxDr => 0x00
    case DynPayload | AckPayload | DynAck => 0x1d
    case PllLock | ContWave => 0x06
  }

  /** What a one-bit setter makes of a register holding `x`. */
  function SwitchByte(sw: Switch, x: bv8, v: bool): bv8 {
    match sw
    case OpMode => if v then x | 0x01 else x & 0xfe
    case PowerUp => if v then x | 0x02 else x & 0xfd
    case IrqMaxRt => if v then x & 0xef else x | 0x10
    case IrqTxDs => if v then x & 0xdf else x | 0x20
    case IrqRxDr => if v then x & 0xbf else x | 0x40
    case DynPayload => if v then x | 0x04 else x & 0xfb
    case AckPayload => if v then x | 0x02 else x & 0xfd
    case DynAck => if v then x | 0x01 else x & 0xfe
    case PllLock => if v then x | 0x10 else x & 0xef
    case ContWave => if v then x | 0x80 else x & 0x7f
  }

  /** The frames of a one-bit setter over a register holding `x`. */
  function SwitchFrames(sw: Switch, x: bv8, v: bool): seq<seq<bv8>> {
    ReadWrite(SwitchRegister(sw), SwitchByte(sw, x, v))
  }

  lemma PutByte(x: bv8, n: nat, v: bool)
    requires n < 8
    ensures Put(x, n, v) ==
      if n == 0 then (if v then x | 0x01 else x & 0xfe) else if n == 1 then (if v then x | 0x02 else x & 0xfd)
      else if n == 2 then (if v then x | 0x04 else x & 0xfb) else if n == 3 then (if v then x | 0x08 else x & 0xf7)
      else if n == 4 then (if v then x | 0x10 else x & 0xef) else if n == 5 then (if v then x | 0x20 else x & 0xdf)
      else if n == 6 then (if v then x | 0x40 else x & 0xbf) else (if v then x | 0x80 else x & 0x7f)
  {
  }

  lemma SwitchPuts(sw: Switch, x: bv8, v: bool)
    ensures SwitchByte(sw, x, v) == Put(x, BitOf(sw), v != Inverted(sw))
  {
    hide Put;
    PutByte(x, BitOf(sw), v != Inverted(sw));
  }

  /** The command bytes that read and write the register of a switch. */
  lemma SwitchCommands(sw: Switch)
    ensures RegOf(sw) as bv8 == SwitchRegister(sw)
    ensures (W_REGISTER + RegOf(sw)) as bv8 == 0x20 | SwitchRegister(sw)
  {
  }

  lemma SwitchWire(sw: Switch, x: bv8, v: bool)
    ensures SwitchFrames(sw, x, v)
         == [[RegOf(sw) as bv8, 0], [(W_REGISTER + RegOf(sw)) as bv8, Put(x, BitOf(sw), v != Inverted(sw))]]
  {
    hide Put, SwitchByte, SwitchRegister, RegOf, BitOf, Inverted;
    SwitchPuts(sw, x, v);
    SwitchCommands(sw);
  }

  lemma TwoFrames(f: seq<seq<bv8>>, a: seq<bv8>, b: seq<bv8>)
    ensures f + [a] + [b] == f + [a, b]
  {
  }

  /** Setters of one bit: read, set or clear, write back. Nothing else of the configuration changes. */
  method SetSwitch(chip: Chip, sw: Switch, v: bool)
    modifies chip
    ensures Abs(chip.regs) == WithSwitch(Abs(old(chip.regs)), sw, v)
    ensures chip.frames == old(chip.frames) + SwitchFrames(sw, old(chip.regs)[RegOf(sw)][0], v)
  {
    hide Abs, Written, Put, SwitchFrames, WithSwitch;
    SwitchWire(sw, chip.regs[RegOf(sw)][0], v);
    ghost var f := chip.frames;
    var x := ReadReg(chip, RegOf(sw));
    var y := Put(x, BitOf(sw), v != Inverted(sw));
    WriteReg(chip, RegOf(sw), y);
    SwitchPut(old(chip.regs), sw, v);
    TwoFrames(f, [RegOf(sw) as bv8, 0], [(W_REGISTER + RegOf(sw)) as bv8, y]);
  }

  lemma SwitchPut(r: Regs, sw: Switch, v: bool)
    ensures Abs(Written(r, RegOf(sw), [Put(r[RegOf(sw)][0], BitOf(sw), v != Inverted(sw))]))
         == WithSwitch(Abs(r), sw, v)
  {
    hide Bit, Put, PipeBits, Written, WithSwitch, ControlOf, FeaturesOf, RfOf, Inverted, BitOf;
    var x := r[RegOf(sw)][0];
    WriteOne(r, RegOf(sw), Put(x, BitOf(sw), v != Inverted(sw)));
    SwitchBits(Abs(r), x, sw, v);
  }

  lemma SwitchBits(a: Config, x: bv8, sw: Switch, v: bool)
    requires RegOf(sw) == CONFIG ==> a.control == ControlOf(x)
    requires RegOf(sw) == FEATURE ==> a.features == FeaturesOf(x)
    requires RegOf(sw) == RF_SETUP ==> a.rf == RfOf(x)
    ensures var y := Put(x, BitOf(sw), v != Inverted(sw));
            WithSwitch(a, sw, v) == a.(
              control := if RegOf(sw) == CONFIG then ControlOf(y) else a.control,
              features := if RegOf(sw) == FEATURE then FeaturesOf(y) else a.features,
              rf := if RegOf(sw) == RF_SETUP then RfOf(y) else a.rf)
  {
    hide Bit, Put;
    PutBits(x, BitOf(sw), v != Inverted(sw));
  }

  method GetSwitch(chip: Chip, sw: Switch) returns (v: bool)
    modifies chip
    ensures chip.regs == old(chip.regs) && v == SwitchOf(Abs(chip.regs), sw)
  {
    var x := ReadReg(chip, RegOf(sw));
    v := Bit(x, BitOf(sw)) != Inverted(sw);
  }

  // ---------------------------------------------------------------- settings of several bits

  method SetCrcMode(chip: Chip, mode: Crc)
    modifies chip
    ensures var c := Abs(old(chip.regs)); Abs(chip.regs) == c.(control := c.control.(crc := mode))
    ensures var x := old(chip.regs)[0x00][0];
            chip.frames == old(chip.frames) + ReadWrite(0x00,
              match mode case CrcOff => x & 0xf7 case Crc8Bit => (x | 0x08) & 0xfb case Crc16Bit => x | 0x0c)
  {
    hide PutCrc, Written, Abs;
    var x := ReadReg(chip, CONFIG);
    WriteReg(chip, CONFIG, PutCrc(x, mode));
    CrcPut(old(chip.regs), mode);
    CrcByte(x, mode);
    TwoFrames(old(chip.frames), [0x00, 0], [0x20, PutCrc(x, mode)]);
  }

  lemma CrcByte(x: bv8, mode: Crc)
    ensures PutCrc(x, mode)
         == match mode case CrcOff => x & 0xf7 case Crc8Bit => (x | 0x08) & 0xfb case Crc16Bit => x | 0x0c
  {
  }

  method GetCrcMode(chip: Chip) returns (mode: Crc)
    modifies chip
    ensures chip.regs == old(chip.regs) && mode == Abs(chip.regs).control.crc
  {
    var x := ReadReg(chip, CONFIG);
    if Bit(x, 3) {
      mode := if Bit(x, 2) then Crc16Bit else Crc8Bit;
    } else {
      mode := CrcOff;
    }
  }

  /** The checksum length bit is left alone when checksums are switched off. */
  function PutCrc(x: bv8, mode: Crc): bv8 {
    match mode
    case CrcOff => Put(x, 3, false)
    case Crc8Bit => Put(Put(x, 3, true), 2, false)
    case Crc16Bit => Put(Put(x, 3, true), 2, true)
  }

  lemma CrcPut(r: Regs, mode: Crc)
    ensures Abs(Written(r, CONFIG, [PutCrc(r[CONFIG][0], mode)]))
         == Abs(r).(control := Abs(r).control.(crc := mode))
  {
    hide Bit, Put, PipeBits, Written;
    var x := r[CONFIG][0];
    PutBits(x, 3, mode != CrcOff);
    PutBits(Put(x, 3, true), 2, mode == Crc16Bit);
    WriteOne(r, CONFIG, PutCrc(x, mode));
  }

  datatype Rate = Rate1Mbps | Rate2Mbps | Rate250Kbps

  /** RF_SETUP with another data rate. */
  function RateByte(x: bv8, rate: Rate): bv8 {
    match rate
    case Rate250Kbps => (x | 0x20) & 0xf7
    case Rate1Mbps => x & 0xd7
    case Rate2Mbps => (x & 0xdf) | 0x08
  }

  lemma RateSame(x: bv8, rate: Rate)
    ensures Put(Put(x, 5, rate == Rate250Kbps), 3, rate == Rate2Mbps) == RateByte(x, rate)
  {
  }

  lemma RatePut(x: bv8, rate: Rate)
    ensures Put(Put(x, 5, rate == Rate250Kbps), 3, rate == Rate2Mbps) == RateByte(x, rate)
    ensures RfOf(RateByte(x, rate))
         == RfOf(x).(rateLow := rate == Rate250Kbps, rateHigh := rate == Rate2Mbps)
  {
    hide Bit, Put, RateByte;
    RateSame(x, rate);
    PutBits(x, 5, rate == Rate250Kbps);
    PutBits(Put(x, 5, rate == Rate250Kbps), 3, rate == Rate2Mbps);
  }

  method SetDatarate(chip: Chip, rate: Rate)
    modifies chip
    ensures var c := Abs(old(chip.regs));
            Abs(chip.regs) == c.(rf := c.rf.(rateLow := rate == Rate250Kbps, rateHigh := rate == Rate2Mbps))
    ensures chip.frames == old(chip.frames) + ReadWrite(0x06, RateByte(old(chip.regs)[0x06][0], rate))
  {
    hide Bit, Put, PipeBits, Written, RfOf, RateByte;
    var x := ReadReg(chip, RF_SETUP);
    var y := Put(x, 5, rate == Rate250Kbps);
    RatePut(x, rate);
    WriteReg(chip, RF_SETUP, Put(y, 3, rate == Rate2Mbps));
    WriteOne(old(chip.regs), RF_SETUP, Put(y, 3, rate == Rate2Mbps));
    TwoFrames(old(chip.frames), [0x06, 0], [0x26, Put(y, 3, rate == Rate2Mbps)]);
  }

  /** What hal_nrf_get_datarate makes of the two rate bits: masks where the interface has an
      enumeration. */
  function RateCode(rf: Rf): bv8 { (if rf.rateLow then 0x40 else 0) | (if rf.rateHigh then 0x08 else 0) }

  function EnumOf(rate: Rate): bv8 {
    match rate case Rate1Mbps => 0 case Rate2Mbps => 1 case Rate250Kbps => 2
  }

  method GetDatarate(chip: Chip) returns (code: bv8)
    modifies chip
    ensures chip.regs == old(chip.regs) && code == RateCode(Abs(chip.regs).rf)
  {
    var x := ReadReg(chip, RF_SETUP);
    code := ((x & 0x20) << 1) | (x & 0x08);
    RateBits(x);
  }

  lemma RateBits(x: bv8)
    ensures ((x & 0x20) << 1) | (x & 0x08) == RateCode(RfOf(x))
  {
  }

  /** RF_SETUP with another output power. */
  function PowerByte(x: bv8, power: bv8): bv8 { (x & 0xf9) | (power << 1) }

  method SetOutputPower(chip: Chip, power: bv8)
    requires power <= 3
    modifies chip
    ensures var c := Abs(old(chip.regs));
            Abs(chip.regs) == c.(rf := c.rf.(pwr1 := power & 2 != 0, pwr0 := power & 1 != 0))
    ensures chip.frames == old(chip.frames) + ReadWrite(0x06, PowerByte(old(chip.regs)[0x06][0], power))
  {
    hide RfOf, Written, Abs, PowerByte;
    var x := ReadReg(chip, RF_SETUP);
    var y := (x & !0x06) | ((power & 0x03) << 1);
    PowerBits(x, power);
    WriteReg(chip, RF_SETUP, y);
    PowerWritten(old(chip.regs), power, y);
    TwoFrames(old(chip.frames), [0x06, 0], [0x26, y]);
  }

  lemma PowerWritten(r: Regs, power: bv8, y: bv8)
    requires RfOf(y) == RfOf(r[RF_SETUP][0]).(pwr1 := power & 2 != 0, pwr0 := power & 1 != 0)
    ensures Abs(Written(r, RF_SETUP, [y]))
         == Abs(r).(rf := Abs(r).rf.(pwr1 := power & 2 != 0, pwr0 := power & 1 != 0))
  {
    hide RfOf, Written;
    WriteOne(r, RF_SETUP, y);
  }

  lemma PowerBits(x: bv8, power: bv8)
    requires power <= 3
    ensures RfOf((x & !0x06) | ((power & 0x03) << 1))
         == RfOf(x).(pwr1 := power & 2 != 0, pwr0 := power & 1 != 0)
    ensures (x & !0x06) | ((power & 0x03) << 1) == PowerByte(x, power)
  {
  }

  function PowerOf(rf: Rf): bv8 { (if rf.pwr1 then 2 else 0) | (if rf.pwr0 then 1 else 0) }

  method GetOutputPower(chip: Chip) returns (power: bv8)
    modifies chip
    ensures chip.regs == old(chip.regs) && power == PowerOf(Abs(chip.regs).rf)
  {
    var x := ReadReg(chip, RF_SETUP);
    power := (x >> 1) & 0x03;
    PowerReadBits(x);
  }

  lemma PowerReadBits(x: bv8)
    ensures (x >> 1) & 0x03 == PowerOf(RfOf(x))
  {
  }

  method SetRfChannel(chip: Chip, channel: bv8)
    modifies chip
    ensures Abs(chip.regs) == Abs(old(chip.regs)).(channel := channel & 0x7f)
    ensures chip.frames == old(chip.frames) + [[0x25, channel & 0x7f]]
  {
    hide Written, Abs;
    WriteReg(chip, RF_CH, channel & 0x7f);
    WriteOne(old(chip.regs), RF_CH, channel & 0x7f);
    assert channel & 0x7f & 0x7f == channel & 0x7f;
  }

  method GetRfChannel(chip: Chip) returns (channel: bv8)
    modifies chip
    ensures chip.regs == old(chip.regs) && channel == Abs(chip.regs).channel
  {
    var x := ReadReg(chip, RF_CH);
    channel := x & 0x7f;
  }

  /** The delay is stored in steps of 250us; `delay` has 16 bits. */
  function StepOf(delay: u16): (n: nat)
    ensures n < 16
  {
    delay / 0x100 % 0x10
  }

  method SetAutoRetr(chip: Chip, retr: bv8, delay: u16)
    modifies chip
    ensures Abs(chip.regs) == Abs(old(chip.regs)).(retr := Retr(retr & 0x0f, StepOf(delay) as bv8))
    ensures chip.frames
         == old(chip.frames) + [[0x24, (((delay / 0x100 % 0x10) as bv8) << 4) | (retr & 0x0f)]]
  {
    hide Written, Abs;
    var step := StepOf(delay) as bv8;
    var x := (step << 4) | (retr & 0x0f);
    NibblesOf(step, retr);
    WriteReg(chip, SETUP_RETR, x);
    WriteOne(old(chip.regs), SETUP_RETR, x);
  }

  lemma NibblesOf(step: bv8, retr: bv8)
    requires step < 16
    ensures RetrOf((step << 4) | (retr & 0x0f)) == Retr(retr & 0x0f, step)
  {
  }

  method GetAutoRetrCtr(chip: Chip) returns (retr: bv8)
    modifies chip
    ensures chip.regs == old(chip.regs) && retr == Abs(chip.regs).retr.retries
  {
    var x := ReadReg(chip, SETUP_RETR);
    retr := x & 0x0f;
  }

  method GetAutoRetrDelay(chip: Chip) returns (delay: nat)
    modifies chip
    ensures chip.regs == old(chip.regs) && delay == (Abs(chip.regs).retr.step as nat + 1) * 250
  {
    var x := ReadReg(chip, SETUP_RETR);
    delay := (((x >> 4) & 0x0f) as nat + 1) * 250;
  }

  method SetAddressWidth(chip: Chip, width: bv8)
    requires 3 <= width <= 5
    modifies chip
    ensures Abs(chip.regs) == Abs(old(chip.regs)).(width := width as nat)
    ensures chip.frames == old(chip.frames) + [[0x23, width - 2]]
  {
    hide Written, Abs;
    WriteReg(chip, SETUP_AW, (width - 2) & 0x03);
    WriteOne(old(chip.regs), SETUP_AW, (width - 2) & 0x03);
    assert ((width - 2) & 0x03 & 0x03) + 2 == width;
    assert (width - 2) & 0x03 == width - 2;
  }

  method GetAddressWidth(chip: Chip) returns (width: nat)
    modifies chip
    ensures chip.regs == old(chip.regs) && width == Abs(chip.regs).width
  {
    var x := ReadReg(chip, SETUP_AW);
    width := (x + 2) as nat;
  }

  method SetPayloadWidth(chip: Chip, pipe: nat, width: bv8)
    requires pipe < PIPES
    modifies chip
    ensures Abs(chip.regs)
         == Abs(old(chip.regs)).(payload := Abs(old(chip.regs)).payload[pipe := [width]])
    ensures chip.frames == old(chip.frames) + [[(0x31 + pipe) as bv8, width]]
  {
    hide ControlOf, FeaturesOf, RfOf, RetrOf, WidthOf, PipeBits, Written;
    WriteReg(chip, RX_PW_P0 + pipe, width);
    PayloadWritten(old(chip.regs), pipe, width);
  }

  method GetPayloadWidth(chip: Chip, pipe: nat) returns (width: bv8)
    requires pipe < PIPES
    modifies chip
    ensures chip.regs == old(chip.regs) && [width] == Abs(chip.regs).payload[pipe]
  {
    width := ReadReg(chip, RX_PW_P0 + pipe);
  }

  lemma PayloadWritten(r: Regs, pipe: nat, width: bv8)
    requires pipe < PIPES
    ensures var r' := Written(r, RX_PW_P0 + pipe, [width]);
            && (forall i :: 0 <= i < REGS && i != RX_PW_P0 + pipe ==> r'[i] == r[i])
            && r'[RX_PW_P0..RX_PW_P0 + PIPES] == r[RX_PW_P0..RX_PW_P0 + PIPES][pipe := [width]]
            && r'[RX_ADDR_P0..RX_ADDR_P0 + PIPES + 1] == r[RX_ADDR_P0..RX_ADDR_P0 + PIPES + 1]
  {
    WrittenAt(r, RX_PW_P0 + pipe, width);
  }

  // ---------------------------------------------------------------- pipes

  function PutPipe(x: bv8, pipe: nat, v: bool): bv8 {
    if pipe < PIPES then Put(x, pipe, v) else if v then 0x3f else 0
  }

  /** The bits after opening or closing one pipe, or all of them. */
  function PipesAfter(b: seq<bool>, pipe: nat, v: bool): (b': seq<bool>)
    requires |b| == PIPES
    ensures |b'| == PIPES
  {
    if pipe < PIPES then b[pipe := v] else if pipe == PIPE_ALL then [v, v, v, v, v, v] else b
  }

  lemma PipeBitsAre(x: bv8)
    ensures forall m :: 0 <= m < PIPES ==> PipeBits(x)[m] == Bit(x, m)
  {
    hide Bit;
  }

  lemma AllPipes(v: bool)
    ensures PipeBits(if v then 0x3f else 0) == [v, v, v, v, v, v]
  {
  }

  lemma PutPipeBits(x: bv8, pipe: nat, v: bool)
    requires pipe < PIPES || pipe == PIPE_ALL
    ensures PipeBits(PutPipe(x, pipe, v)) == PipesAfter(PipeBits(x), pipe, v)
  {
    hide Bit, Put, PipeBits;
    if pipe < PIPES {
      PutBits(x, pipe, v);
      PipeBitsAre(x);
      PipeBitsAre(PutPipe(x, pipe, v));
    } else {
      AllPipes(v);
    }
  }

  lemma WritePipes(r: Regs, rx: bv8, aa: bv8)
    ensures Abs(Written(Written(r, EN_RXADDR, [rx]), EN_AA, [aa]))
         == Abs(r).(open := PipeBits(rx), autoAck := PipeBits(aa))
  {
    hide ControlOf, FeaturesOf, RfOf, RetrOf, WidthOf, PipeBits, Written;
    WrittenAt(r, EN_RXADDR, rx);
    WrittenAt(Written(r, EN_RXADDR, [rx]), EN_AA, aa);
  }

  lemma AbsPipes(r: Regs)
    ensures Abs(r).open == PipeBits(r[EN_RXADDR][0]) && Abs(r).autoAck == PipeBits(r[EN_AA][0])
  {
  }

  /** The frames of opening or closing a pipe over enable registers holding `rx` and `aa`. */
  function PipeFrames(rx: bv8, aa: bv8, pipe: nat, open: bool, ack: bool): seq<seq<bv8>> {
    [[0x02, 0], [0x01, 0]] +
    if pipe < 6 then [[0x22, if open then rx | (1 << pipe) else rx & !(1 << pipe)],
                      [0x21, if ack then aa | (1 << pipe) else aa & !(1 << pipe)]]
    else if pipe == 0xff then [[0x22, if open then 0x3f else 0], [0x21, if ack then 0x3f else 0]]
    else []
  }

  lemma PipeByte(x: bv8, pipe: nat, v: bool)
    requires pipe < PIPES || pipe == PIPE_ALL
    ensures PutPipe(x, pipe, v)
         == if pipe < 6 then (if v then x | (1 << pipe) else x & !(1 << pipe)) else if v then 0x3f else 0
  {
  }

  lemma PipeWire(f: seq<seq<bv8>>, rx: bv8, aa: bv8, pipe: nat, open: bool, ack: bool)
    ensures f + PipeFrames(rx, aa, pipe, open, ack)
         == if pipe < PIPES || pipe == PIPE_ALL
            then f + [[0x02, 0]] + [[0x01, 0]] + [[0x22, PutPipe(rx, pipe, open)]] + [[0x21, PutPipe(aa, pipe, ack)]]
            else f + [[0x02, 0]] + [[0x01, 0]]
  {
    if pipe < PIPES || pipe == PIPE_ALL {
      PipeByte(rx, pipe, open);
      PipeByte(aa, pipe, ack);
    }
    hide PutPipe;
  }

  /** hal_nrf_open_pipe and hal_nrf_close_pipe: any other pipe number than 0 to 5 and "all" is ignored. */
  method SetPipe(chip: Chip, pipe: nat, open: bool, autoAck: bool)
    modifies chip
    ensures var c := Abs(old(chip.regs));
            Abs(chip.regs) == c.(open := PipesAfter(c.open, pipe, open),
                                 autoAck := PipesAfter(c.autoAck, pipe, open && autoAck))
    ensures chip.frames == old(chip.frames)
      + PipeFrames(old(chip.regs)[0x02][0], old(chip.regs)[0x01][0], pipe, open, open && autoAck)
  {
    hide PipeBits, PutPipe, Written, Abs, PipeFrames;
    AbsPipes(chip.regs);
    PipeWire(chip.frames, chip.regs[0x02][0], chip.regs[0x01][0], pipe, open, open && autoAck);
    var rx := ReadReg(chip, EN_RXADDR);
    var aa := ReadReg(chip, EN_AA);
    if pipe < PIPES || pipe == PIPE_ALL {
      PutPipeBits(rx, pipe, open);
      PutPipeBits(aa, pipe, open && autoAck);
      WriteReg(chip, EN_RXADDR, PutPipe(rx, pipe, open));
      WriteReg(chip, EN_AA, PutPipe(aa, pipe, open && autoAck));
      WritePipes(old(chip.regs), PutPipe(rx, pipe, open), PutPipe(aa, pipe, open && autoAck));
    }
  }

  /** hal_nrf_get_pipe_status: 2 for auto-acknowledge and 1 for open, 0 for any other pipe number. */
  method GetPipeStatus(chip: Chip, pipe: nat) returns (status: nat)
    modifies chip
    ensures chip.regs == old(chip.regs)
    ensures status == if pipe < PIPES then StatusOf(Abs(chip.regs), pipe) else 0
  {
    hide Bit, Abs, PipeBits;
    AbsPipes(chip.regs);
    var rx := ReadReg(chip, EN_RXADDR);
    var aa := ReadReg(chip, EN_AA);
    status := 0;
    if pipe < PIPES {
      PipeBitsAre(rx);
      PipeBitsAre(aa);
      status := (if Bit(aa, pipe) then 2 else 0) + if Bit(rx, pipe) then 1 else 0;
    }
  }

  function StatusOf(c: Config, pipe: nat): nat
    requires pipe < |c.open| == |c.autoAck|
  {
    (if c.autoAck[pipe] then 2 else 0) + if c.open[pipe] then 1 else 0
  }

  // ---------------------------------------------------------------- addresses

  /** How many bytes of an address are set and read: one, or as many as addresses are wide. */
  function AddressLen(c: Config, pipe: nat): nat {
    if SizeOf(RX_ADDR_P0 + pipe) == 5 then c.width else 1
  }

  /** The frames of setting an address while addresses are `width` bytes wide. */
  function AddressFrames(width: nat, pipe: nat, addr: seq<bv8>): seq<seq<bv8>>
    requires pipe <= 6 && |addr| >= if pipe in {0, 1, 6} then width else 1
  {
    if pipe in {0, 1, 6} then [[0x03, 0], [(0x2a + pipe) as bv8] + addr[..width]]
    else [[(0x2a + pipe) as bv8, addr[0]]]
  }

  lemma AddressWire(f: seq<seq<bv8>>, width: nat, pipe: nat, addr: seq<bv8>)
    requires pipe <= PIPE_TX && |addr| >= if SizeOf(RX_ADDR_P0 + pipe) == 5 then width else 1
    ensures SizeOf(RX_ADDR_P0 + pipe) == 5 <==> pipe in {0, 1, 6}
    ensures f + AddressFrames(width, pipe, addr)
         == if SizeOf(RX_ADDR_P0 + pipe) == 5
            then f + [[SETUP_AW as bv8, 0]] + [[(W_REGISTER + RX_ADDR_P0 + pipe) as bv8] + addr[..width]]
            else f + [[(W_REGISTER + (RX_ADDR_P0 + pipe)) as bv8, addr[0]]]
  {
  }

  /** The pipes whose registers hold whole addresses: the width is read, then as many bytes written. */
  method SetWholeAddress(chip: Chip, pipe: nat, addr: seq<bv8>)
    requires pipe <= PIPE_TX && SizeOf(RX_ADDR_P0 + pipe) == 5 && |addr| >= Abs(chip.regs).width
    modifies chip
    ensures chip.regs == Written(old(chip.regs), RX_ADDR_P0 + pipe, addr[..Abs(old(chip.regs)).width])
    ensures chip.frames == old(chip.frames) + [[SETUP_AW as bv8, 0]]
      + [[(W_REGISTER + RX_ADDR_P0 + pipe) as bv8] + addr[..Abs(old(chip.regs)).width]]
  {
    hide Written, Abs;
    WidthIs(chip.regs);
    var aw := ReadReg(chip, SETUP_AW);
    var width := (aw + 2) as nat;
    var status, rx := chip.Transmit(W_REGISTER + RX_ADDR_P0 + pipe, addr[..width]);
  }

  /** hal_nrf_set_address: the first bytes of the address, as many as the address is wide, or one. */
  method SetAddress(chip: Chip, pipe: nat, addr: seq<bv8>)
    requires pipe <= PIPE_TX && |addr| >= AddressLen(Abs(chip.regs), pipe)
    modifies chip
    ensures var c := Abs(old(chip.regs));
            Abs(chip.regs) == c.(addrs := c.addrs[pipe := AddressAfter(c, pipe, addr)])
    ensures |addr| >= if pipe in {0, 1, 6} then Abs(old(chip.regs)).width else 1
    ensures chip.frames == old(chip.frames) + AddressFrames(Abs(old(chip.regs)).width, pipe, addr)
  {
    AddressWire(chip.frames, Abs(chip.regs).width, pipe, addr);
    hide Written, Abs, AddressFrames;
    WidthIs(chip.regs);
    if SizeOf(RX_ADDR_P0 + pipe) == 5 {
      SetWholeAddress(chip, pipe, addr);
      WriteAddress(old(chip.regs), pipe, addr[..Abs(old(chip.regs)).width]);
    } else {
      assert addr[..1] == [addr[0]];
      WriteReg(chip, RX_ADDR_P0 + pipe, addr[0]);
      WriteAddress(old(chip.regs), pipe, addr[..1]);
    }
  }

  lemma WidthIs(r: Regs)
    ensures var c := Abs(r);
            && c.width == (r[SETUP_AW][0] + 2) as nat && 2 <= c.width <= 5 && |c.addrs| == PIPES + 1
            && forall p :: 0 <= p <= PIPES ==> c.addrs[p] == r[RX_ADDR_P0 + p]
  {
  }

  lemma WriteAddress(r: Regs, pipe: nat, data: seq<bv8>)
    requires pipe <= PIPE_TX && |data| <= SizeOf(RX_ADDR_P0 + pipe)
    ensures Abs(Written(r, RX_ADDR_P0 + pipe, data))
         == Abs(r).(addrs := Abs(r).addrs[pipe := data + Abs(r).addrs[pipe][|data|..]])
  {
    hide ControlOf, FeaturesOf, RfOf, RetrOf, WidthOf, PipeBits, Written;
    AddressWritten(r, pipe, data);
  }

  function AddressAfter(c: Config, pipe: nat, addr: seq<bv8>): seq<bv8>
    requires pipe < |c.addrs| && c.width <= 5 && |c.addrs[pipe]| == SizeOf(RX_ADDR_P0 + pipe)
    requires |addr| >= AddressLen(c, pipe)
  {
    var n := AddressLen(c, pipe);
    addr[..n] + c.addrs[pipe][n..]
  }

  lemma AddressWritten(r: Regs, pipe: nat, data: seq<bv8>)
    requires pipe <= PIPE_TX && |data| <= SizeOf(RX_ADDR_P0 + pipe)
    ensures var r' := Written(r, RX_ADDR_P0 + pipe, data);
            && (forall i :: 0 <= i < REGS && i != RX_ADDR_P0 + pipe ==> r'[i] == r[i])
            && r'[RX_PW_P0..RX_PW_P0 + PIPES] == r[RX_PW_P0..RX_PW_P0 + PIPES]
            && r'[RX_ADDR_P0..RX_ADDR_P0 + PIPES + 1]
               == r[RX_ADDR_P0..RX_ADDR_P0 + PIPES + 1][pipe := data + r[RX_ADDR_P0 + pipe][|data|..]]
  {
  }

  /** hal_nrf_get_address. */
  method GetAddress(chip: Chip, pipe: nat) returns (addr: seq<bv8>)
    requires pipe <= PIPE_TX
    modifies chip
    ensures chip.regs == old(chip.regs)
    ensures var c := Abs(chip.regs); addr == c.addrs[pipe][..AddressLen(c, pipe)]
  {
    hide Abs;
    WidthIs(chip.regs);
    if SizeOf(RX_ADDR_P0 + pipe) == 5 {
      var aw := ReadReg(chip, SETUP_AW);
      var width := (aw + 2) as nat;
      var status;
      status, addr := chip.Transmit(RX_ADDR_P0 + pipe, seq(width, _ => 0));
    } else {
      var x := ReadReg(chip, RX_ADDR_P0 + pipe);
      addr := [x];
    }
  }
}
