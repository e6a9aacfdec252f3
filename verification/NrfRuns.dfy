/** Runs of nRF24L01+ setters, and what the getters read back after them. */
module NrfRuns {
  import opened Bytes
  import opened NrfRegisters

  // ---------------------------------------------------------------- runs of setters

  datatype Op =
    | DoSwitch(sw: Switch, on: bool)
    | DoCrc(mode: Crc)
    | DoRate(rate: Rate)
    | DoPower(power: bv8)
    | DoChannel(channel: bv8)
    | DoRetr(retr: bv8, delay: u16)
    | DoWidth(width: bv8)
    | DoPayload(pipe: nat, size: bv8)
    | DoPipe(pipe: nat, open: bool, autoAck: bool)
    | DoAddress(pipe: nat, addr: seq<bv8>)

  /** Arguments within the enumerations of the interface, and addresses with as many bytes as are read. */
  predicate Proper(c: Config, op: Op) {
    match op
    case DoPower(p) => p <= 3
    case DoWidth(w) => 3 <= w <= 5
    case DoPayload(p, _) => p < PIPES
    case DoAddress(p, a) => p <= PIPE_TX && |a| >= AddressLen(c, p)
    case _ => true
  }

  predicate Shaped(c: Config) {
    && |c.open| == |c.autoAck| == |c.payload| == PIPES && |c.addrs| == PIPES + 1 && c.width <= 5
    && (forall p :: 0 <= p < PIPES ==> |c.payload[p]| == 1)
    && forall p :: 0 <= p <= PIPES ==> |c.addrs[p]| == SizeOf(RX_ADDR_P0 + p)
  }

  /** What a setter does to the abstract configuration. */
  function Model(c: Config, op: Op): (c': Config)
    requires Shaped(c) && Proper(c, op)
    ensures Shaped(c')
  {
    match op
    case DoSwitch(sw, on) => WithSwitch(c, sw, on)
    case DoCrc(mode) => c.(control := c.control.(crc := mode))
    case DoRate(rate) => c.(rf := c.rf.(rateLow := rate == Rate250Kbps, rateHigh := rate == Rate2Mbps))
    case DoPower(power) => c.(rf := c.rf.(pwr1 := power & 2 != 0, pwr0 := power & 1 != 0))
    case DoChannel(channel) => c.(channel := channel & 0x7f)
    case DoRetr(retr, delay) => c.(retr := Retr(retr & 0x0f, StepOf(delay) as bv8))
    case DoWidth(width) => c.(width := width as nat)
    case DoPayload(pipe, size) => c.(payload := c.payload[pipe := [size]])
    case DoPipe(pipe, open, autoAck) =>
      c.(open := PipesAfter(c.open, pipe, open), autoAck := PipesAfter(c.autoAck, pipe, open && autoAck))
    case DoAddress(pipe, addr) => c.(addrs := c.addrs[pipe := AddressAfter(c, pipe, addr)])
  }

  predicate AllProper(c: Config, ops: seq<Op>)
    requires Shaped(c)
    decreases |ops|
  {
    ops != [] ==> Proper(c, ops[0]) && AllProper(Model(c, ops[0]), ops[1..])
  }

  function ModelAll(c: Config, ops: seq<Op>): (c': Config)
    requires Shaped(c) && AllProper(c, ops)
    ensures Shaped(c')
    decreases |ops|
  {
    if ops == [] then c else ModelAll(Model(c, ops[0]), ops[1..])
  }

  lemma AbsShaped(r: Regs)
    ensures Shaped(Abs(r))
  {
    WidthIs(r);
  }

  method Do(chip: Chip, op: Op)
    requires Proper(Abs(chip.regs), op)
    modifies chip
    ensures Shaped(Abs(old(chip.regs))) && Abs(chip.regs) == Model(Abs(old(chip.regs)), op)
  {
    hide Abs;
    AbsShaped(chip.regs);
    match op {
      case DoSwitch(sw, on) => SetSwitch(chip, sw, on);
      case DoCrc(mode) => SetCrcMode(chip, mode);
      case DoRate(rate) => SetDatarate(chip, rate);
      case DoPower(power) => SetOutputPower(chip, power);
      case DoChannel(channel) => SetRfChannel(chip, channel);
      case DoRetr(retr, delay) => SetAutoRetr(chip, retr, delay);
      case DoWidth(width) => SetAddressWidth(chip, width);
      case DoPayload(pipe, size) => SetPayloadWidth(chip, pipe, size);
      case DoPipe(pipe, open, autoAck) => SetPipe(chip, pipe, open, autoAck);
      case DoAddress(pipe, addr) => SetAddress(chip, pipe, addr);
    }
  }

  /** Any run of setters over SPI refines the run on the abstract configuration. */
  method RunSetters(chip: Chip, ops: seq<Op>)
    requires Shaped(Abs(chip.regs)) && AllProper(Abs(chip.regs), ops)
    modifies chip
    ensures Shaped(Abs(old(chip.regs))) && Abs(chip.regs) == ModelAll(Abs(old(chip.regs)), ops)
  {
    hide Abs, Model;
    AbsShaped(chip.regs);
    ghost var c0 := Abs(chip.regs);
    assert ops[0..] == ops;
    for k := 0 to |ops|
      invariant Shaped(Abs(chip.regs)) && AllProper(Abs(chip.regs), ops[k..])
      invariant ModelAll(c0, ops) == ModelAll(Abs(chip.regs), ops[k..])
    {
      assert ops[k..][0] == ops[k] && ops[k..][1..] == ops[k + 1..];
      Do(chip, ops[k]);
    }
  }

  lemma {:induction false} ModelSplit(c: Config, xs: seq<Op>, ys: seq<Op>)
    requires Shaped(c) && AllProper(c, xs + ys)
    ensures AllProper(c, xs) && AllProper(ModelAll(c, xs), ys)
    ensures ModelAll(c, xs + ys) == ModelAll(ModelAll(c, xs), ys)
    decreases |xs|
  {
    hide Model, Shaped, Proper;
    if xs == [] {
      assert xs + ys == ys;
    } else {
      assert (xs + ys)[0] == xs[0] && (xs + ys)[1..] == xs[1..] + ys;
      ModelSplit(Model(c, xs[0]), xs[1..], ys);
    }
  }

  // ---------------------------------------------------------------- getters

  /** What the getters give back, each under its name. */
  datatype Item = SwitchItem(sw: Switch) | CrcItem | RateItem | PowerItem | ChannelItem | RetrItem | DelayItem
                | WidthItem | PayloadItem(pipe: nat) | PipeItem(pipe: nat) | AddressItem(pipe: nat)

  datatype Value = Flag(on: bool) | Mode(crc: Crc) | Number(n: nat) | Address(bytes: seq<bv8>)

  predicate Known(it: Item) {
    match it
    case PayloadItem(p) => p < PIPES
    case PipeItem(p) => p < PIPES
    case AddressItem(p) => p <= PIPE_TX
    case _ => true
  }

  /** The piece of the configuration an item is about; an address with all bytes of its register. */
  function Stored(c: Config, it: Item): Value
    requires Shaped(c) && Known(it)
  {
    match it
    case SwitchItem(sw) => Flag(SwitchOf(c, sw))
    case CrcItem => Mode(c.control.crc)
    case RateItem => Number(RateCode(c.rf) as nat)
    case PowerItem => Number(PowerOf(c.rf) as nat)
    case ChannelItem => Number(c.channel as nat)
    case RetrItem => Number(c.retr.retries as nat)
    case DelayItem => Number((c.retr.step as nat + 1) * 250)
    case WidthItem => Number(c.width)
    case PayloadItem(p) => Number(c.payload[p][0] as nat)
    case PipeItem(p) => Number(StatusOf(c, p))
    case AddressItem(p) => Address(c.addrs[p])
  }

  predicate Wide(it: Item) { it.AddressItem? && SizeOf(RX_ADDR_P0 + it.pipe) == 5 }

  /** What its getter returns: of a wide address as many bytes as addresses are wide at the time. */
  function Read(c: Config, it: Item): Value
    requires Shaped(c) && Known(it)
  {
    if Wide(it) then Address(Stored(c, it).bytes[..c.width]) else Stored(c, it)
  }

  method Get(chip: Chip, it: Item) returns (v: Value)
    requires Known(it)
    modifies chip
    ensures chip.regs == old(chip.regs)
    ensures Shaped(Abs(chip.regs)) && v == Read(Abs(chip.regs), it)
  {
    hide Abs, RateCode, PowerOf, StatusOf, SwitchOf;
    AbsShaped(chip.regs);
    match it {
      case SwitchItem(sw) => var on := GetSwitch(chip, sw); v := Flag(on);
      case CrcItem => var mode := GetCrcMode(chip); v := Mode(mode);
      case RateItem => var x := GetDatarate(chip); v := Number(x as nat);
      case PowerItem => var x := GetOutputPower(chip); v := Number(x as nat);
      case ChannelItem => var x := GetRfChannel(chip); v := Number(x as nat);
      case RetrItem => var x := GetAutoRetrCtr(chip); v := Number(x as nat);
      case DelayItem => var n := GetAutoRetrDelay(chip); v := Number(n);
      case WidthItem => var n := GetAddressWidth(chip); v := Number(n);
      case PayloadItem(p) => var x := GetPayloadWidth(chip, p); v := Number(x as nat);
      case PipeItem(p) => var n := GetPipeStatus(chip, p); v := Number(n);
      case AddressItem(p) => var bytes := GetAddress(chip, p); v := Address(bytes);
    }
  }

  // ---------------------------------------------------------------- the last setter wins

  /** Whether a setter is one for that item. */
  predicate Sets(op: Op, it: Item) {
    match op
    case DoSwitch(sw, _) => it == SwitchItem(sw)
    case DoCrc(_) => it == CrcItem
    case DoRate(_) => it == RateItem
    case DoPower(_) => it == PowerItem
    case DoChannel(_) => it == ChannelItem
    case DoRetr(_, _) => it == RetrItem || it == DelayItem
    case DoWidth(_) => it == WidthItem
    case DoPayload(p, _) => it == PayloadItem(p)
    case DoPipe(p, _, _) => it.PipeItem? && (it.pipe == p || p == PIPE_ALL)
    case DoAddress(p, _) => it == AddressItem(p)
  }

  predicate NoneSets(ops: seq<Op>, it: Item) { forall op <- ops :: !Sets(op, it) }

  lemma OtherSwitch(c: Config, sw: Switch, on: bool, sw': Switch)
    requires sw != sw'
    ensures SwitchOf(WithSwitch(c, sw, on), sw') == SwitchOf(c, sw')
  {
  }

  lemma SwitchKeepsRest(c: Config, sw: Switch, on: bool)
    ensures var c' := WithSwitch(c, sw, on);
            && c' == c.(control := c'.control, features := c'.features, rf := c'.rf)
            && c'.control.crc == c.control.crc
            && c'.rf == c.rf.(pll := c'.rf.pll, contWave := c'.rf.contWave)
  {
  }

  lemma SwitchKeepsOthers(c: Config, sw: Switch, on: bool, it: Item)
    requires Shaped(c) && Known(it) && it != SwitchItem(sw)
    ensures Shaped(WithSwitch(c, sw, on)) && Stored(WithSwitch(c, sw, on), it) == Stored(c, it)
  {
    hide SizeOf, WithSwitch, SwitchOf;
    SwitchKeepsRest(c, sw, on);
    if it.SwitchItem? {
      OtherSwitch(c, sw, on, it.sw);
    }
  }

  lemma SetterKeepsOthers(c: Config, op: Op, it: Item)
    requires Shaped(c) && Known(it) && Proper(c, op) && !Sets(op, it)
    ensures Stored(Model(c, op), it) == Stored(c, it)
  {
    hide SizeOf, StepOf, AddressAfter, WithSwitch;
    match op
    case DoSwitch(sw, on) => SwitchKeepsOthers(c, sw, on, it);
    case _ => hide SwitchOf;
  }

  /** Setters for other items leave an item alone, over any run. */
  lemma {:induction false} OthersDoNotInterfere(c: Config, ops: seq<Op>, it: Item)
    requires Shaped(c) && Known(it) && AllProper(c, ops) && NoneSets(ops, it)
    ensures Stored(ModelAll(c, ops), it) == Stored(c, it)
    decreases |ops|
  {
    if ops != [] {
      hide Stored, Model, Sets, Shaped, Proper;
      assert ops[0] in ops;
      SetterKeepsOthers(c, ops[0], it);
      OthersDoNotInterfere(Model(c, ops[0]), ops[1..], it);
    }
  }

  /** A run around one setter: what comes before it, the setter, what comes after it. */
  lemma ModelAround(c: Config, before: seq<Op>, op: Op, after: seq<Op>)
    requires Shaped(c) && AllProper(c, before + [op] + after)
    ensures AllProper(c, before) && Proper(ModelAll(c, before), op)
    ensures AllProper(Model(ModelAll(c, before), op), after)
    ensures ModelAll(c, before + [op] + after) == ModelAll(Model(ModelAll(c, before), op), after)
  {
    hide Model, Shaped, Proper;
    assert before + ([op] + after) == before + [op] + after;
    ModelSplit(c, before, [op] + after);
    assert ([op] + after)[1..] == after;
  }

  /** After any run, each piece of the configuration is what the last setter for it made it. */
  lemma LastSetterWins(c: Config, before: seq<Op>, op: Op, after: seq<Op>, it: Item)
    requires Shaped(c) && Known(it) && AllProper(c, before + [op] + after)
    requires NoneSets(after, it)
    ensures AllProper(c, before) && Proper(ModelAll(c, before), op)
    ensures Stored(ModelAll(c, before + [op] + after), it) == Stored(Model(ModelAll(c, before), op), it)
  {
    hide Stored, Model, Sets, Shaped, Proper;
    ModelAround(c, before, op, after);
    OthersDoNotInterfere(Model(ModelAll(c, before), op), after, it);
  }

  // ---------------------------------------------------------------- exactly what is read back

  /** What the caller of a setter asked for. */
  function Asked(op: Op, it: Item): Value
    requires Sets(op, it)
  {
    match op
    case DoSwitch(_, on) => Flag(on)
    case DoCrc(mode) => Mode(mode)
    case DoRate(rate) => Number(EnumOf(rate) as nat)
    case DoPower(power) => Number(power as nat)
    case DoChannel(channel) => Number(channel as nat)
    case DoRetr(retr, delay) => Number(if it == RetrItem then retr as nat else delay)
    case DoWidth(width) => Number(width as nat)
    case DoPayload(_, size) => Number(size as nat)
    case DoPipe(_, open, autoAck) => Number(if !open then 0 else if autoAck then 3 else 1)
    case DoAddress(_, addr) => Address(addr)
  }

  /** Whether a value read is the one asked for; of an address, as far as it was read. */
  predicate Agrees(v: Value, asked: Value) {
    if v.Address? && asked.Address? then v.bytes <= asked.bytes else v == asked
  }

  /** The values a register can hold and its getter returns under the same number. */
  predicate Representable(op: Op, it: Item) {
    match op
    case DoRate(rate) => rate == Rate1Mbps
    case DoChannel(channel) => channel < 128
    case DoRetr(retr, delay) =>
      if it == RetrItem then retr < 16 else delay % 250 == 0 && 250 <= delay <= 4000
    case _ => true
  }

  /** The address width a run of setters leads to. */
  function WidthAfter(w: nat, ops: seq<Op>): nat
    decreases |ops|
  {
    if ops == [] then w
    else WidthAfter(if ops[0].DoWidth? then ops[0].width as nat else w, ops[1..])
  }

  /** When setting an item under configuration `c`, with `after` done before it is read, is right: the
      value is representable, and addresses have not become wider than they were when this one was
      set, unless the bytes missing happened to be there already. */
  predicate Lasting(c: Config, op: Op, after: seq<Op>, it: Item)
    requires Shaped(c) && Known(it) && Proper(c, op) && Sets(op, it)
  {
    if Wide(it) then
      var w := WidthAfter(c.width, after);
      w <= c.width || (w <= 5 && w <= |op.addr| && c.addrs[it.pipe][c.width..w] == op.addr[c.width..w])
    else Representable(op, it)
  }

  lemma {:induction false} WidthIsLastSet(c: Config, ops: seq<Op>)
    requires Shaped(c) && AllProper(c, ops)
    ensures ModelAll(c, ops).width == WidthAfter(c.width, ops) <= 5
    decreases |ops|
  {
    if ops != [] {
      hide Shaped, SizeOf, AddressAfter, PipesAfter;
      assert ops[0] in ops;
      WidthStep(c, ops[0]);
      WidthIsLastSet(Model(c, ops[0]), ops[1..]);
    } else {
    }
  }

  lemma WidthStep(c: Config, op: Op)
    requires Shaped(c) && Proper(c, op)
    ensures Model(c, op).width == if op.DoWidth? then op.width as nat else c.width
  {
  }

  lemma RateAsAsked(rf: Rf, rate: Rate)
    requires rf.rateLow == (rate == Rate250Kbps) && rf.rateHigh == (rate == Rate2Mbps)
    ensures RateCode(rf) as nat == EnumOf(rate) as nat <==> rate == Rate1Mbps
  {
  }

  lemma PowerAsAsked(rf: Rf, power: bv8)
    requires power <= 3 && rf.pwr1 == (power & 2 != 0) && rf.pwr0 == (power & 1 != 0)
    ensures PowerOf(rf) == power
  {
  }

  lemma MaskedAsAsked(x: bv8, y: bv8)
    ensures (x & 0x7f) as nat == x as nat <==> x < 128
    ensures (y & 0x0f) as nat == y as nat <==> y < 16
  {
    assert x & 0x7f == x <==> x < 128;
    assert y & 0x0f == y <==> y < 16;
  }

  lemma DelayAsAsked(delay: u16)
    ensures ((StepOf(delay) as bv8) as nat + 1) * 250 == delay <==> delay % 250 == 0 && 250 <= delay <= 4000
  {
    var n := StepOf(delay);
    assert (n as bv8) as nat == n;
    assert (n + 1) * 250 == delay <==> delay % 250 == 0 && 250 <= delay <= 4000;
  }

  lemma PipeAsAsked(c: Config, pipe: nat, open: bool, autoAck: bool, p: nat)
    requires Shaped(c) && p < PIPES && (p == pipe || pipe == PIPE_ALL)
    ensures StatusOf(Model(c, DoPipe(pipe, open, autoAck)), p) == if !open then 0 else if autoAck then 3 else 1
  {
    hide SizeOf;
  }

  lemma SwitchAsAsked(c: Config, sw: Switch, on: bool)
    ensures SwitchOf(WithSwitch(c, sw, on), sw) == on
  {
  }

  predicate AsAsked(c: Config, op: Op, it: Item)
    requires Shaped(c) && Known(it) && Proper(c, op) && Sets(op, it) && !it.AddressItem?
  {
    Stored(Model(c, op), it) == Asked(op, it) <==> Representable(op, it)
  }

  lemma RfAsAsked(c: Config, op: Op, it: Item)
    requires Shaped(c) && Known(it) && Proper(c, op) && Sets(op, it) && (op.DoRate? || op.DoPower?)
    ensures AsAsked(c, op, it)
  {
    hide SizeOf, RateCode, PowerOf, EnumOf;
    if op.DoRate? {
      RateAsAsked(Model(c, op).rf, op.rate);
    } else {
      PowerAsAsked(Model(c, op).rf, op.power);
    }
  }

  lemma ChannelAsAsked(c: Config, channel: bv8)
    requires Shaped(c)
    ensures AsAsked(c, DoChannel(channel), ChannelItem)
  {
    MaskedAsAsked(channel, 0);
  }

  lemma RetrAsAsked(c: Config, retr: bv8, delay: u16)
    requires Shaped(c)
    ensures AsAsked(c, DoRetr(retr, delay), RetrItem) && AsAsked(c, DoRetr(retr, delay), DelayItem)
  {
    assert AsAsked(c, DoRetr(retr, delay), RetrItem) by {
      hide StepOf;
      MaskedAsAsked(0, retr);
    }
    assert AsAsked(c, DoRetr(retr, delay), DelayItem) by {
      hide StepOf;
      DelayAsAsked(delay);
    }
  }

  lemma PlainAsAsked(c: Config, op: Op, it: Item)
    requires Shaped(c) && Known(it) && Proper(c, op) && Sets(op, it)
    requires op.DoSwitch? || op.DoCrc? || op.DoWidth? || op.DoPayload? || op.DoPipe?
    ensures AsAsked(c, op, it)
  {
    hide SizeOf, SwitchOf, WithSwitch, PipesAfter, StatusOf;
    match op
    case DoSwitch(sw, on) => SwitchAsAsked(c, sw, on);
    case DoPipe(pipe, open, autoAck) => PipeAsAsked(c, pipe, open, autoAck, it.pipe);
    case _ =>
  }

  lemma StoredAsAsked(c: Config, op: Op, it: Item)
    requires Shaped(c) && Known(it) && Proper(c, op) && Sets(op, it) && !it.AddressItem?
    ensures AsAsked(c, op, it)
  {
    hide AsAsked;
    match op
    case DoRate(_) => RfAsAsked(c, op, it);
    case DoPower(_) => RfAsAsked(c, op, it);
    case DoChannel(channel) => ChannelAsAsked(c, channel);
    case DoRetr(retr, delay) => RetrAsAsked(c, retr, delay);
    case DoAddress(_, _) =>
    case _ => PlainAsAsked(c, op, it);
  }

  /** An address of pipe `p` as it is read once addresses are `w` bytes wide. */
  lemma AddressAsAsked(c: Config, addr: seq<bv8>, p: nat, w: nat)
    requires Shaped(c) && p <= PIPE_TX && |addr| >= AddressLen(c, p) && w <= 5
    ensures |AddressAfter(c, p, addr)| == SizeOf(RX_ADDR_P0 + p)
    ensures SizeOf(RX_ADDR_P0 + p) == 1 ==> AddressAfter(c, p, addr) <= addr
    ensures SizeOf(RX_ADDR_P0 + p) == 5 ==>
      (AddressAfter(c, p, addr)[..w] <= addr <==>
        w <= c.width || (w <= |addr| && c.addrs[p][c.width..w] == addr[c.width..w]))
  {
    var n, was := c.width, c.addrs[p];
    if SizeOf(RX_ADDR_P0 + p) == 5 {
      var a := addr[..n] + was[n..];
      if w <= n {
        assert a[..w] == addr[..w];
      } else if w <= |addr| {
        assert a[..w] == addr[..n] + was[n..w] && addr[..w] == addr[..n] + addr[n..w];
        assert a[..w][n..] == was[n..w] && addr[..w][n..] == addr[n..w];
        assert a[..w] <= addr <==> a[..w] == addr[..w];
      }
    }
  }

  lemma AddressStored(c: Config, op: Op, it: Item)
    requires Shaped(c) && Known(it) && Proper(c, op) && Sets(op, it) && it.AddressItem?
    ensures op.DoAddress? && op.pipe == it.pipe
    ensures Stored(Model(c, op), it) == Address(AddressAfter(c, it.pipe, op.addr))
  {
    hide SizeOf, AddressAfter;
  }

  /** After any run of setters a getter gives back what the last setter for its item was asked for, if
      and only if that was `Lasting`. */
  lemma ReadBackIffLasting(c: Config, before: seq<Op>, op: Op, after: seq<Op>, it: Item)
    requires Shaped(c) && Known(it) && AllProper(c, before + [op] + after)
    requires Sets(op, it) && NoneSets(after, it)
    ensures AllProper(c, before) && Proper(ModelAll(c, before), op)
    ensures Agrees(Read(ModelAll(c, before + [op] + after), it), Asked(op, it))
       <==> Lasting(ModelAll(c, before), op, after, it)
  {
    hide Model, AddressAfter, ModelAll, RateCode, PowerOf, StatusOf, SwitchOf, EnumOf, StepOf, AllProper;
    ModelAround(c, before, op, after);
    var c1 := ModelAll(c, before);
    var c2 := Model(c1, op);
    LastSetterWins(c, before, op, after, it);
    WidthIsLastSet(c2, after);
    WidthStep(c1, op);
    if it.AddressItem? {
      AddressStored(c1, op, it);
      AddressAsAsked(c1, op.addr, it.pipe, ModelAll(c2, after).width);
    } else {
      StoredAsAsked(c1, op, it);
    }
  }

  /** The same over SPI: setters, then the getter. */
  method SetAndGet(chip: Chip, before: seq<Op>, op: Op, after: seq<Op>, it: Item) returns (v: Value)
    requires Shaped(Abs(chip.regs)) && AllProper(Abs(chip.regs), before + [op] + after)
    requires Known(it) && Sets(op, it) && NoneSets(after, it)
    modifies chip
    ensures Shaped(Abs(old(chip.regs))) && AllProper(Abs(old(chip.regs)), before)
    ensures Proper(ModelAll(Abs(old(chip.regs)), before), op)
    ensures Agrees(v, Asked(op, it)) <==> Lasting(ModelAll(Abs(old(chip.regs)), before), op, after, it)
  {
    hide Abs, Sets, NoneSets, Lasting, Agrees, Asked, ModelAll, Read, AllProper, Proper, Shaped;
    ReadBackIffLasting(Abs(chip.regs), before, op, after, it);
    RunSetters(chip, before + [op] + after);
    v := Get(chip, it);
  }

  lemma ModelThree(c: Config, x: Op, y: Op, z: Op)
    requires Shaped(c) && Proper(c, x) && Proper(Model(c, x), y) && Proper(Model(Model(c, x), y), z)
    ensures AllProper(c, [x, y, z]) && ModelAll(c, [x, y, z]) == Model(Model(Model(c, x), y), z)
  {
    hide Model, Shaped, Proper;
    assert [x, y, z][1..] == [y, z] && [y, z][1..] == [z] && [z][1..] == [];
    var c1 := Model(c, x);
    var c2 := Model(c1, y);
    assert AllProper(c2, [z]) && ModelAll(c2, [z]) == Model(c2, z);
    assert AllProper(c1, [y, z]) && ModelAll(c1, [y, z]) == Model(c2, z);
  }

  lemma ThreeBytesWritten(c: Config, addr: seq<bv8>)
    requires Shaped(c) && c.width == 3 && c.addrs[0] == [9, 9, 9, 9, 9] && addr == [1, 2, 3, 4, 5]
    ensures Model(c, DoAddress(0, addr)).addrs[0] == [1, 2, 3, 9, 9]
  {
    assert addr[..3] + c.addrs[0][3..] == [1, 2, 3, 9, 9];
  }

  lemma WidthOnly(c: Config, width: bv8)
    requires Shaped(c) && 3 <= width <= 5
    ensures Model(c, DoWidth(width)) == c.(width := width as nat)
  {
  }

  /** An address set while addresses are three bytes wide is not read back once they are wider: the
      bytes behind come from an earlier address. */
  lemma WidthRaisedExample(c: Config)
    requires Shaped(c) && c.addrs[0] == [9, 9, 9, 9, 9]
    ensures var ops := [DoWidth(3), DoAddress(0, [1, 2, 3, 4, 5]), DoWidth(5)];
            AllProper(c, ops) && Read(ModelAll(c, ops), AddressItem(0)) == Address([1, 2, 3, 9, 9])
  {
    hide Model, ModelAll, Shaped;
    var addr: seq<bv8> := [1, 2, 3, 4, 5];
    WidthOnly(c, 3);
    var c1 := Model(c, DoWidth(3));
    assert AddressLen(c1, 0) <= 5;
    ModelThree(c, DoWidth(3), DoAddress(0, addr), DoWidth(5));
    ThreeBytesWritten(c1, addr);
    WidthOnly(Model(c1, DoAddress(0, addr)), 5);
  }

  // ---------------------------------------------------------------- the pipe status

  /** A run opens or closes a pipe, on its own or with all others. */
  predicate Covered(ops: seq<Op>, pipe: nat) {
    exists op <- ops :: op.DoPipe? && (op.pipe == pipe || op.pipe == PIPE_ALL)
  }

  predicate Documented(c: Config, pipe: nat)
    requires Shaped(c) && pipe < PIPES
  {
    StatusOf(c, pipe) in {0, 1, 3}
  }

  lemma DocumentedStep(c: Config, op: Op, pipe: nat)
    requires Shaped(c) && Proper(c, op) && pipe < PIPES
    ensures Documented(Model(c, op), pipe) <==> Documented(c, pipe) || Covered([op], pipe)
  {
    hide SizeOf;
    if op.DoPipe? && (op.pipe == pipe || op.pipe == PIPE_ALL) {
      PipeAsAsked(c, op.pipe, op.open, op.autoAck, pipe);
      assert op in [op];
    } else {
      SetterKeepsOthers(c, op, PipeItem(pipe));
      hide Model, StatusOf;
      assert Stored(Model(c, op), PipeItem(pipe)) == Stored(c, PipeItem(pipe));
    }
  }

  /** The pipe status read after any run of setters is one of the three documented values if and only if
      it was before, or the run opens or closes the pipe. */
  lemma {:induction false} StatusDocumentedIff(c: Config, ops: seq<Op>, pipe: nat)
    requires Shaped(c) && AllProper(c, ops) && pipe < PIPES
    ensures Documented(ModelAll(c, ops), pipe) <==> (c.autoAck[pipe] ==> c.open[pipe]) || Covered(ops, pipe)
    decreases |ops|
  {
    if ops != [] {
      hide Model, Covered;
      assert ops[0] in ops;
      var c1 := Model(c, ops[0]);
      DocumentedStep(c, ops[0], pipe);
      StatusDocumentedIff(c1, ops[1..], pipe);
      CoveredFirst(ops, pipe);
    } else {
      assert !Covered([], pipe);
    }
  }

  lemma CoveredFirst(ops: seq<Op>, pipe: nat)
    requires ops != []
    ensures Covered(ops, pipe) <==> Covered([ops[0]], pipe) || Covered(ops[1..], pipe)
  {
    assert ops == [ops[0]] + ops[1..];
  }
}
