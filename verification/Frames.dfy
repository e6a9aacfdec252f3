/** The three nested frame layers spoken on the connector socket: netlink frames, connector
    messages and w1 messages, as values, with their encoders and their parsers.
    The parsers make the same decisions, in the same order, as the walking macros of the source. */
module Frames {
  import opened Bytes

  type Blob = d: seq<byte> | |d| < 0x1_0000 witness []
  type Id8 = d: seq<byte> | |d| == 8 witness [0, 0, 0, 0, 0, 0, 0, 0]

  // ---------------------------------------------------------------- netlink frames

  const NLMSG_HDRLEN := 16
  const NLMSG_NOOP := 1
  const NLMSG_ERROR := 2
  const NLMSG_DONE := 3

  function Align4(n: nat): (a: nat)
    ensures a % 4 == 0 && n <= a < n + 4
  {
    (n + 3) / 4 * 4
  }

  datatype Errc = Success | NoResp | CommErr | ProtoErr | BadMsg | MsgSize | Empty | InvArg | NoSpace

  /** What the netlink pass does with one datagram: it yields the concatenated payloads, it
      fails, or it never gets past a frame (see `StuckForeverIffNoop`). */
  datatype Stripped = Payload(bytes: seq<byte>) | Failed(err: Errc) | Stuck

  datatype NlFrame = NlFrame(typ: u16, flags: u16, sq: u32, pid: u32, payload: seq<byte>)

  predicate MultiFlag(flags: u16) { flags / 2 % 2 == 1 }

  /** NLMSG_OK on the unread rest of the datagram. */
  predicate NlOk(d: seq<byte>) {
    |d| >= NLMSG_HDRLEN && NLMSG_HDRLEN <= U32At(d, 0) <= |d|
  }

  /** What NLMSG_ALIGN leaves unread behind the frame at the front. */
  function NlRest(d: seq<byte>): (r: seq<byte>)
    requires NlOk(d)
    ensures |r| < |d|
  {
    var a := Align4(U32At(d, 0));
    if a <= |d| then d[a..] else []
  }

  function Prepend(front: seq<byte>, s: Stripped): Stripped {
    if s.Payload? then Payload(front + s.bytes) else s
  }

  function StripNl(d: seq<byte>): (s: Stripped)
    ensures s.Failed? ==> s.err == ProtoErr || s.err == BadMsg
    decreases |d|
  {
    if !NlOk(d) then Payload([])
    else
      var typ, flags := U16At(d, 4), U16At(d, 6);
      if typ == NLMSG_NOOP then Stuck
      else if typ == NLMSG_ERROR then Failed(ProtoErr)
      else if typ == NLMSG_DONE then Payload(d[NLMSG_HDRLEN..U32At(d, 0)])
      else if MultiFlag(flags) then Prepend(d[NLMSG_HDRLEN..U32At(d, 0)], StripNl(NlRest(d)))
      else Failed(BadMsg)
  }

  // ---------------------------------------------------------------- connector messages

  const CN_HDRLEN := 20
  const CN_W1_IDX := 3
  const CN_W1_VAL := 1

  datatype CnMsg = CnMsg(idx: u32, val: u32, sq: u32, ack: u32, flags: u16, data: Blob)

  /** __CNMSG_OK. The length field is looked at only when a whole header is left; with less
      than that the C test is false whatever the length field holds. */
  predicate CnOk(d: seq<byte>) {
    |d| >= CN_HDRLEN && |d| >= CN_HDRLEN + U16At(d, 16)
  }

  function CnAt(d: seq<byte>): CnMsg
    requires CnOk(d)
  {
    CnMsg(U32At(d, 0), U32At(d, 4), U32At(d, 8), U32At(d, 12), U16At(d, 18),
          d[CN_HDRLEN..CN_HDRLEN + U16At(d, 16)])
  }

  function ParseCn(d: seq<byte>): seq<CnMsg> {
    if !CnOk(d) then [] else [CnAt(d)] + ParseCn(d[CN_HDRLEN + U16At(d, 16)..])
  }

  /** The connector filter: right subsystem, right sequence number, some data. */
  predicate Kept(m: CnMsg, sq: u32) {
    m.idx == CN_W1_IDX && m.val == CN_W1_VAL && m.sq == sq && |m.data| > 0
  }

  // ---------------------------------------------------------------- w1 messages

  const W1_HDRLEN := 12
  const W1_MASTER_CMD := 4
  const W1_SLAVE_CMD := 5
  const W1_LIST_MASTERS := 6
  const ACK_STAT_VAL := 0xffff_ffff

  datatype W1Msg = W1Msg(typ: byte, status: byte, id: Id8, data: Blob)

  predicate W1Ok(d: seq<byte>) {
    |d| >= W1_HDRLEN && |d| >= W1_HDRLEN + U16At(d, 2)
  }

  function W1At(d: seq<byte>): W1Msg
    requires W1Ok(d)
  {
    W1Msg(d[0], d[1], d[4..W1_HDRLEN], d[W1_HDRLEN..W1_HDRLEN + U16At(d, 2)])
  }

  /** The w1 messages of one connector message, one after the other. */
  function ParseW1(d: seq<byte>): seq<W1Msg> {
    if !W1Ok(d) then [] else [W1At(d)] + ParseW1(d[W1_HDRLEN + U16At(d, 2)..])
  }

  /** A w1 message as the receive path hands it on, with the ack of its connector message. */
  datatype Delivery = Delivery(ack: u32, msg: W1Msg)

  /** Whether a w1 message answers the request: same type, and the same id where ids count. */
  predicate Answers(req: W1Msg, m: W1Msg) {
    && m.typ == req.typ
    && (req.typ == W1_MASTER_CMD ==> m.id[..4] == req.id[..4])
    && (req.typ == W1_SLAVE_CMD ==> m.id == req.id)
  }

  // ---------------------------------------------------------------- w1 commands

  const CMD_HDRLEN := 4

  datatype W1Cmd = W1Cmd(code: byte, res: byte, data: Blob)

  /** W1CMD_OK. */
  predicate CmdOk(d: seq<byte>) {
    |d| >= CMD_HDRLEN && |d| >= CMD_HDRLEN + U16At(d, 2)
  }

  function CmdAt(d: seq<byte>): W1Cmd
    requires CmdOk(d)
  {
    W1Cmd(d[0], d[1], d[CMD_HDRLEN..CMD_HDRLEN + U16At(d, 2)])
  }

  /** Walking a w1 message's data with W1CMD_OK and W1CMD_NEXT. */
  function ParseCmds(d: seq<byte>): seq<W1Cmd> {
    if !CmdOk(d) then [] else [CmdAt(d)] + ParseCmds(d[CMD_HDRLEN + U16At(d, 2)..])
  }

  /** The bytes such a walk leaves behind. */
  function Leftover(d: seq<byte>): seq<byte> {
    if !CmdOk(d) then d else Leftover(d[CMD_HDRLEN + U16At(d, 2)..])
  }

  // ---------------------------------------------------------------- encoders

  predicate Fits(f: NlFrame) { NLMSG_HDRLEN + |f.payload| < 0x1_0000_0000 }

  function NlHeader(len: u32, typ: u16, flags: u16, sq: u32, pid: u32): (h: seq<byte>)
    ensures |h| == NLMSG_HDRLEN
  {
    Le32(len) + Le16(typ) + Le16(flags) + Le32(sq) + Le32(pid)
  }

  function EncNl(f: NlFrame): seq<byte>
    requires Fits(f)
  {
    NlHeader(NLMSG_HDRLEN + |f.payload|, f.typ, f.flags, f.sq, f.pid)
    + f.payload + Zeros(Align4(|f.payload|) - |f.payload|)
  }

  function EncNls(fs: seq<NlFrame>): seq<byte>
    requires forall f <- fs :: Fits(f)
  {
    if fs == [] then [] else EncNl(fs[0]) + EncNls(fs[1..])
  }

  function Payloads(fs: seq<NlFrame>): seq<byte> {
    if fs == [] then [] else fs[0].payload + Payloads(fs[1..])
  }

  /** A datagram the receiver accepts: multi-part frames closed by one "done" frame. */
  predicate Chain(fs: seq<NlFrame>) {
    && |fs| > 0
    && (forall f <- fs :: Fits(f))
    && fs[|fs| - 1].typ == NLMSG_DONE
    && forall i :: 0 <= i < |fs| - 1 ==> Part(fs[i])
  }

  /** A frame of a multi-part message with more to come. */
  predicate Part(f: NlFrame) {
    f.typ !in {NLMSG_NOOP, NLMSG_ERROR, NLMSG_DONE} && MultiFlag(f.flags)
  }

  function CnHeader(idx: u32, val: u32, sq: u32, ack: u32, len: u16, flags: u16): (h: seq<byte>)
    ensures |h| == CN_HDRLEN
  {
    Le32(idx) + Le32(val) + Le32(sq) + Le32(ack) + Le16(len) + Le16(flags)
  }

  function EncCn(m: CnMsg): seq<byte> {
    CnHeader(m.idx, m.val, m.sq, m.ack, |m.data|, m.flags) + m.data
  }

  function EncCns(ms: seq<CnMsg>): seq<byte> {
    if ms == [] then [] else EncCn(ms[0]) + EncCns(ms[1..])
  }

  function EncW1(m: W1Msg): (b: seq<byte>)
    ensures |b| == W1_HDRLEN + |m.data|
  {
    [m.typ, m.status] + Le16(|m.data|) + m.id + m.data
  }

  function EncCmd(c: W1Cmd): (b: seq<byte>)
    ensures |b| == CMD_HDRLEN + |c.data|
  {
    [c.code, c.res] + Le16(|c.data|) + c.data
  }

  function EncCmds(cs: seq<W1Cmd>): seq<byte> {
    if cs == [] then [] else EncCmd(cs[0]) + EncCmds(cs[1..])
  }

  // ---------------------------------------------------------------- round trips

  lemma FieldsOf(d: seq<byte>, i: nat)
    ensures i + 2 <= |d| ==> U16At(d, i) == U16At(d[i..i + 2], 0)
    ensures i + 4 <= |d| ==> U32At(d, i) == U32At(d[i..i + 4], 0)
  {
  }

  lemma CmdHead(c: W1Cmd, rest: seq<byte>)
    ensures var d := EncCmd(c) + rest;
            CmdOk(d) && CmdAt(d) == c && d[CMD_HDRLEN + U16At(d, 2)..] == rest
  {
    var d := EncCmd(c) + rest;
    FieldsOf(d, 2);
    assert d[2..4] == Le16(|c.data|);
    assert d[CMD_HDRLEN..CMD_HDRLEN + |c.data|] == c.data;
  }

  lemma CmdStep(c: W1Cmd, rest: seq<byte>)
    ensures ParseCmds(EncCmd(c) + rest) == [c] + ParseCmds(rest)
    ensures Leftover(EncCmd(c) + rest) == Leftover(rest)
  {
    CmdHead(c, rest);
  }

  /** Walking an encoded command list gives the list back and consumes it exactly. */
  lemma {:induction false} CmdsRoundTrip(cs: seq<W1Cmd>)
    ensures ParseCmds(EncCmds(cs)) == cs
    ensures Leftover(EncCmds(cs)) == []
  {
    if cs == [] {
    } else {
      hide EncCmd, ParseCmds, Leftover;
      CmdStep(cs[0], EncCmds(cs[1..]));
      CmdsRoundTrip(cs[1..]);
      assert cs == [cs[0]] + cs[1..];
    }
  }

  /** Conversely, any data is the encoding of what the walk reads, followed by what it leaves. */
  lemma {:induction false} WalkAccountsForEveryByte(d: seq<byte>)
    ensures EncCmds(ParseCmds(d)) + Leftover(d) == d
    ensures !CmdOk(Leftover(d))
    decreases |d|
  {
    if CmdOk(d) {
      var n := CMD_HDRLEN + U16At(d, 2);
      WalkAccountsForEveryByte(d[n..]);
      HeadBytes(d);
      EncCmdsCons(CmdAt(d), ParseCmds(d[n..]));
      assert d[..n] + (EncCmds(ParseCmds(d[n..])) + Leftover(d[n..])) == d;
    } else {
    }
  }

  lemma HeadBytes(d: seq<byte>)
    requires CmdOk(d)
    ensures EncCmd(CmdAt(d)) == d[..CMD_HDRLEN + U16At(d, 2)]
  {
    U16Le(d, 2);
    assert [d[0], d[1]] + d[2..4] + d[4..CMD_HDRLEN + U16At(d, 2)] == d[..CMD_HDRLEN + U16At(d, 2)];
  }

  lemma EncCmdsCons(c: W1Cmd, cs: seq<W1Cmd>)
    ensures EncCmds([c] + cs) == EncCmd(c) + EncCmds(cs)
  {
    assert ([c] + cs)[1..] == cs;
  }

  lemma W1Head(m: W1Msg, rest: seq<byte>)
    ensures var d := EncW1(m) + rest;
            W1Ok(d) && W1At(d) == m && d[W1_HDRLEN + U16At(d, 2)..] == rest
  {
    var d := EncW1(m) + rest;
    FieldsOf(d, 2);
    assert d[2..4] == Le16(|m.data|);
    assert d[4..W1_HDRLEN] == m.id;
    assert d[W1_HDRLEN..W1_HDRLEN + |m.data|] == m.data;
  }

  lemma W1RoundTrip(m: W1Msg)
    ensures ParseW1(EncW1(m)) == [m]
  {
    W1Head(m, []);
    assert EncW1(m) + [] == EncW1(m);
  }

  /** Fields are read from the front part of the bytes they lie in. */
  lemma FieldsInFront(d: seq<byte>, h: seq<byte>, i: nat)
    requires |h| <= |d| && d[..|h|] == h
    ensures i + 2 <= |h| ==> U16At(d, i) == U16At(h, i)
    ensures i + 4 <= |h| ==> U32At(d, i) == U32At(h, i)
  {
    assert forall k :: 0 <= k < |h| ==> d[k] == h[k];
  }

  lemma CnHeaderFields(idx: u32, val: u32, sq: u32, ack: u32, len: u16, flags: u16)
    ensures var h := CnHeader(idx, val, sq, ack, len, flags);
            && U32At(h, 0) == idx && U32At(h, 4) == val && U32At(h, 8) == sq && U32At(h, 12) == ack
            && U16At(h, 16) == len && U16At(h, 18) == flags
  {
    hide Le32, Le16, U32At, U16At;
    var h := CnHeader(idx, val, sq, ack, len, flags);
    assert h[0..4] == Le32(idx) && h[4..8] == Le32(val) && h[8..12] == Le32(sq) && h[12..16] == Le32(ack);
    assert h[16..18] == Le16(len) && h[18..20] == Le16(flags);
    FieldsOf(h, 0);
    FieldsOf(h, 4);
    FieldsOf(h, 8);
    FieldsOf(h, 12);
    FieldsOf(h, 16);
    FieldsOf(h, 18);
  }

  lemma CnHead(m: CnMsg, rest: seq<byte>)
    ensures var d := EncCn(m) + rest;
            CnOk(d) && CnAt(d) == m && d[CN_HDRLEN + U16At(d, 16)..] == rest
  {
    hide CnHeader, U32At, U16At;
    var h := CnHeader(m.idx, m.val, m.sq, m.ack, |m.data|, m.flags);
    var d := EncCn(m) + rest;
    assert d == h + m.data + rest && d[..CN_HDRLEN] == h;
    CnHeaderFields(m.idx, m.val, m.sq, m.ack, |m.data|, m.flags);
    FieldsInFront(d, h, 0);
    FieldsInFront(d, h, 4);
    FieldsInFront(d, h, 8);
    FieldsInFront(d, h, 12);
    FieldsInFront(d, h, 16);
    FieldsInFront(d, h, 18);
    assert d[CN_HDRLEN..CN_HDRLEN + |m.data|] == m.data;
    assert d[CN_HDRLEN + |m.data|..] == rest;
  }

  lemma NoCnMessage()
    ensures !CnOk([])
  {
  }

  lemma {:induction false} CnsRoundTrip(ms: seq<CnMsg>)
    ensures ParseCn(EncCns(ms)) == ms
  {
    hide EncCn, CnAt, CnOk, U16At;
    if ms == [] {
      NoCnMessage();
    } else {
      CnHead(ms[0], EncCns(ms[1..]));
      CnsRoundTrip(ms[1..]);
    }
  }

  lemma AlignPadded(n: nat)
    ensures NLMSG_HDRLEN + n + (Align4(n) - n) == Align4(NLMSG_HDRLEN + n)
  {
  }

  lemma NlHeaderFields(len: u32, typ: u16, flags: u16, sq: u32, pid: u32)
    ensures var h := NlHeader(len, typ, flags, sq, pid);
            U32At(h, 0) == len && U16At(h, 4) == typ && U16At(h, 6) == flags
  {
    hide Le32, Le16, U32At, U16At;
    var h := NlHeader(len, typ, flags, sq, pid);
    assert h[0..4] == Le32(len) && h[4..6] == Le16(typ) && h[6..8] == Le16(flags);
    FieldsOf(h, 0);
    FieldsOf(h, 4);
    FieldsOf(h, 6);
  }

  lemma NlHead(f: NlFrame, rest: seq<byte>)
    requires Fits(f)
    ensures var d := EncNl(f) + rest;
            && NlOk(d) && U16At(d, 4) == f.typ && U16At(d, 6) == f.flags
            && d[NLMSG_HDRLEN..U32At(d, 0)] == f.payload && NlRest(d) == rest
  {
    hide NlHeader, U32At, U16At, Zeros, Align4;
    var len, pad := NLMSG_HDRLEN + |f.payload|, Zeros(Align4(|f.payload|) - |f.payload|);
    var h := NlHeader(len, f.typ, f.flags, f.sq, f.pid);
    var d := EncNl(f) + rest;
    assert d == h + f.payload + pad + rest && d[..NLMSG_HDRLEN] == h;
    NlHeaderFields(len, f.typ, f.flags, f.sq, f.pid);
    FieldsInFront(d, h, 0);
    FieldsInFront(d, h, 4);
    FieldsInFront(d, h, 6);
    AlignPadded(|f.payload|);
    assert d[NLMSG_HDRLEN..len] == f.payload;
    assert d[Align4(len)..] == rest;
  }

  /** However the payload is spread over the frames of a chain, stripping gives it back whole. */
  lemma {:induction false} ChainRoundTrip(fs: seq<NlFrame>)
    requires Chain(fs)
    ensures StripNl(EncNls(fs)) == Payload(Payloads(fs))
  {
    hide EncNl, U16At, U32At, NlRest, NlOk;
    NlHead(fs[0], EncNls(fs[1..]));
    if |fs| == 1 {
      assert fs[1..] == [];
      assert Payloads(fs) == fs[0].payload;
    } else {
      ChainRoundTrip(fs[1..]);
    }
  }

  // ---------------------------------------------------------------- frames that stop the walk

  /** One turn of the netlink loop: it ends, or it goes on with an unread rest. */
  datatype Turn = Reading(rest: seq<byte>) | Left

  function NlTurn(t: Turn): Turn {
    match t
    case Left => Left
    case Reading(d) =>
      if !NlOk(d) then Left
      else if U16At(d, 4) == NLMSG_NOOP then Reading(d)
      else if U16At(d, 4) == NLMSG_ERROR || U16At(d, 4) == NLMSG_DONE then Left
      else if MultiFlag(U16At(d, 6)) then Reading(NlRest(d))
      else Left
  }

  function NlTurns(t: Turn, n: nat): Turn
    decreases n
  {
    if n == 0 then t else NlTurns(NlTurn(t), n - 1)
  }

  lemma {:induction false} NoopKeepsTurning(d: seq<byte>, n: nat)
    requires StripNl(d) == Stuck
    ensures NlTurns(Reading(d), n).Reading?
    decreases n
  {
    if n > 0 {
      if U16At(d, 4) == NLMSG_NOOP {
        NoopKeepsTurning(d, n - 1);
      } else {
        NoopKeepsTurning(NlRest(d), n - 1);
      }
    }
  }

  lemma {:induction false} LeftStays(n: nat)
    ensures NlTurns(Left, n) == Left
  {
    if n > 0 {
      LeftStays(n - 1);
    }
  }

  lemma {:induction false} OthersLeave(d: seq<byte>)
    requires StripNl(d) != Stuck
    ensures NlTurns(Reading(d), |d| + 1) == Left
    decreases |d|
  {
    if NlTurn(Reading(d)) == Left {
      LeftStays(|d|);
    } else {
      var r := NlRest(d);
      OthersLeave(r);
      TurnsAdd(Reading(r), |r| + 1, |d| - |r| - 1);
      LeftStays(|d| - |r| - 1);
    }
  }

  lemma {:induction false} TurnsAdd(t: Turn, m: nat, n: nat)
    ensures NlTurns(t, m + n) == NlTurns(NlTurns(t, m), n)
    decreases m
  {
    if m > 0 {
      TurnsAdd(NlTurn(t), m - 1, n);
    }
  }

  /** The netlink loop turns forever exactly on the datagrams the parser calls stuck: the source
      goes on at a NOOP frame without moving its frame pointer. */
  lemma StuckForeverIffNoop(d: seq<byte>)
    ensures StripNl(d) == Stuck <==> forall n: nat :: NlTurns(Reading(d), n).Reading?
  {
    if StripNl(d) == Stuck {
      forall n: nat ensures NlTurns(Reading(d), n).Reading? {
        NoopKeepsTurning(d, n);
      }
    } else {
      OthersLeave(d);
      assert !NlTurns(Reading(d), |d| + 1).Reading?;
    }
  }

  /** A NOOP frame with nothing but parts of a multi-part message in front of it. */
  predicate NoopReached(fs: seq<NlFrame>) {
    exists k :: 0 <= k < |fs| && NoopAt(fs, k)
  }

  predicate NoopAt(fs: seq<NlFrame>, k: nat)
    requires k < |fs|
  {
    fs[k].typ == NLMSG_NOOP && forall i :: 0 <= i < k ==> Part(fs[i])
  }

  lemma NoopReachedHead(fs: seq<NlFrame>)
    requires fs != []
    ensures NoopReached(fs) <==> fs[0].typ == NLMSG_NOOP || (Part(fs[0]) && NoopReached(fs[1..]))
  {
    if fs[0].typ == NLMSG_NOOP {
      assert NoopAt(fs, 0);
    } else {
      if NoopReached(fs) {
        var k: nat :| k < |fs| && NoopAt(fs, k);
        assert NoopAt(fs[1..], k - 1);
      }
      if Part(fs[0]) && NoopReached(fs[1..]) {
        var k: nat :| k < |fs| - 1 && NoopAt(fs[1..], k);
        NoopBehind(fs, k);
      }
    }
  }

  lemma NoopBehind(fs: seq<NlFrame>, k: nat)
    requires k < |fs| - 1 && Part(fs[0]) && NoopAt(fs[1..], k)
    ensures NoopAt(fs, k + 1)
  {
    forall i | 0 <= i < k + 1 ensures Part(fs[i]) {
      assert i == 0 || fs[i] == fs[1..][i - 1];
    }
  }

  lemma {:induction false} StuckIffNoopReached(fs: seq<NlFrame>)
    requires forall f <- fs :: Fits(f)
    ensures StripNl(EncNls(fs)) == Stuck <==> NoopReached(fs)
    decreases |fs|
  {
    if fs != [] {
      hide NoopReached, EncNl;
      NlHead(fs[0], EncNls(fs[1..]));
      NoopReachedHead(fs);
      StuckIffNoopReached(fs[1..]);
    }
  }

  /** Sent any frames, the netlink loop turns forever if and only if a NOOP frame is reached. */
  lemma TurnsForeverIffNoopReached(fs: seq<NlFrame>)
    requires forall f <- fs :: Fits(f)
    ensures (forall n: nat :: NlTurns(Reading(EncNls(fs)), n).Reading?) <==> NoopReached(fs)
  {
    StuckIffNoopReached(fs);
    StuckForeverIffNoop(EncNls(fs));
  }

  /** One bare NOOP header is enough. */
  lemma NoopExample(n: nat)
    ensures NlTurns(Reading(EncNl(NlFrame(NLMSG_NOOP, 0, 0, 0, []))), n).Reading?
  {
    var f := NlFrame(NLMSG_NOOP, 0, 0, 0, []);
    assert NoopAt([f], 0);
    StuckIffNoopReached([f]);
    assert [f][1..] == [];
    assert EncNl(f) + [] == EncNl(f) == EncNls([f]);
    NoopKeepsTurning(EncNl(f), n);
  }

  // ---------------------------------------------------------------- the layout, byte by byte

  /** `k` bytes of a number, the lowest first. */
  function LowFirst(n: nat, k: nat): (b: seq<byte>)
    ensures |b| == k
    decreases k
  {
    if k == 0 then [] else [n % 256] + LowFirst(n / 256, k - 1)
  }

  lemma LowFirst2(n: u16)
    ensures Le16(n) == LowFirst(n, 2)
  {
    assert LowFirst(n / 256 / 256, 0) == [];
    assert LowFirst(n / 256, 1) == [n / 256 % 256];
  }

  lemma LowFirst4(n: u32)
    ensures Le32(n) == LowFirst(n, 4)
  {
    LowFirst2(n % 0x1_0000);
    LowFirst2(n / 0x1_0000);
    var a := n / 256;
    assert LowFirst(n, 4) == [n % 256] + LowFirst(a, 3);
    assert LowFirst(a, 3) == [a % 256] + LowFirst(a / 256, 2);
    assert a / 256 == n / 0x1_0000;
    assert Le16(n % 0x1_0000) == [n % 256, a % 256];
  }

  /** A netlink header, field by field. */
  lemma NlHeaderOnWire(len: u32, typ: u16, flags: u16, sq: u32, pid: u32)
    ensures NlHeader(len, typ, flags, sq, pid)
         == LowFirst(len, 4) + LowFirst(typ, 2) + LowFirst(flags, 2) + LowFirst(sq, 4) + LowFirst(pid, 4)
  {
    assert NlHeader(len, typ, flags, sq, pid) == Le32(len) + Le16(typ) + Le16(flags) + Le32(sq) + Le32(pid);
    hide *;
    LowFirst4(len);
    LowFirst2(typ);
    LowFirst2(flags);
    LowFirst4(sq);
    LowFirst4(pid);
  }

  /** A connector header, field by field. */
  lemma CnHeaderOnWire(idx: u32, val: u32, sq: u32, ack: u32, n: u16, flags: u16)
    ensures CnHeader(idx, val, sq, ack, n, flags)
         == LowFirst(idx, 4) + LowFirst(val, 4) + LowFirst(sq, 4) + LowFirst(ack, 4) + LowFirst(n, 2)
            + LowFirst(flags, 2)
  {
    assert CnHeader(idx, val, sq, ack, n, flags)
        == Le32(idx) + Le32(val) + Le32(sq) + Le32(ack) + Le16(n) + Le16(flags);
    hide *;
    LowFirst4(idx);
    LowFirst4(val);
    LowFirst4(sq);
    LowFirst4(ack);
    LowFirst2(n);
    LowFirst2(flags);
  }

  /** W1 messages and their commands, field by field. */
  lemma MessagesOnWire(m: W1Msg, c: W1Cmd)
    ensures EncW1(m) == [m.typ, m.status] + LowFirst(|m.data|, 2) + m.id + m.data
    ensures EncCmd(c) == [c.code, c.res] + LowFirst(|c.data|, 2) + c.data
  {
    hide Le16, LowFirst;
    LowFirst2(|m.data|);
    LowFirst2(|c.data|);
  }

  /** What the first pass makes of a frame, by the numbers of the netlink protocol: 1 is NOOP, 2 an
      error, 3 the end; any other frame is a part of a multi-part message if bit 1 of its flags is set. */
  lemma FrameByNumbers(f: NlFrame, rest: seq<byte>)
    requires Fits(f)
    ensures StripNl(EncNl(f) + rest) ==
      if f.typ == 1 then Stuck
      else if f.typ == 2 then Failed(ProtoErr)
      else if f.typ == 3 then Payload(f.payload)
      else if f.flags / 2 % 2 == 1 then Prepend(f.payload, StripNl(rest))
      else Failed(BadMsg)
  {
    hide EncNl, U16At, U32At, NlRest, NlOk;
    NlHead(f, rest);
  }
}
