/** Building, framing and executing a w1 message. */
module Request {
  import opened Bytes
  import opened Frames
  import opened AckWalk
  import opened InPlace
  import opened Matching
  import opened AnyReplies
  import opened ExecCallback
  import opened Listing
  import opened Receive

  /** NLMSG_SPACE(sizeof(struct cn_msg)). */
  const NL_CN_SPACE := 36
  const MAX_W1MSG := MAX_W1_NETLINK_MSG_SZ - NL_CN_SPACE
  const SEQ_RANGE := ACK_STAT_VAL - 1

  // ---------------------------------------------------------------- sequence numbers

  /** The number the request sent at counter value `s` carries. */
  function SeqOf(s: u32): (v: u32)
    ensures v < SEQ_RANGE < ACK_STAT_VAL
  {
    s % SEQ_RANGE
  }

  function After(s: u32, k: nat): u32 { (s + k) % UINT_RANGE }

  /** Two requests `k` apart on one handle carry the same number exactly when the counter did not
      wrap between them and k is the whole range, or it wrapped and k is 2. */
  lemma SeqCollides(s: u32, k: nat)
    requires 0 < k < UINT_RANGE
    ensures SeqOf(After(s, k)) == SeqOf(s) <==>
      if s + k < UINT_RANGE then k == SEQ_RANGE else k == 2
  {
    if s + k < UINT_RANGE {
      assert After(s, k) == s + k;
    } else {
      assert After(s, k) == s + k - UINT_RANGE;
    }
  }

  /** The last request in front of a wrap and the second one behind it. */
  lemma SeqCollisionExample()
    ensures SeqOf(UINT_RANGE - 1) == SeqOf(After(UINT_RANGE - 1, 2)) == 1
  {
  }

  /** So neighbouring requests never share one, and late replies to the previous request are
      foreign traffic to the next. */
  lemma LateRepliesAreForeign(s: u32, req: W1Msg, late: seq<CnMsg>)
    requires forall m <- late :: m.sq == SeqOf(s)
    ensures forall m <- late :: Foreign(m, req, SeqOf(After(s, 1)))
  {
    SeqCollides(s, 1);
  }

  // ---------------------------------------------------------------- the w1 message being built

  /** Master messages go to a bus, slave messages to one device. */
  datatype Target = Master(id: u32) | Slave(id8: Id8)

  class W1Message {
    var target: Target
    const maxCmds: nat
    // the memory command buffers are in
    const mem: array<byte>
    var cmds: seq<Cmd>

    ghost predicate Valid()
      reads this, mem
    {
      && |cmds| <= maxCmds && Sized(cmds, mem[..])
      && (target.Slave? ==> forall c <- cmds :: c.typ != BusReset)
    }

    constructor (target: Target, maxCmds: nat, mem: array<byte>)
      ensures Valid() && this.target == target && this.maxCmds == maxCmds && this.mem == mem && cmds == []
    {
      this.target := target;
      this.maxCmds := maxCmds;
      this.mem := mem;
      cmds := [];
    }

    /** add_w1_cmd: appends a command, except a bus reset to a slave message, or to a full list. No
        data is a null pointer. */
    method Add(typ: CmdType, data: Option<nat>, len: nat) returns (err: Errc)
      requires Valid() && (data.Some? ==> data.value + len <= mem.Length)
      modifies this
      ensures Valid() && target == old(target)
      ensures err == if typ == BusReset && target.Slave? then InvArg
                     else if |old(cmds)| == maxCmds then NoSpace else Success
      ensures err != Success ==> cmds == old(cmds)
      ensures err == Success ==> cmds == old(cmds) + [
        if data.Some? && len > 0 then Cmd(typ, data.value, len) else Cmd(typ, 0, 0)]
    {
      if typ == BusReset && target.Slave? {
        return InvArg;
      }
      if |cmds| >= maxCmds {
        return NoSpace;
      }
      var c := Cmd(typ, 0, 0);
      if len > 0 && data.Some? {
        c := Cmd(typ, data.value, len);
      }
      cmds := cmds + [c];
      err := Success;
    }
  }

  // ---------------------------------------------------------------- the request as a value

  function CmdsLen(cmds: seq<Cmd>): nat {
    if cmds == [] then 0 else CMD_HDRLEN + cmds[0].len + CmdsLen(cmds[1..])
  }

  /** A command on the wire: writes and touches carry their buffer, reads and the rest zeros. */
  function Wire(c: Cmd, buf: seq<byte>): (w: W1Cmd)
    requires |buf| == c.len < 0x1_0000
    ensures |w.data| == c.len
  {
    W1Cmd(Code(c.typ), 0, if c.typ == Write || c.typ == Touch then buf else Zeros(c.len))
  }

  predicate Small(cmds: seq<Cmd>) { forall c <- cmds :: c.len < 0x1_0000 }

  function Wires(cmds: seq<Cmd>, mem: seq<byte>): (ws: seq<W1Cmd>)
    requires Sized(cmds, mem) && Small(cmds)
    ensures |ws| == |cmds|
  {
    seq(|cmds|, q requires 0 <= q < |cmds| => Wire(cmds[q], DataOf(cmds[q], mem)))
  }

  lemma {:induction false} LenParts(cmds: seq<Cmd>, k: nat)
    requires k <= |cmds|
    ensures CmdsLen(cmds) == CmdsLen(cmds[..k]) + CmdsLen(cmds[k..])
  {
    if k == 0 {
      assert cmds[0..] == cmds;
    } else {
      LenParts(cmds[1..], k - 1);
      assert cmds[..k][1..] == cmds[1..][..k - 1] && cmds[1..][k - 1..] == cmds[k..];
    }
  }

  lemma FittingIsSmall(cmds: seq<Cmd>)
    requires CmdsLen(cmds) < 0x1_0000
    ensures Small(cmds)
  {
    forall q | 0 <= q < |cmds| ensures cmds[q].len < 0x1_0000 {
      LenParts(cmds, q);
    }
  }

  lemma {:induction false} EncodedLen(cmds: seq<Cmd>, ws: seq<W1Cmd>)
    requires |cmds| == |ws| && forall q :: 0 <= q < |cmds| ==> |ws[q].data| == cmds[q].len
    ensures |EncCmds(ws)| == CmdsLen(cmds)
  {
    if cmds != [] {
      EncodedLen(cmds[1..], ws[1..]);
    }
  }

  function TypeOf(t: Target): byte { if t.Master? then W1_MASTER_CMD else W1_SLAVE_CMD }

  function IdOf(t: Target): Id8 { if t.Master? then Le32(t.id) + Zeros(4) else t.id8 }

  /** The request for some commands, when it fits. */
  function RequestMsg(t: Target, cmds: seq<Cmd>, mem: seq<byte>): (m: W1Msg)
    requires Sized(cmds, mem) && CmdsLen(cmds) < 0x1_0000
    ensures |m.data| == CmdsLen(cmds)
  {
    FittingIsSmall(cmds);
    EncodedLen(cmds, Wires(cmds, mem));
    W1Msg(TypeOf(t), 0, IdOf(t), EncCmds(Wires(cmds, mem)))
  }

  /** The datagram send_recv_w1msg sends. */
  function SentFrame(sq: u32, w1: Blob): NlFrame {
    NlFrame(NLMSG_DONE, 0, sq, 0, EncCn(SentCn(sq, w1)))
  }

  function SentCn(sq: u32, w1: Blob): CnMsg { CnMsg(CN_W1_IDX, CN_W1_VAL, sq, ACK_STAT_VAL, 0, w1) }

  /** Reading a sent request back with the library's own parsers, layer by layer, gives the request,
      and walking its data gives the commands with their types, lengths and data, and nothing left. */
  lemma RequestRoundTrip(sq: u32, t: Target, cmds: seq<Cmd>, mem: seq<byte>)
    requires Sized(cmds, mem) && W1_HDRLEN + CmdsLen(cmds) <= MAX_W1MSG
    ensures Small(cmds)
    ensures var req := RequestMsg(t, cmds, mem);
            var d := EncNl(SentFrame(sq, EncW1(req)));
            && |d| <= MAX_W1_NETLINK_MSG_SZ
            && Unframed(d) == Payload(EncCn(SentCn(sq, EncW1(req))))
            && Delivered(Unframed(d).bytes, sq) == [Delivery(ACK_STAT_VAL, req)]
            && ParseCmds(req.data) == Wires(cmds, mem) && Leftover(req.data) == []
  {
    var req := RequestMsg(t, cmds, mem);
    FittingIsSmall(cmds);
    CmdsRoundTrip(Wires(cmds, mem));
    Framed(SentFrame(sq, EncW1(req)), SentCn(sq, EncW1(req)));
    OwnRequestDelivered(sq, req);
  }

  lemma RequestReadsBack(req: W1Msg)
    ensures W1Ok(EncW1(req)) && W1At(EncW1(req)) == req
    ensures |EncW1(req)| == W1_HDRLEN + U16At(EncW1(req), 2)
  {
    W1Head(req, []);
    assert EncW1(req) + [] == EncW1(req);
  }

  lemma OwnRequestDelivered(sq: u32, req: W1Msg)
    requires |EncW1(req)| < 0x1_0000
    ensures WalkAcked(AckStream([SentCn(sq, EncW1(req))], sq)) == [Delivery(ACK_STAT_VAL, req)]
  {
    hide EncW1;
    var m := SentCn(sq, EncW1(req));
    RequestReadsBack(req);
    WalkRefinesLayers([m], sq);
    OneLayer(m, sq);
    assert Layered([m], sq) == Layer(m, sq);
  }

  lemma Framed(f: NlFrame, m: CnMsg)
    requires f.typ == NLMSG_DONE && f.payload == EncCn(m) && |f.payload| <= 4096
    ensures Fits(f) && |EncNl(f)| <= MAX_W1_NETLINK_MSG_SZ
    ensures Unframed(EncNl(f)) == Payload(EncCn(m)) && ParseCn(EncCn(m)) == [m]
  {
    hide StripNl, ParseCn, EncCn, EncNl;
    AlignPadded(|f.payload|);
    EncodedAlone(f, m);
    ChainRoundTrip([f]);
    CnsRoundTrip([m]);
  }

  lemma EncodedAlone(f: NlFrame, m: CnMsg)
    requires Fits(f)
    ensures EncNls([f]) == EncNl(f) && Payloads([f]) == f.payload && EncCns([m]) == EncCn(m)
    ensures |EncNl(f)| == NLMSG_HDRLEN + |f.payload| + (Align4(|f.payload|) - |f.payload|)
  {
    assert [f][1..] == [] && [m][1..] == [];
    assert EncNl(f) + [] == EncNl(f) && f.payload + [] == f.payload && EncCn(m) + [] == EncCn(m);
  }

  // ---------------------------------------------------------------- building it in a buffer

  /** The loop adding up cmds_len. */
  method Measure(cmds: seq<Cmd>) returns (cmdsLen: nat)
    ensures cmdsLen == CmdsLen(cmds)
  {
    cmdsLen := 0;
    assert cmds[0..] == cmds;
    for i := 0 to |cmds|
      invariant cmdsLen + CmdsLen(cmds[i..]) == CmdsLen(cmds)
    {
      assert cmds[i..][0] == cmds[i] && cmds[i..][1..] == cmds[i + 1..];
      cmdsLen := cmdsLen + CMD_HDRLEN + cmds[i].len;
    }
  }

  /** The first half of w1_msg_exec: size check, then the request is laid out in `msgBuf`. */
  method BuildRequest(t: Target, cmds: seq<Cmd>, mem: array<byte>, msgBuf: array<byte>)
    returns (err: Errc, msgLen: nat)
    requires Sized(cmds, mem[..]) && msgBuf.Length == MAX_W1MSG && msgBuf != mem
    modifies msgBuf
    ensures err == if cmds == [] then Empty
                   else if W1_HDRLEN + CmdsLen(cmds) > MAX_W1MSG then MsgSize else Success
    ensures err == Success ==>
      msgLen <= MAX_W1MSG && msgBuf[..msgLen] == EncW1(RequestMsg(t, cmds, mem[..]))
  {
    hide EncCmds, Le16, IdOf, TypeOf;
    msgLen := 0;
    if cmds == [] {
      return Empty, 0;
    }
    var cmdsLen := Measure(cmds);
    msgLen := W1_HDRLEN + cmdsLen;
    if msgLen > MAX_W1MSG {
      return MsgSize, msgLen;
    }
    FittingIsSmall(cmds);
    StartMessage(msgBuf, msgLen, [TypeOf(t), 0] + Le16(cmdsLen % 0x1_0000) + IdOf(t));
    LayOut(msgBuf, msgLen, cmds, mem);
    assert msgBuf[..msgLen] == EncW1(RequestMsg(t, cmds, mem[..]));
    err := Success;
  }

  /** memset of the message, then its header. */
  method StartMessage(msgBuf: array<byte>, msgLen: nat, header: seq<byte>)
    requires |header| <= msgLen <= msgBuf.Length
    modifies msgBuf
    ensures msgBuf[..|header|] == header
    ensures msgBuf[|header|..msgLen] == Zeros(msgLen - |header|)
  {
    hide Overwrite, Zeros;
    ghost var garbage := msgBuf[..];
    CopyOver(msgBuf, 0, Zeros(msgLen));
    OverwriteParts(garbage, 0, Zeros(msgLen), msgLen);
    ghost var blank := msgBuf[..];
    CopyOver(msgBuf, 0, header);
    OverwriteParts(blank, 0, header, msgLen);
    SubSlice(blank, 0, msgLen, |header|, msgLen);
  }

  /** The layout loop, behind the header. */
  method LayOut(msgBuf: array<byte>, msgLen: nat, cmds: seq<Cmd>, mem: array<byte>)
    requires Sized(cmds, mem[..]) && msgLen <= msgBuf.Length && msgBuf != mem
    requires msgLen == W1_HDRLEN + CmdsLen(cmds) && Small(cmds)
    requires msgBuf[W1_HDRLEN..msgLen] == Zeros(msgLen - W1_HDRLEN)
    modifies msgBuf
    ensures msgBuf[..msgLen] == old(msgBuf[..W1_HDRLEN]) + EncCmds(Wires(cmds, mem[..]))
  {
    hide EncCmds, EncCmd, CmdsLen, Wires, Wire, Zeros, DataOf;
    ghost var header := msgBuf[..W1_HDRLEN];
    ghost var ws := Wires(cmds, mem[..]);
    NoCommands();
    var at: nat := W1_HDRLEN;
    assert cmds[0..] == cmds && ws[..0] == [];
    for i := 0 to |cmds|
      invariant mem[..] == old(mem[..])
      invariant at + CmdsLen(cmds[i..]) == msgLen
      invariant msgBuf[..at] == header + EncCmds(ws[..i])
      invariant msgBuf[at..msgLen] == Zeros(msgLen - at)
    {
      OneOfThem(cmds, mem[..], i);
      PutCommand(msgBuf, at, msgLen, cmds[i], mem);
      at := at + CMD_HDRLEN + cmds[i].len;
      EncCmdsSnoc(header, ws, i);
    }
    assert ws[..|cmds|] == ws && cmds[|cmds|..] == [];
  }

  lemma OneOfThem(cmds: seq<Cmd>, mem: seq<byte>, i: nat)
    requires i < |cmds| && Sized(cmds, mem) && Small(cmds)
    ensures Within(cmds[i], mem) && cmds[i].len < 0x1_0000
    ensures Wires(cmds, mem)[i] == Wire(cmds[i], DataOf(cmds[i], mem))
    ensures CmdsLen(cmds[i..]) == CMD_HDRLEN + cmds[i].len + CmdsLen(cmds[i + 1..])
  {
    assert cmds[i..][0] == cmds[i] && cmds[i..][1..] == cmds[i + 1..];
  }

  lemma NoCommands()
    ensures EncCmds([]) == [] && CmdsLen([]) == 0
  {
  }

  lemma EncCmdsSnoc(front: seq<byte>, ws: seq<W1Cmd>, i: nat)
    requires i < |ws|
    ensures front + EncCmds(ws[..i]) + EncCmd(ws[i]) == front + EncCmds(ws[..i + 1])
  {
    EncCmdsAppend(ws[..i], [ws[i]]);
    assert ws[..i + 1] == ws[..i] + [ws[i]];
    assert EncCmds([ws[i]]) == EncCmd(ws[i]) + EncCmds([ws[i]][1..]);
    Associate(front, EncCmds(ws[..i]), EncCmd(ws[i]));
  }

  lemma FirstEncoded(c: W1Cmd, rest: seq<W1Cmd>)
    ensures EncCmds([c] + rest) == EncCmd(c) + EncCmds(rest)
  {
    assert ([c] + rest)[1..] == rest;
  }

  lemma {:induction false} EncCmdsAppend(xs: seq<W1Cmd>, ys: seq<W1Cmd>)
    ensures EncCmds(xs + ys) == EncCmds(xs) + EncCmds(ys)
  {
    if xs == [] {
      assert xs + ys == ys;
    } else {
      hide EncCmd, EncCmds;
      var c, rest := xs[0], xs[1..];
      assert xs == [c] + rest && xs + ys == [c] + (rest + ys);
      FirstEncoded(c, rest);
      FirstEncoded(c, rest + ys);
      EncCmdsAppend(rest, ys);
      Associate(EncCmd(c), EncCmds(rest), EncCmds(ys));
    }
  }

  /** One command of the layout loop: header, and data where the command sends any. */
  method PutCommand(msgBuf: array<byte>, at: nat, end: nat, c: Cmd, mem: array<byte>)
    requires Within(c, mem[..]) && c.len < 0x1_0000 && mem != msgBuf
    requires at + CMD_HDRLEN + c.len <= end <= msgBuf.Length
    requires msgBuf[at..end] == Zeros(end - at)
    modifies msgBuf
    ensures msgBuf[..at + CMD_HDRLEN + c.len] == old(msgBuf[..at]) + EncCmd(Wire(c, DataOf(c, mem[..])))
    ensures msgBuf[at + CMD_HDRLEN + c.len..end] == Zeros(end - at - CMD_HDRLEN - c.len)
  {
    hide Overwrite, Zeros, Le16, EncCmd, Wire;
    ghost var c0 := msgBuf[..];
    var header := [Code(c.typ), 0] + Le16(c.len);
    var data := mem[c.addr..c.addr + c.len];
    CopyOver(msgBuf, at, header);
    if (c.typ == Write || c.typ == Touch) && c.len > 0 {
      CopyOver(msgBuf, at + CMD_HDRLEN, data);
    }
    assert data == DataOf(c, mem[..]);
    CommandPut(c0, msgBuf[..], at, end, c, data, header);
  }

  /** What is left out by the data copy is zero already. */
  lemma CommandPut(c0: seq<byte>, c1: seq<byte>, at: nat, end: nat, c: Cmd, buf: Blob, header: seq<byte>)
    requires |buf| == c.len < 0x1_0000 && header == [Code(c.typ), 0] + Le16(c.len)
    requires at + CMD_HDRLEN + c.len <= end <= |c0|
    requires c0[at..end] == Zeros(end - at)
    requires c1 == if (c.typ == Write || c.typ == Touch) && c.len > 0
                   then Overwrite(Overwrite(c0, at, header), at + CMD_HDRLEN, buf)
                   else Overwrite(c0, at, header)
    ensures |c1| == |c0|
    ensures c1[..at + CMD_HDRLEN + c.len] == c0[..at] + EncCmd(Wire(c, buf))
    ensures c1[at + CMD_HDRLEN + c.len..end] == Zeros(end - at - CMD_HDRLEN - c.len)
  {
    hide Overwrite, Zeros, Le16;
    var body, sent := at + CMD_HDRLEN, Wire(c, buf).data;
    ZeroPart(c0, at, end, body, body + c.len);
    ZeroPart(c0, at, end, body + c.len, end);
    if !((c.typ == Write || c.typ == Touch) && c.len > 0) {
      OverwriteParts(c0, at, header, body + c.len);
      assert sent == Zeros(c.len);
      OverwriteSame(c1, body, sent);
    }
    OverwriteTwice(c0, at, header, sent);
    OverwriteParts(c0, at, header + sent, end);
    assert EncCmd(Wire(c, buf)) == header + sent;
  }

  lemma ZeroPart(c: seq<byte>, lo: nat, hi: nat, from: nat, to: nat)
    requires lo <= from <= to <= hi <= |c| && c[lo..hi] == Zeros(hi - lo)
    ensures c[from..to] == Zeros(to - from)
  {
    SubSlice(c, lo, hi, from - lo, to - lo);
    assert Zeros(hi - lo)[from - lo..to - lo] == Zeros(to - from);
  }

  // ---------------------------------------------------------------- sending and executing

  class Handle {
    var sq: u32

    constructor ()
      ensures sq == 0
    {
      sq := 0;
    }

    /** Framing in send_recv_w1msg; `w1` is a whole encoded w1 message. */
    method Frame(w1: seq<byte>) returns (err: Errc, dgram: seq<byte>, cn: CnMsg)
      requires W1_HDRLEN <= |w1|
      modifies this
      ensures err == if Align4(NLMSG_HDRLEN + CN_HDRLEN + |w1|) > MAX_W1_NETLINK_MSG_SZ then MsgSize else Success
      ensures err == Success ==>
        && sq == After(old(sq), 1) && cn == SentCn(SeqOf(old(sq)), w1)
        && Fits(SentFrame(SeqOf(old(sq)), w1)) && dgram == EncNl(SentFrame(SeqOf(old(sq)), w1))
      ensures err != Success ==> sq == old(sq)
    {
      var cnLen := CN_HDRLEN + |w1|;
      var nlLen := NLMSG_HDRLEN + cnLen;
      if Align4(nlLen) > MAX_W1_NETLINK_MSG_SZ {
        return MsgSize, [], SentCn(SeqOf(sq), []);
      }
      var no := SeqOf(sq);
      cn := SentCn(no, w1);
      sq := After(sq, 1);
      dgram := FillFrame(no, w1, nlLen, Align4(nlLen));
      err := Success;
    }
  }

  /** The send buffer: cleared, netlink header, connector header, w1 message. */
  method FillFrame(no: u32, w1: Blob, nlLen: nat, size: nat) returns (dgram: seq<byte>)
    requires nlLen == NLMSG_HDRLEN + CN_HDRLEN + |w1| && size == Align4(nlLen) <= MAX_W1_NETLINK_MSG_SZ
    ensures Fits(SentFrame(no, w1)) && dgram == EncNl(SentFrame(no, w1))
  {
    hide NlHeader, CnHeader, Overwrite, EncNl, Zeros;
    var sendBuf := new byte[MAX_W1_NETLINK_MSG_SZ];
    var nl := NlHeader(nlLen, NLMSG_DONE, 0, no, 0);
    StartMessage(sendBuf, size, nl);
    ghost var c := sendBuf[..];
    var hdr := CnHeader(CN_W1_IDX, CN_W1_VAL, no, ACK_STAT_VAL, |w1| % 0x1_0000, 0);
    CopyOver(sendBuf, NLMSG_HDRLEN, hdr);
    CopyOver(sendBuf, NLMSG_HDRLEN + CN_HDRLEN, w1);
    OverwriteTwice(c, NLMSG_HDRLEN, hdr, w1);
    FilledIn(c, nl, hdr + w1, size);
    dgram := sendBuf[..size];
    FrameBytes(dgram, no, nl, hdr, w1, size - nlLen);
  }

  /** The cleared buffer with the payload behind its first header. */
  lemma FilledIn(c: seq<byte>, nl: seq<byte>, payload: seq<byte>, size: nat)
    requires |nl| == NLMSG_HDRLEN && NLMSG_HDRLEN + |payload| <= size <= |c|
    requires c[..NLMSG_HDRLEN] == nl && c[NLMSG_HDRLEN..size] == Zeros(size - NLMSG_HDRLEN)
    ensures var n := NLMSG_HDRLEN + |payload|;
            var d := Overwrite(c, NLMSG_HDRLEN, payload)[..size];
            d[..n] == nl + payload && d[n..] == Zeros(size - n)
  {
    hide Overwrite, Zeros;
    var n := NLMSG_HDRLEN + |payload|;
    var c1 := Overwrite(c, NLMSG_HDRLEN, payload);
    OverwriteParts(c, NLMSG_HDRLEN, payload, size);
    ZeroPart(c, NLMSG_HDRLEN, size, n, size);
    SubSlice(c1, 0, size, 0, n);
    SubSlice(c1, 0, size, n, size);
  }

  lemma FrameBytes(d: seq<byte>, no: u32, nl: seq<byte>, hdr: seq<byte>, w1: Blob, pad: nat)
    requires nl == NlHeader(NLMSG_HDRLEN + CN_HDRLEN + |w1|, NLMSG_DONE, 0, no, 0)
    requires hdr == CnHeader(CN_W1_IDX, CN_W1_VAL, no, ACK_STAT_VAL, |w1|, 0)
    requires |d| == NLMSG_HDRLEN + CN_HDRLEN + |w1| + pad == Align4(NLMSG_HDRLEN + CN_HDRLEN + |w1|)
    requires d[..NLMSG_HDRLEN + CN_HDRLEN + |w1|] == nl + (hdr + w1)
    requires d[NLMSG_HDRLEN + CN_HDRLEN + |w1|..] == Zeros(pad)
    ensures Fits(SentFrame(no, w1)) && d == EncNl(SentFrame(no, w1))
  {
    hide NlHeader, CnHeader, Zeros;
    var n := NLMSG_HDRLEN + CN_HDRLEN + |w1|;
    assert SentFrame(no, w1).payload == hdr + w1;
    AlignPadded(CN_HDRLEN + |w1|);
    assert d == d[..n] + d[n..];
  }

  /** What w1_msg_exec returns over a run, and the caller's memory after it. */
  function ExecRun(sq: u32, t: Target, cmds: seq<Cmd>, mem: seq<byte>, events: seq<Event>)
    : (r: (Option<Errc>, seq<byte>))
    requires Sized(cmds, mem) && NoNoop(events)
  {
    if cmds == [] then (Some(Empty), mem)
    else if W1_HDRLEN + CmdsLen(cmds) > MAX_W1MSG then (Some(MsgSize), mem)
    else
      var out := Loop(RequestMsg(t, cmds, mem), SeqOf(sq), CbStep, ExecState(cmds, Start(mem)),
                      MoreReq, 0, events);
      if !out.st.ExecState? then (None, mem)
      else (if out.Done? then Some(Verified(out.err, out.st.exec.status)) else None, out.st.exec.mem)
  }

  /** Commands there are and whose request fits: what w1_msg_exec sends at all. */
  predicate Sendable(cmds: seq<Cmd>) { cmds != [] && W1_HDRLEN + CmdsLen(cmds) <= MAX_W1MSG }

  /** w1_msg_exec does what it promises: on a conforming exchange with the device it succeeds exactly
      when something answered, no read or touch was answered directly behind a command of its own
      type, and none was left without its data; each read or touch buffer then holds the reply sent
      for it. (For the exception see `Receive.Served`.) */
  lemma ExecDelivers(sq: u32, t: Target, cmds: seq<Cmd>, mem: seq<byte>, own: seq<nat>,
                     datagrams: seq<Event>)
    requires Sized(cmds, mem) && Sendable(cmds)
    requires Conforms(RequestMsg(t, cmds, mem), SeqOf(sq), cmds, own, datagrams)
    ensures NoNoop(datagrams + [Timeout]) && Ranged(cmds, own)
    ensures var ms := Msgs(Answering(RequestMsg(t, cmds, mem), SeqOf(sq), datagrams));
            var r := ExecRun(sq, t, cmds, mem, datagrams + [Timeout]);
            && (r.0 == Some(Success) <==> Served(cmds, own, ms))
            && (TypeChanges(cmds, -1, own) ==> RepliesInPlace(cmds, own, Replies(ms), mem, r.1))
  {
    hide Conforms, CbStep, Loop, RequestMsg, RepliesInPlace, Served, TypeChanges;
    ExecSucceedsIffServed(RequestMsg(t, cmds, mem), SeqOf(sq), cmds, mem, own, datagrams);
  }

  // ---------------------------------------------------------------- executing, whatever comes back

  /** The messages that answer a request for some commands among some events. */
  function Heard(sq: u32, t: Target, cmds: seq<Cmd>, mem: seq<byte>, events: seq<Event>): seq<Msg>
    requires Sized(cmds, mem) && Sendable(cmds)
  {
    Msgs(Answering(RequestMsg(t, cmds, mem), SeqOf(sq), events))
  }

  /** The replies in them that are looked at. */
  function RepliesUsed(sq: u32, t: Target, cmds: seq<Cmd>, mem: seq<byte>, events: seq<Event>): seq<W1Cmd>
    requires Sized(cmds, mem) && Sendable(cmds)
  {
    Replies(Consumed(cmds, Start(mem), MoreReq, Heard(sq, t, cmds, mem, events)))
  }

  /** Nothing but readable datagrams in front of event `k`, where poll() times out. */
  predicate SilentAt(events: seq<Event>, k: nat) {
    k < |events| && events[k] == Timeout && AllPayload(events[..k])
  }

  /** Result and memory come from feeding the callback what answers among the first events. */
  lemma ExecIsAWalk(sq: u32, t: Target, cmds: seq<Cmd>, mem: seq<byte>, events: seq<Event>) returns (k: nat)
    requires Sized(cmds, mem) && NoNoop(events) && Sendable(cmds)
    ensures k <= |events|
    ensures var r := ExecRun(sq, t, cmds, mem, events);
            var ms := Heard(sq, t, cmds, mem, events[..k]);
            var f := Feed(cmds, Start(mem), MoreReq, ms);
            && r.1 == f.0.mem
            && (r.0 == Some(Success) ==>
                  f.0.status == 0 && f.1 != MoreReq && ms != [] && SilentAt(events, k))
  {
    hide RequestMsg, CbStep, Loop, CallBack, Answering;
    var req := RequestMsg(t, cmds, mem);
    var st := ExecState(cmds, Start(mem));
    k := EveryRunIsAWalk(req, SeqOf(sq), CbStep, st, MoreReq, 0, events);
    AnsweringAnswers(req, SeqOf(sq), events[..k]);
    WalkIsFeed(req, cmds, Start(mem), MoreReq, Answering(req, SeqOf(sq), events[..k]));
  }

  /** On any run of events whatever: when w1_msg_exec succeeds, every read and touch has been answered
      by a reply of its own type, and its buffer holds the data that came last for it. It may hold
      none, as an empty reply is an answer; and a message without a reply will do when only the first
      command is owed data. */
  lemma SuccessMeansAllAnswered(sq: u32, t: Target, cmds: seq<Cmd>, mem: seq<byte>, events: seq<Event>)
    requires Sized(cmds, mem) && NoNoop(events) && ExecRun(sq, t, cmds, mem, events).0 == Some(Success)
    ensures Sendable(cmds)
    ensures exists k: nat :: SilentAt(events, k) &&
              var rs := RepliesUsed(sq, t, cmds, mem, events[..k]);
              && (if rs == [] then !Ahead(cmds, 0) else AllAnswered(cmds, mem, rs))
              && Written(cmds, rs, mem, ExecRun(sq, t, cmds, mem, events).1)
  {
    hide Heard, AllAnswered, Written, Consumed;
    var k := ExecIsAWalk(sq, t, cmds, mem, events);
    var ms := Heard(sq, t, cmds, mem, events[..k]);
    ContentMeansAllAnswered(cmds, mem, ms);
    OnlyRepliesAreWritten(cmds, mem, MoreReq, ms);
  }

  /** On any run of events whatever: memory changes only where a read or touch has its buffer, and only
      to what a reply of its own code and length carried; buffers that do not overlap hold the data
      that came last for them, or what they held before. */
  lemma ExecWritesRepliesOnly(sq: u32, t: Target, cmds: seq<Cmd>, mem: seq<byte>, events: seq<Event>)
    requires Sized(cmds, mem) && NoNoop(events) && Sendable(cmds)
    ensures exists k: nat :: k <= |events| &&
              Written(cmds, RepliesUsed(sq, t, cmds, mem, events[..k]), mem,
                      ExecRun(sq, t, cmds, mem, events).1)
  {
    hide Heard, ExecRun, Written, Consumed;
    var k := ExecIsAWalk(sq, t, cmds, mem, events);
    OnlyRepliesAreWritten(cmds, mem, MoreReq, Heard(sq, t, cmds, mem, events[..k]));
  }

  /** A message with a read or touch directly behind a command of its own type is never executed with
      success, whatever comes back. */
  lemma NeverSucceeds(sq: u32, t: Target, cmds: seq<Cmd>, mem: seq<byte>, events: seq<Event>)
    requires Sized(cmds, mem) && NoNoop(events) && !NoneBehindItsType(cmds)
    ensures ExecRun(sq, t, cmds, mem, events).0 != Some(Success)
  {
    var j: nat :| j < |cmds| && BehindItsType(cmds, j);
    if Sendable(cmds) {
      hide Heard, ExecRun;
      var k := ExecIsAWalk(sq, t, cmds, mem, events);
      NeverContent(cmds, j, Start(mem), Heard(sq, t, cmds, mem, events[..k]));
    }
  }

  // ---------------------------------------------------------------- errors

  /** Nothing is sent for an empty message, or for one whose request would not fit its 4076 bytes. */
  lemma RefusedUnsent(sq: u32, t: Target, cmds: seq<Cmd>, mem: seq<byte>, events: seq<Event>)
    requires Sized(cmds, mem) && NoNoop(events)
    ensures cmds == [] ==> ExecRun(sq, t, cmds, mem, events) == (Some(Empty), mem)
    ensures cmds != [] && 12 + CmdsLen(cmds) > 4076 ==> ExecRun(sq, t, cmds, mem, events) == (Some(MsgSize), mem)
    ensures Sendable(cmds) <==> cmds != [] && 12 + CmdsLen(cmds) <= 4076
  {
  }

  /** An error report among the first events that is looked at, that is handed to the callback while
      commands are left, keeps the execution from succeeding, whatever comes later. */
  lemma ErrorReportedNoSuccess(sq: u32, t: Target, cmds: seq<Cmd>, mem: seq<byte>, events: seq<Event>,
                               n: nat, j: nat)
    requires Sized(cmds, mem) && NoNoop(events) && Sendable(cmds) && n <= |events| && AllPayload(events[..n])
    requires var req := RequestMsg(t, cmds, mem);
             var ds := Answering(req, SeqOf(sq), events[..n]);
             j < |ds| && ds[j].ack == 0xffff_ffff && ds[j].msg.status != 0 && LookedAt(req, cmds, mem, ds, j)
    ensures ExecRun(sq, t, cmds, mem, events).0 != Some(Success)
  {
    hide RequestMsg, CbStep, Loop, CallBack, Answering, LookedAt, Answers;
    var req := RequestMsg(t, cmds, mem);
    var st := ExecState(cmds, Start(mem));
    var k := EveryRunIsAWalk(req, SeqOf(sq), CbStep, st, MoreReq, 0, events);
    if ExecRun(sq, t, cmds, mem, events).0 == Some(Success) {
      SilenceBehind(events, n, k);
      var ds, all := Answering(req, SeqOf(sq), events[..n]), Answering(req, SeqOf(sq), events[..k]);
      AnsweringPrefix(req, SeqOf(sq), events[..k], n);
      assert events[..k][..n] == events[..n];
      AnsweringAnswers(req, SeqOf(sq), events[..k]);
      assert all[..j] == ds[..j] && all[j] == ds[j];
      SameLookedAt(req, cmds, mem, ds, all, j);
      ExecNotesError(req, cmds, mem, all, j);
    }
  }

  lemma SilenceBehind(events: seq<Event>, n: nat, k: nat)
    requires n <= |events| && AllPayload(events[..n]) && k < |events| && events[k] == Timeout
    ensures n <= k
  {
    forall i | 0 <= i < n ensures Readable(events[i]) {
      assert events[..n][i] in events[..n];
    }
  }

  lemma SameLookedAt(req: W1Msg, cmds: seq<Cmd>, mem: seq<byte>, ds: seq<Delivery>, all: seq<Delivery>, j: nat)
    requires j < |ds| && j < |all| && all[..j] == ds[..j] && LookedAt(req, cmds, mem, ds, j)
    ensures LookedAt(req, cmds, mem, all, j)
  {
  }

  /** Over readable datagrams followed by silence it ends in a protocol error. */
  lemma ErrorReportedFails(sq: u32, t: Target, cmds: seq<Cmd>, mem: seq<byte>, datagrams: seq<Event>, j: nat)
    requires Sized(cmds, mem) && Sendable(cmds) && AllPayload(datagrams) && |datagrams| < UINT_RANGE
    requires var req := RequestMsg(t, cmds, mem);
             var ds := Answering(req, SeqOf(sq), datagrams);
             j < |ds| && ds[j].ack == 0xffff_ffff && ds[j].msg.status != 0 && LookedAt(req, cmds, mem, ds, j)
    ensures NoNoop(datagrams + [Timeout])
    ensures ExecRun(sq, t, cmds, mem, datagrams + [Timeout]).0 == Some(ProtoErr)
  {
    hide RequestMsg, CbStep, Loop, CallBack, LookedAt, Answers, AnsweringIn;
    var req := RequestMsg(t, cmds, mem);
    RunIsOneWalk(req, SeqOf(sq), CbStep, ExecState(cmds, Start(mem)), MoreReq, 0, datagrams);
    AnsweringAnswers(req, SeqOf(sq), datagrams);
    ExecNotesError(req, cmds, mem, Answering(req, SeqOf(sq), datagrams), j);
  }

  // ---------------------------------------------------------------- the request, byte by byte

  /** One command: 0 for a read, 1 for a write, 4 for a touch, 5 for a bus reset, a zero byte, the
      length, and what is sent: the data of writes and touches, zeros for the others. */
  lemma CommandOnWire(c: Cmd, mem: seq<byte>)
    requires Within(c, mem) && c.len < 0x1_0000
    ensures EncCmd(Wire(c, DataOf(c, mem))) ==
      match c.typ
      case Read => [0, 0] + LowFirst(c.len, 2) + Zeros(c.len)
      case Write => [1, 0] + LowFirst(c.len, 2) + mem[c.addr..c.addr + c.len]
      case Touch => [4, 0] + LowFirst(c.len, 2) + mem[c.addr..c.addr + c.len]
      case BusReset => [5, 0] + LowFirst(c.len, 2) + Zeros(c.len)
      case WritePullup => [255, 0] + LowFirst(c.len, 2) + Zeros(c.len)
  {
    hide LowFirst, EncCmd, Zeros;
    MessagesOnWire(W1Msg(0, 0, Zeros(8), []), Wire(c, DataOf(c, mem)));
  }

  /** The w1 message: type 4 with the number of a master, or type 5 with the id of a slave. */
  lemma RequestOnWire(t: Target, cmds: seq<Cmd>, mem: seq<byte>)
    requires Sized(cmds, mem) && CmdsLen(cmds) < 0x1_0000
    ensures Small(cmds)
    ensures EncW1(RequestMsg(t, cmds, mem)) ==
      match t
      case Master(id) =>
        [4, 0] + LowFirst(CmdsLen(cmds), 2) + (LowFirst(id, 4) + Zeros(4)) + EncCmds(Wires(cmds, mem))
      case Slave(id8) => [5, 0] + LowFirst(CmdsLen(cmds), 2) + id8 + EncCmds(Wires(cmds, mem))
  {
    FittingIsSmall(cmds);
    var m := RequestMsg(t, cmds, mem);
    if t.Master? {
      LowFirst4(t.id);
    }
    assert m.data == EncCmds(Wires(cmds, mem));
    hide LowFirst, Le32, EncW1, EncCmds, Wires, Zeros;
    MessagesOnWire(m, W1Cmd(0, 0, []));
  }

  /** Listing requests: type 6 without data for masters; for slaves type 4 with the number of the master
      and one command, 2 for all of them or 3 for those with an alarm. */
  lemma ListRequestOnWire(w: Wanted)
    ensures EncW1(ListRequest(w)) ==
      match w
      case Masters => [6, 0, 0, 0, 0, 0, 0, 0, 0, 0, 0, 0]
      case Slaves(master, alarm) =>
        [4, 0, 4, 0] + LowFirst(master, 4) + [0, 0, 0, 0] + [if alarm then 3 else 2, 0, 0, 0]
  {
    assert Zeros(8) == [0, 0, 0, 0, 0, 0, 0, 0] && Zeros(4) == [0, 0, 0, 0];
    if w.Slaves? {
      LowFirst4(w.master);
    }
    assert Le16(0) == [0, 0] && Le16(4) == [4, 0];
    hide LowFirst, Le32, Zeros;
  }

  /** The datagram: a netlink frame of type 3 around a connector message to the w1 subsystem (3, 1),
      both with the sequence number, acked by all ones, padded to a multiple of four bytes. */
  lemma DatagramOnWire(no: u32, w1: Blob)
    requires Fits(SentFrame(no, w1))
    ensures EncNl(SentFrame(no, w1)) ==
      LowFirst(36 + |w1|, 4) + [3, 0] + [0, 0] + LowFirst(no, 4) + [0, 0, 0, 0]
      + ([3, 0, 0, 0] + [1, 0, 0, 0] + LowFirst(no, 4) + [255, 255, 255, 255] + LowFirst(|w1|, 2) + [0, 0] + w1)
      + Zeros((4 - |w1| % 4) % 4)
  {
    var pad, cn := (4 - |w1| % 4) % 4, CnHeader(3, 1, no, 0xffff_ffff, |w1|, 0);
    SentParts(no, w1, pad);
    hide *;
    SmallNumbers();
    NlHeaderOnWire(36 + |w1|, 3, 0, no, 0);
    CnHeaderOnWire(3, 1, no, 0xffff_ffff, |w1|, 0);
  }

  lemma SentParts(no: u32, w1: Blob, pad: nat)
    requires Fits(SentFrame(no, w1)) && pad == (4 - |w1| % 4) % 4
    ensures EncNl(SentFrame(no, w1))
         == NlHeader(36 + |w1|, 3, 0, no, 0) + (CnHeader(3, 1, no, 0xffff_ffff, |w1|, 0) + w1) + Zeros(pad)
  {
    hide NlHeader, CnHeader, Zeros;
    assert SentFrame(no, w1).payload == CnHeader(3, 1, no, 0xffff_ffff, |w1|, 0) + w1;
  }

  lemma SmallNumbers()
    ensures LowFirst(0, 2) == [0, 0] && LowFirst(3, 2) == [3, 0]
    ensures LowFirst(0, 4) == [0, 0, 0, 0] && LowFirst(1, 4) == [1, 0, 0, 0] && LowFirst(3, 4) == [3, 0, 0, 0]
    ensures LowFirst(0xffff_ffff, 4) == [255, 255, 255, 255]
  {
    LowFirst2(0);
    LowFirst2(3);
    LowFirst4(0);
    LowFirst4(1);
    LowFirst4(3);
    LowFirst4(0xffff_ffff);
  }

  // ---------------------------------------------------------------- executing, in place

  /** The exchange with w1msg_exec_cb as the callback, and the verdict on what it returned. */
  method ExchangeExec(cn: CnMsg, cmds: seq<Cmd>, mem: array<byte>, events: seq<Event>)
    returns (res: Option<Errc>)
    requires W1Ok(cn.data) && cn.data != [] && NoNoop(events) && Sized(cmds, mem[..])
    modifies mem
    ensures (var out := Loop(W1At(cn.data), cn.sq, CbStep, ExecState(cmds, Start(old(mem[..]))),
                             MoreReq, 0, events);
      && out.st.ExecState?
      && res == (if out.Done? then Some(Verified(out.err, out.st.exec.status)) else None)
      && mem[..] == out.st.exec.mem)
  {
    hide CbStep, W1At, W1Ok, NoNoop, Loop;
    var exec := new Exec(cmds, mem);
    var cb := ExecCb(exec);
    res := RecvW1Msg(cn, cb, events);
    if res.Some? {
      res := Some(Verified(res.value, exec.status));
    }
  }

  /** w1_msg_exec: request built and framed in place, replies received and matched in place. */
  method W1MsgExec(h: Handle, m: W1Message, events: seq<Event>) returns (res: Option<Errc>)
    requires m.Valid() && NoNoop(events)
    modifies h, m.mem
    ensures (res, m.mem[..]) == ExecRun(old(h.sq), m.target, m.cmds, old(m.mem[..]), events)
  {
    hide CbStep, EncW1, W1At, W1Ok, NoNoop, RequestMsg, Loop, CmdsLen;
    var msgBuf := new byte[MAX_W1MSG];
    var err, msgLen := BuildRequest(m.target, m.cmds, m.mem, msgBuf);
    if err != Success {
      return Some(err);
    }
    ghost var req := RequestMsg(m.target, m.cmds, m.mem[..]);
    var dgram, cn;
    err, dgram, cn := h.Frame(msgBuf[..msgLen]);
    if err != Success {
      return Some(err);
    }
    RequestReadsBack(req);
    res := ExchangeExec(cn, m.cmds, m.mem, events);
  }

  // ---------------------------------------------------------------- listing

  /** What can be listed: the bus masters, or the slaves of one of them, all or those with an alarm. */
  datatype Wanted = Masters | Slaves(master: u32, alarm: bool)

  const W1_CMD_SEARCH := 2
  const W1_CMD_ALARM_SEARCH := 3

  function SearchCmd(w: Wanted): byte {
    if w.Slaves? && w.alarm then W1_CMD_ALARM_SEARCH else W1_CMD_SEARCH
  }

  function ListRequest(w: Wanted): W1Msg {
    match w
    case Masters => W1Msg(W1_LIST_MASTERS, 0, Zeros(8), [])
    case Slaves(master, _) =>
      W1Msg(W1_MASTER_CMD, 0, Le32(master) + Zeros(4), EncCmd(W1Cmd(SearchCmd(w), 0, [])))
  }

  function ListKind(w: Wanted, max: nat): Kind {
    if w.Masters? then Kind(4, max, false, 0) else Kind(8, max, true, SearchCmd(w))
  }

  /** What a listing request returns over a run, and the callback data it ends with. */
  function ListRun(sq: u32, w: Wanted, list0: seq<Id>, events: seq<Event>): (Option<Errc>, LSt)
    requires NoNoop(events)
  {
    var start := LSt(list0, 0, 0, 0);
    var out := Loop(ListRequest(w), SeqOf(sq), CbStep, ListState(ListKind(w, |list0|), start), MoreReq, 0, events);
    if !out.st.ListState? then (None, start)
    else (if out.Done? then Some(Verified(out.err, out.st.lst.status)) else None, out.st.lst)
  }

  /** The answers to a listing request that reach its callback. */
  function AnswersHanded(sq: u32, w: Wanted, datagrams: seq<Event>): seq<(W1Msg, bool)> {
    Handed(ListKind(w, 0), Tagged(Answering(ListRequest(w), SeqOf(sq), datagrams)))
  }

  function IdsIn(w: Wanted, ms: seq<(W1Msg, bool)>): seq<Id> {
    Ids(ListKind(w, 0).elemSz, Through(ListKind(w, 0), ms))
  }

  /** list_w1_masters, search_w1_slaves and search_w1_alarms do what they promise: over any datagrams
      followed by silence they succeed exactly when anything answered and all answers handed to the
      callback were good; then as many of the ids in them as fit are at the front of the list, with
      the rest of it as before, and both numbers are right. */
  lemma ListDelivers(sq: u32, w: Wanted, list0: seq<Id>, datagrams: seq<Event>)
    requires AllPayload(datagrams) && |datagrams| < UINT_RANGE
    ensures NoNoop(datagrams + [Timeout])
    ensures var r := ListRun(sq, w, list0, datagrams + [Timeout]);
            var ms := AnswersHanded(sq, w, datagrams);
            var ids := IdsIn(w, ms);
            var n := Min(|ids|, |list0|);
            && (r.0 == Some(Success) <==> ms != [] && AllGood(ListKind(w, 0), ms))
            && (r.0 == Some(Success) ==> r.1 == LSt(ids[..n] + list0[n..], n, |ids|, 0))
  {
    hide Loop, CbStep, Answering, ListRequest, Through, AllGood, Handed, Ids;
    var kind := ListKind(w, |list0|);
    var all := Tagged(Answering(ListRequest(w), SeqOf(sq), datagrams));
    SameHanded(ListKind(w, 0), kind, all);
    SameThrough(ListKind(w, 0), kind, Handed(kind, all));
    ListingSucceedsIffGood(ListRequest(w), SeqOf(sq), kind, list0, datagrams);
  }

  lemma {:induction false} SameHanded(a: Kind, b: Kind, ms: seq<(W1Msg, bool)>)
    requires a.search == b.search && a.srchCmd == b.srchCmd
    ensures Handed(a, ms) == Handed(b, ms)
  {
    if ms != [] {
      SameHanded(a, b, ms[1..]);
    }
  }

  /** On any run of events whatever: when a listing succeeds, something answered before poll() timed out
      behind readable datagrams, all answers handed to the callback were good, and list and numbers
      are those of the ids in them. */
  lemma ListSuccessMeansListed(sq: u32, w: Wanted, list0: seq<Id>, events: seq<Event>)
    requires NoNoop(events) && ListRun(sq, w, list0, events).0 == Some(Success)
    ensures exists k: nat :: SilentAt(events, k) &&
              var ms := AnswersHanded(sq, w, events[..k]);
              var ids := IdsIn(w, ms);
              var n := Min(|ids|, |list0|);
              && ms != [] && AllGood(ListKind(w, 0), ms)
              && ListRun(sq, w, list0, events).1 == LSt(ids[..n] + list0[n..], n, |ids|, 0)
  {
    hide Loop, CbStep, CallBack, Answering, ListRequest, Through, AllGood, Handed, Ids;
    var req, kind, start := ListRequest(w), ListKind(w, |list0|), LSt(list0, 0, 0, 0);
    var k := EveryRunIsAWalk(req, SeqOf(sq), CbStep, ListState(kind, start), MoreReq, 0, events);
    var ds := Answering(req, SeqOf(sq), events[..k]);
    var ms := Handed(kind, Tagged(ds));
    AnsweringAnswers(req, SeqOf(sq), events[..k]);
    WalkIsListFeed(req, kind, start, MoreReq, ds);
    StatusIffGood(kind, start, MoreReq, Tagged(ds));
    SameHanded(ListKind(w, 0), kind, Tagged(ds));
    SameThrough(ListKind(w, 0), kind, ms);
    ListIsBoundedPrefix(kind, list0, MoreReq, ms);
    SomeHanded(kind, Tagged(ds));
  }

  lemma SomeHanded(kind: Kind, ms: seq<(W1Msg, bool)>)
    ensures Handed(kind, ms) == [] <==> ms == []
  {
  }

  /** An error report handed to the callback keeps a listing from succeeding, whatever comes later. */
  lemma ListErrorReportedNoSuccess(sq: u32, w: Wanted, list0: seq<Id>, events: seq<Event>, n: nat, j: nat)
    requires NoNoop(events) && n <= |events| && AllPayload(events[..n])
    requires var ds := Answering(ListRequest(w), SeqOf(sq), events[..n]);
             && j < |ds| && ds[j].ack == 0xffff_ffff && ds[j].msg.status != 0
             && HandedOn(ListRequest(w), ListKind(w, |list0|), list0, ds, j)
    ensures ListRun(sq, w, list0, events).0 != Some(Success)
  {
    hide ListRequest, ListKind, CbStep, Loop, CallBack, Answering, HandedOn, Answers;
    var req, kind := ListRequest(w), ListKind(w, |list0|);
    var st := ListState(kind, LSt(list0, 0, 0, 0));
    var k := EveryRunIsAWalk(req, SeqOf(sq), CbStep, st, MoreReq, 0, events);
    if ListRun(sq, w, list0, events).0 == Some(Success) {
      SilenceBehind(events, n, k);
      var ds, all := Answering(req, SeqOf(sq), events[..n]), Answering(req, SeqOf(sq), events[..k]);
      AnsweringPrefix(req, SeqOf(sq), events[..k], n);
      assert events[..k][..n] == events[..n];
      AnsweringAnswers(req, SeqOf(sq), events[..k]);
      assert all[..j] == ds[..j] && all[j] == ds[j];
      SameHandedOn(req, kind, list0, ds, all, j);
      ListNotesError(req, kind, list0, all, j);
    }
  }

  lemma SameHandedOn(req: W1Msg, kind: Kind, list0: seq<Id>, ds: seq<Delivery>, all: seq<Delivery>, j: nat)
    requires j < |ds| && j < |all| && all[..j] == ds[..j] && HandedOn(req, kind, list0, ds, j)
    ensures HandedOn(req, kind, list0, all, j)
  {
  }

  /** Over readable datagrams followed by silence it ends in a protocol error. */
  lemma ListErrorReportedFails(sq: u32, w: Wanted, list0: seq<Id>, datagrams: seq<Event>, j: nat)
    requires AllPayload(datagrams) && |datagrams| < UINT_RANGE
    requires var ds := Answering(ListRequest(w), SeqOf(sq), datagrams);
             && j < |ds| && ds[j].ack == 0xffff_ffff && ds[j].msg.status != 0
             && HandedOn(ListRequest(w), ListKind(w, |list0|), list0, ds, j)
    ensures NoNoop(datagrams + [Timeout])
    ensures ListRun(sq, w, list0, datagrams + [Timeout]).0 == Some(ProtoErr)
  {
    hide ListRequest, ListKind, CbStep, Loop, CallBack, HandedOn, Answers, AnsweringIn;
    var req, kind := ListRequest(w), ListKind(w, |list0|);
    RunIsOneWalk(req, SeqOf(sq), CbStep, ListState(kind, LSt(list0, 0, 0, 0)), MoreReq, 0, datagrams);
    AnsweringAnswers(req, SeqOf(sq), datagrams);
    ListNotesError(req, kind, list0, Answering(req, SeqOf(sq), datagrams), j);
  }

  /** The size of the list does not matter to what gets through to it. */
  lemma {:induction false} SameThrough(a: Kind, b: Kind, ms: seq<(W1Msg, bool)>)
    requires a.search == b.search && a.srchCmd == b.srchCmd
    ensures Through(a, ms) == Through(b, ms) && (AllGood(a, ms) <==> AllGood(b, ms))
  {
    if ms != [] {
      SameThrough(a, b, ms[1..]);
    }
  }

  /** list_w1_masters and __search_slaves: the listed and the overall number of elements are
      reported on success; the number listed is 0 otherwise. */
  method List(h: Handle, w: Wanted, list: array<Id>, events: seq<Event>)
    returns (res: Option<Errc>, sz: nat, overall: nat)
    requires NoNoop(events)
    modifies h, list
    ensures var r := ListRun(old(h.sq), w, old(list[..]), events);
            && res == r.0 && list[..] == r.1.list
            && (res == Some(Success) ==> sz == r.1.nElems && overall == r.1.nRecv)
            && (res != Some(Success) ==> sz == 0)
  {
    hide CbStep, EncW1, W1At, Unframed, StripNl, Loop;
    var req := ListRequest(w);
    var err, dgram, cn := h.Frame(EncW1(req));
    RequestReadsBack(req);
    var lister := new Lister(ListKind(w, list.Length), list);
    res := RecvW1Msg(cn, ListCb(lister), events);
    sz, overall := 0, 0;
    if res.Some? {
      res := Some(Verified(res.value, lister.status));
      if res.value == Success {
        sz, overall := lister.nElems, lister.nRecvElems;
      }
    }
  }
}
