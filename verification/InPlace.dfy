/** The receive buffer: two passes that rewrite the part of the byte array they have already read,
    and the callbacks of the third. */
module InPlace {
  import opened Bytes
  import opened Frames
  import opened AckWalk

  const MAX_W1_NETLINK_MSG_SZ := 0x1000 + NLMSG_HDRLEN

  datatype More = NoMore | MoreReq | MoreOpt

  lemma PrependAgain(a: seq<byte>, b: seq<byte>, s: Stripped)
    ensures Prepend(a, Prepend(b, s)) == Prepend(a + b, s)
  {
    if s.Payload? {
      assert a + (b + s.bytes) == (a + b) + s.bytes;
    }
  }

  /** Appends the payload of the frame at `pos`, of length `len`, to the `offs` bytes moved so far. */
  method MovePayload(buf: array<byte>, offs: nat, pos: nat, len: nat)
    requires offs <= pos && NLMSG_HDRLEN <= len && pos + len <= buf.Length
    modifies buf
    ensures buf[..offs + len - NLMSG_HDRLEN]
         == old(buf[..offs]) + old(buf[pos + NLMSG_HDRLEN..pos + len])
    ensures buf[pos + len..] == old(buf[pos + len..])
  {
    var count := len - NLMSG_HDRLEN;
    if len > NLMSG_HDRLEN {
      CopyDown(buf, offs, pos + NLMSG_HDRLEN, count);
    }
    assert buf[..offs + count] == buf[..offs] + buf[offs..offs + count];
    TailAgrees(old(buf[..]), buf[..], offs + count, pos + len, 0);
  }

  /** What the parser makes of unread bytes `d`, with `front` moved before them. */
  lemma FrameStep(front: seq<byte>, d: seq<byte>)
    ensures !NlOk(d) ==> Prepend(front, StripNl(d)) == Payload(front)
    ensures NlOk(d) ==>
      var typ, flags := U16At(d, 4), U16At(d, 6);
      var moved := front + d[NLMSG_HDRLEN..U32At(d, 0)];
      Prepend(front, StripNl(d)) ==
        if typ == NLMSG_NOOP then Stuck
        else if typ == NLMSG_ERROR then Failed(ProtoErr)
        else if typ == NLMSG_DONE then Payload(moved)
        else if MultiFlag(flags) then Prepend(moved, StripNl(NlRest(d)))
        else Failed(BadMsg)
  {
    if NlOk(d) {
      PrependAgain(front, d[NLMSG_HDRLEN..U32At(d, 0)], StripNl(NlRest(d)));
    } else {
      assert front + [] == front;
    }
  }

  lemma NothingMoved(s: Stripped)
    ensures Prepend([], s) == s
    ensures forall front :: Prepend(front, Stuck) == Stuck
    ensures forall front, e :: Prepend(front, Failed(e)) == Failed(e)
  {
    if s.Payload? {
      assert [] + s.bytes == s.bytes;
    }
  }

  /** Once a frame is dealt with, what NLMSG_ALIGN skips to is untouched. */
  lemma NextFrame(c: seq<byte>, c': seq<byte>, pos: nat, n: nat, len: nat)
    requires pos <= n <= |c| == |c'| && NlOk(c[pos..n]) && len == U32At(c[pos..n], 0)
    requires c'[pos + len..] == c[pos + len..]
    ensures NlRest(c[pos..n]) == if pos + Align4(len) <= n then c'[pos + Align4(len)..n] else []
  {
    var a := Align4(len);
    if pos + a <= n {
      SubSlice(c', pos + len, |c'|, a - len, n - pos - len);
      SubSlice(c, pos + len, |c|, a - len, n - pos - len);
      assert c[pos..n][a..] == c[pos + a..n];
    }
  }

  /** One frame: its payload is moved, and the unread rest stays as it was. */
  method TakeFrame(buf: array<byte>, offs: nat, pos: nat, n: nat, len: nat) returns (offs': nat)
    requires offs <= pos <= n <= buf.Length && NlOk(buf[pos..n]) && len == U32At(buf[pos..n], 0)
    modifies buf
    ensures offs' == offs + len - NLMSG_HDRLEN
    ensures buf[..offs'] == old(buf[..offs]) + old(buf[pos..n][NLMSG_HDRLEN..len])
    ensures NlRest(old(buf[pos..n])) == if pos + Align4(len) <= n then buf[pos + Align4(len)..n] else []
  {
    hide NlRest, U32At, Align4;
    ghost var c := buf[..];
    assert c[pos..n] == buf[pos..n];
    SubSlice(c, pos, n, NLMSG_HDRLEN, len);
    MovePayload(buf, offs, pos, len);
    assert buf[..][pos + len..] == c[pos + len..];
    NextFrame(c, buf[..], pos, n, len);
    offs' := offs + (len - NLMSG_HDRLEN);
  }

  /** First pass: the payloads of the netlink chain in `buf[..n]` are moved together at the front. */
  method StripHeaders(buf: array<byte>, n: nat) returns (err: Errc, offs: nat)
    requires n <= buf.Length
    requires StripNl(buf[..n]) != Stuck
    modifies buf
    ensures err == Success ==> offs <= n && StripNl(old(buf[..n])) == Payload(buf[..offs])
    ensures err != Success ==> StripNl(old(buf[..n])) == Failed(err)
  {
    hide StripNl, NlRest, MultiFlag, U16At, U32At, Align4, Prepend;
    ghost var d := buf[..n];
    NothingMoved(StripNl(d));
    ghost var unread := d;
    var pos, left: int := 0, n;
    offs := 0;
    assert buf[..offs] == [];
    while left >= 0 && NlOk(buf[pos..n])
      invariant offs <= pos && offs <= n && pos + left == n
      invariant unread == if left >= 0 then buf[pos..n] else []
      invariant StripNl(d) == Prepend(buf[..offs], StripNl(unread))
      decreases left
    {
      var header := buf[pos..n];
      var len, typ, flags := U32At(header, 0), U16At(header, 4), U16At(header, 6);
      FrameStep(buf[..offs], unread);
      if typ == NLMSG_ERROR {
        return ProtoErr, offs;
      }
      if typ != NLMSG_DONE && !MultiFlag(flags) {
        return BadMsg, offs;
      }
      offs := TakeFrame(buf, offs, pos, n, len);
      if typ == NLMSG_DONE {
        return Success, offs;
      }
      unread := NlRest(unread);
      left := left - Align4(len);
      pos := pos + Align4(len);
    }
    FrameStep(buf[..offs], unread);
    err := Success;
  }

  lemma ParsedHead(d: seq<byte>, m: CnMsg, rest: seq<byte>)
    requires CnOk(d) && m == CnAt(d) && rest == d[CN_HDRLEN + |m.data|..]
    ensures ParseCn(d) == [m] + ParseCn(rest)
  {
    CnSize(d);
    hide CnAt, U16At, CnOk;
    assert rest == d[CN_HDRLEN + U16At(d, 16)..];
  }

  lemma CnSize(d: seq<byte>)
    requires CnOk(d)
    ensures |CnAt(d).data| == U16At(d, 16)
  {
  }

  lemma StreamHead(m: CnMsg, ms: seq<CnMsg>, sq: u32)
    ensures AckStream([m] + ms, sq) == (if Kept(m, sq) then Acked(m) else []) + AckStream(ms, sq)
  {
    assert ([m] + ms)[1..] == ms;
  }

  lemma ConnectorStep(front: seq<byte>, d: seq<byte>, m: CnMsg, rest: seq<byte>, sq: u32)
    requires CnOk(d) && m == CnAt(d) && rest == d[CN_HDRLEN + |m.data|..]
    ensures front + AckStream(ParseCn(d), sq)
         == (if Kept(m, sq) then front + Acked(m) else front) + AckStream(ParseCn(rest), sq)
  {
    ParsedHead(d, m, rest);
    StreamHead(m, ParseCn(rest), sq);
    hide AckStream, ParseCn, Acked, Kept, CnAt, CnOk;
    var tail := AckStream(ParseCn(rest), sq);
    Associate(front, Acked(m), tail);
    assert [] + tail == tail;
  }

  lemma NothingKept(d: seq<byte>, sq: u32)
    requires !CnOk(d)
    ensures AckStream(ParseCn(d), sq) == []
  {
  }

  lemma HeadData(c: seq<byte>, pos: nat, n: nat, m: CnMsg)
    requires pos <= n <= |c| && CnOk(c[pos..n]) && m == CnAt(c[pos..n])
    ensures |m.data| == U16At(c[pos..n], 16) && pos + CN_HDRLEN + |m.data| <= n
    ensures c[pos + CN_HDRLEN..pos + CN_HDRLEN + |m.data|] == m.data
  {
  }

  /** What is behind a message is kept, and so is what is unread of it. */
  lemma RestKept(c: seq<byte>, c': seq<byte>, pos: nat, n: nat, size: nat)
    requires pos + size <= n <= |c| == |c'| && c'[pos + size..] == c[pos + size..]
    ensures c'[pos + size..n] == c[pos..n][size..]
  {
    SubSlice(c, pos, n, size, n - pos);
    SubSlice(c', pos + size, |c'|, 0, n - pos - size);
    SubSlice(c, pos + size, |c|, 0, n - pos - size);
  }

  /** One connector message: it goes into the stream if it is kept, and the unread rest stays as it was. */
  method TakeConnector(buf: array<byte>, offs: nat, pos: nat, n: nat, m: CnMsg, sq: u32) returns (offs': nat)
    requires offs <= pos <= n <= buf.Length && CnOk(buf[pos..n]) && m == CnAt(buf[pos..n])
    modifies buf
    ensures pos + CN_HDRLEN + |m.data| <= n && offs' <= pos + CN_HDRLEN + |m.data|
    ensures buf[..offs'] == old(buf[..offs]) + if Kept(m, sq) then Acked(m) else []
    ensures buf[pos + CN_HDRLEN + |m.data|..n] == old(buf[pos..n])[CN_HDRLEN + |m.data|..]
  {
    hide CnAt, Acked, Kept, CnOk;
    ghost var c := buf[..];
    assert c[pos..n] == buf[pos..n];
    HeadData(c, pos, n, m);
    var next := pos + CN_HDRLEN + |m.data|;
    offs' := offs;
    if Kept(m, sq) {
      WriteAcked(buf, offs, pos, m);
      offs' := offs + 4 + |m.data|;
    }
    assert buf[..][next..] == c[next..];
    RestKept(c, buf[..], pos, n, CN_HDRLEN + |m.data|);
    assert buf[next..n] == buf[..][next..n];
  }

  /** Second pass: of the connector messages in `buf[..n]`, the kept ones are replaced by their ack
      and their data. */
  method FilterConnector(buf: array<byte>, n: nat, sq: u32) returns (offs: nat)
    requires n <= buf.Length
    modifies buf
    ensures offs <= n && buf[..offs] == AckStream(ParseCn(old(buf[..n])), sq)
  {
    hide AckStream, ParseCn, CnAt, CnOk, Acked, Kept;
    ghost var d := buf[..n];
    ghost var unread := d;
    var pos, left := 0, n;
    offs := 0;
    assert buf[..offs] == [];
    while CnOk(buf[pos..n])
      invariant offs <= pos <= n && pos + left == n
      invariant unread == buf[pos..n]
      invariant AckStream(ParseCn(d), sq) == buf[..offs] + AckStream(ParseCn(unread), sq)
      decreases left
    {
      var m := CnAt(buf[pos..n]);
      var size := CN_HDRLEN + |m.data|;
      HeadData(buf[..], pos, n, m);
      ConnectorStep(buf[..offs], unread, m, unread[size..], sq);
      offs := TakeConnector(buf, offs, pos, n, m, sq);
      unread := unread[size..];
      left := left - size;
      pos := pos + size;
    }
    NothingKept(unread, sq);
  }

  /** Ack and data of the connector message at `pos` written at `offs`; what lies behind the message
      is left alone. */
  method WriteAcked(buf: array<byte>, offs: nat, pos: nat, m: CnMsg)
    requires offs <= pos && pos + CN_HDRLEN + |m.data| <= buf.Length
    requires buf[pos + CN_HDRLEN..pos + CN_HDRLEN + |m.data|] == m.data
    modifies buf
    ensures buf[..offs + 4 + |m.data|] == old(buf[..offs]) + Acked(m)
    ensures buf[pos + CN_HDRLEN + |m.data|..] == old(buf[pos + CN_HDRLEN + |m.data|..])
  {
    hide Le32, U32At;
    var from, size := pos + CN_HDRLEN, |m.data|;
    var ack := Le32(m.ack);
    ghost var c0 := buf[..];
    CopyIn(buf, offs, ack);
    ghost var c1 := buf[..];
    TailAgrees(c0, c1, offs + 4, from, size);
    CopyDown(buf, offs + 4, from, size);
    ghost var c2 := buf[..];
    TailAgrees(c1, c2, offs + 4 + size, from + size, 0);
    TwoBlocks(c0, c1, c2, offs, ack, m.data);
  }

  lemma TwoBlocks(c0: seq<byte>, c1: seq<byte>, c2: seq<byte>, k: nat, a: seq<byte>, b: seq<byte>)
    requires k + |a| + |b| <= |c0| == |c1| == |c2|
    requires c1[..k] == c0[..k] && c1[k..k + |a|] == a
    requires c2[..k + |a|] == c1[..k + |a|] && c2[k + |a|..k + |a| + |b|] == b
    ensures c2[..k + |a| + |b|] == c0[..k] + (a + b)
  {
    assert c2[..k + |a| + |b|] == c2[..k + |a|] + c2[k + |a|..k + |a| + |b|];
    assert c1[..k + |a|] == c1[..k] + c1[k..k + |a|];
    assert c0[..k] + a + b == c0[..k] + (a + b);
  }

  lemma TailAgrees(a: seq<byte>, b: seq<byte>, k: nat, from: nat, size: nat)
    requires |a| == |b| && k <= from && from + size <= |a| && a[k..] == b[k..]
    ensures a[from..from + size] == b[from..from + size] && a[from + size..] == b[from + size..]
  {
    SubSlice(a, k, |a|, from - k, from - k + size);
    SubSlice(b, k, |b|, from - k, from - k + size);
    SubSlice(a, k, |a|, from - k + size, |a| - k);
    SubSlice(b, k, |b|, from - k + size, |a| - k);
  }

  // ---------------------------------------------------------------- third pass, as a function

  /** A w1 message is a status report when its ack is the value the request was sent with. */
  predicate IsStatus(d: Delivery) { d.ack == ACK_STAT_VAL }

  /** Calling back for each delivery that answers the request, until a callback says "no more".
      The callback is a function from its private data and a message. */
  function CallBack<S>(req: W1Msg, step: (S, W1Msg, bool) -> (S, More), st: S, more: More,
                       ds: seq<Delivery>): (S, More)
    decreases |ds|
  {
    if ds == [] then (st, more)
    else if Answers(req, ds[0].msg) && more != NoMore then
      var r := step(st, ds[0].msg, IsStatus(ds[0]));
      CallBack(req, step, r.0, r.1, ds[1..])
    else CallBack(req, step, st, more, ds[1..])
  }

  lemma DispatchStep<S>(req: W1Msg, step: (S, W1Msg, bool) -> (S, More), st: S, more: More,
                        f: seq<byte>, d: Delivery, rest: seq<byte>)
    requires AckedOk(f) && d == AckedAt(f) && rest == f[AckedLen(f)..]
    ensures CallBack(req, step, st, more, WalkAcked(f))
         == if Answers(req, d.msg) && more != NoMore then
              CallBack(req, step, step(st, d.msg, IsStatus(d)).0, step(st, d.msg, IsStatus(d)).1,
                       WalkAcked(rest))
            else CallBack(req, step, st, more, WalkAcked(rest))
  {
    assert ([d] + WalkAcked(rest))[1..] == WalkAcked(rest);
  }

  lemma NothingDelivered<S>(req: W1Msg, step: (S, W1Msg, bool) -> (S, More), st: S, more: More,
                            f: seq<byte>)
    requires !AckedOk(f)
    ensures CallBack(req, step, st, more, WalkAcked(f)) == (st, more)
  {
  }

  // ---------------------------------------------------------------- facts about the callbacks

  /** Only answering deliveries matter. */
  lemma {:induction false} CallBackFiltered<S>(
      req: W1Msg, step: (S, W1Msg, bool) -> (S, More), st: S, more: More, ds: seq<Delivery>)
    ensures CallBack(req, step, st, more, ds) == CallBack(req, step, st, more, ForRequest(req, ds))
    decreases |ds|
  {
    if ds == [] {
    } else {
      var r := step(st, ds[0].msg, IsStatus(ds[0]));
      var rest := ForRequest(req, ds[1..]);
      if Answers(req, ds[0].msg) {
        assert ForRequest(req, ds) == [ds[0]] + rest;
        assert ([ds[0]] + rest)[1..] == rest;
        CallBackFiltered(req, step, r.0, r.1, ds[1..]);
        CallBackFiltered(req, step, st, more, ds[1..]);
      } else {
        assert ForRequest(req, ds) == rest;
        CallBackFiltered(req, step, st, more, ds[1..]);
      }
    }
  }

  /** After "no more" the private data is never touched again. */
  lemma {:induction false} SilentAfterNoMore<S>(
      req: W1Msg, step: (S, W1Msg, bool) -> (S, More), st: S, ds: seq<Delivery>)
    ensures CallBack(req, step, st, NoMore, ds) == (st, NoMore)
  {
    if ds == [] {
    } else {
      SilentAfterNoMore(req, step, st, ds[1..]);
    }
  }

  lemma {:induction false} CallBackAppend<S>(
      req: W1Msg, step: (S, W1Msg, bool) -> (S, More), st: S, more: More,
      xs: seq<Delivery>, ys: seq<Delivery>)
    ensures var r := CallBack(req, step, st, more, xs);
            CallBack(req, step, st, more, xs + ys) == CallBack(req, step, r.0, r.1, ys)
    decreases |xs|
  {
    if xs == [] {
      assert xs + ys == ys;
    } else {
      assert (xs + ys)[1..] == xs[1..] + ys;
      var r := step(st, xs[0].msg, IsStatus(xs[0]));
      CallBackAppend(req, step, r.0, r.1, xs[1..], ys);
      CallBackAppend(req, step, st, more, xs[1..], ys);
    }
  }
}
