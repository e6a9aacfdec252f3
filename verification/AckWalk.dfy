/** From connector messages to callbacks: the intermediate "ack, w1 message" stream the receive
    path builds, the walk over it, and what a layer-by-layer parser would report instead. */
module AckWalk {
  import opened Bytes
  import opened Frames

  const ACKED_HDRLEN := 4 + W1_HDRLEN

  function Acked(m: CnMsg): seq<byte> {
    Le32(m.ack) + m.data
  }

  /** Each kept connector message becomes its 4-byte ack followed by its data. */
  function AckStream(ms: seq<CnMsg>, sq: u32): seq<byte> {
    if ms == [] then []
    else (if Kept(ms[0], sq) then Acked(ms[0]) else []) + AckStream(ms[1..], sq)
  }

  /** __ACK_W1MSG_OK; as for the connector, a length field is consulted only behind a whole header. */
  predicate AckedOk(f: seq<byte>) {
    |f| >= ACKED_HDRLEN && |f| >= ACKED_HDRLEN + U16At(f, 6)
  }

  function AckedLen(f: seq<byte>): nat
    requires AckedOk(f)
  {
    ACKED_HDRLEN + U16At(f, 6)
  }

  function AckedAt(f: seq<byte>): Delivery
    requires AckedOk(f)
  {
    Delivery(U32At(f, 0), W1Msg(f[4], f[5], f[8..ACKED_HDRLEN], f[ACKED_HDRLEN..AckedLen(f)]))
  }

  /** The third pass: every step takes one ack and one w1 message. */
  function WalkAcked(f: seq<byte>): seq<Delivery> {
    if !AckedOk(f) then [] else [AckedAt(f)] + WalkAcked(f[AckedLen(f)..])
  }

  /** What the receive path makes of one datagram's payload. */
  function Delivered(payload: seq<byte>, sq: u32): seq<Delivery> {
    WalkAcked(AckStream(ParseCn(payload), sq))
  }

  // ---------------------------------------------------------------- the layered reference parser

  function WithAck(ack: u32, ws: seq<W1Msg>): seq<Delivery> {
    seq(|ws|, i requires 0 <= i < |ws| => Delivery(ack, ws[i]))
  }

  function Layer(m: CnMsg, sq: u32): seq<Delivery> {
    if Kept(m, sq) then WithAck(m.ack, ParseW1(m.data)) else []
  }

  function Layered(ms: seq<CnMsg>, sq: u32): seq<Delivery> {
    if ms == [] then [] else Layer(ms[0], sq) + Layered(ms[1..], sq)
  }

  /** The data of a connector message is exactly one w1 message. */
  predicate One(m: CnMsg) {
    W1Ok(m.data) && |m.data| == W1_HDRLEN + U16At(m.data, 2)
  }

  predicate OnePerMessage(ms: seq<CnMsg>, sq: u32) {
    forall m <- ms :: Kept(m, sq) ==> One(m)
  }

  lemma AckedHead(m: CnMsg, rest: seq<byte>)
    requires W1Ok(m.data)
    ensures var f := Acked(m) + rest;
            && AckedOk(f) && AckedLen(f) == 4 + W1_HDRLEN + U16At(m.data, 2)
            && AckedAt(f) == Delivery(m.ack, W1At(m.data))
  {
    var f := Acked(m) + rest;
    assert f[0..4] == Le32(m.ack);
    assert f[6..8] == m.data[2..4];
    FieldsOf(f, 0);
    FieldsOf(f, 6);
    FieldsOf(m.data, 2);
    assert f[8..ACKED_HDRLEN] == m.data[4..W1_HDRLEN];
    assert f[ACKED_HDRLEN..ACKED_HDRLEN + U16At(m.data, 2)]
        == m.data[W1_HDRLEN..W1_HDRLEN + U16At(m.data, 2)];
  }

  lemma OneLayer(m: CnMsg, sq: u32)
    requires Kept(m, sq) && One(m)
    ensures Layer(m, sq) == [Delivery(m.ack, W1At(m.data))]
  {
    var w := W1At(m.data);
    assert m.data[W1_HDRLEN + U16At(m.data, 2)..] == [];
    assert ParseW1(m.data) == [w];
  }

  /** With one w1 message in each kept connector message, the flat walk reports exactly what the
      layered parser reports. */
  lemma {:induction false} WalkRefinesLayers(ms: seq<CnMsg>, sq: u32)
    requires OnePerMessage(ms, sq)
    ensures WalkAcked(AckStream(ms, sq)) == Layered(ms, sq)
  {
    if ms == [] {
    } else {
      var rest := AckStream(ms[1..], sq);
      WalkRefinesLayers(ms[1..], sq);
      if Kept(ms[0], sq) {
        AckedHead(ms[0], rest);
        OneLayer(ms[0], sq);
        var f := Acked(ms[0]) + rest;
        assert AckStream(ms, sq) == f;
        assert f[AckedLen(f)..] == rest;
      } else {
        assert AckStream(ms, sq) == rest;
      }
    }
  }

  // ---------------------------------------------------------------- exactly when it refines

  /** Nothing is left of the data behind its w1 messages. */
  predicate Whole(d: seq<byte>)
    decreases |d|
  {
    d == [] || (W1Ok(d) && Whole(d[W1_HDRLEN + U16At(d, 2)..]))
  }

  /** What some deliveries take up in an ack stream, one ack to each w1 message. */
  function Space(ds: seq<Delivery>): nat {
    if ds == [] then 0 else ACKED_HDRLEN + |ds[0].msg.data| + Space(ds[1..])
  }

  lemma {:induction false} SpaceAppend(xs: seq<Delivery>, ys: seq<Delivery>)
    ensures Space(xs + ys) == Space(xs) + Space(ys)
  {
    if xs == [] {
      assert xs + ys == ys;
    } else {
      SpaceAppend(xs[1..], ys);
      assert (xs + ys)[1..] == xs[1..] + ys;
    }
  }

  lemma {:induction false} WalkedSpace(f: seq<byte>)
    ensures Space(WalkAcked(f)) <= |f|
    decreases |f|
  {
    if AckedOk(f) {
      WalkedSpace(f[AckedLen(f)..]);
      assert WalkAcked(f)[1..] == WalkAcked(f[AckedLen(f)..]);
    }
  }

  /** Every w1 message but one would need an ack that is not there. */
  lemma {:induction false} LayerSpace(ack: u32, d: seq<byte>)
    requires Whole(d)
    ensures Space(WithAck(ack, ParseW1(d))) == 4 * |ParseW1(d)| + |d|
    ensures |ParseW1(d)| == 0 <==> d == []
    decreases |d|
  {
    if d != [] {
      var rest := d[W1_HDRLEN + U16At(d, 2)..];
      LayerSpace(ack, rest);
      assert WithAck(ack, ParseW1(d))[1..] == WithAck(ack, ParseW1(rest));
    }
  }

  lemma {:induction false} LayeredSpace(ms: seq<CnMsg>, sq: u32)
    requires forall m <- ms :: Kept(m, sq) ==> Whole(m.data)
    ensures Space(Layered(ms, sq)) >= |AckStream(ms, sq)|
    ensures Space(Layered(ms, sq)) == |AckStream(ms, sq)| ==> OnePerMessage(ms, sq)
    decreases |ms|
  {
    if ms == [] {
    } else {
      var m := ms[0];
      assert m in ms && ms == [m] + ms[1..];
      LayeredSpace(ms[1..], sq);
      SpaceAppend(Layer(m, sq), Layered(ms[1..], sq));
      if Kept(m, sq) {
        LayerSpace(m.ack, m.data);
        if |ParseW1(m.data)| == 1 {
          assert ParseW1(m.data[W1_HDRLEN + U16At(m.data, 2)..]) == [];
          LayerSpace(m.ack, m.data[W1_HDRLEN + U16At(m.data, 2)..]);
          assert One(m);
        }
      }
    }
  }

  /** The third pass reports exactly the acks and w1 messages a layer-by-layer parser reports if and
      only if each kept connector message holds exactly one w1 message, kept messages being made of
      whole w1 messages. */
  lemma WalkRefinesIffOnePerMessage(ms: seq<CnMsg>, sq: u32)
    requires forall m <- ms :: Kept(m, sq) ==> Whole(m.data)
    ensures WalkAcked(AckStream(ms, sq)) == Layered(ms, sq) <==> OnePerMessage(ms, sq)
  {
    if OnePerMessage(ms, sq) {
      WalkRefinesLayers(ms, sq);
    } else {
      WalkedSpace(AckStream(ms, sq));
      LayeredSpace(ms, sq);
    }
  }

  /** Two w1 messages in one connector message: the second one is lost on the walk. */
  lemma TwoPerMessageExample(w: W1Msg)
    requires w.data == []
    ensures var m := CnMsg(CN_W1_IDX, CN_W1_VAL, 7, 0, 0, EncW1(w) + EncW1(w));
            && |Layered([m], 7)| == 2
            && |WalkAcked(AckStream([m], 7))| == 1
  {
    var d := EncW1(w) + EncW1(w);
    var m := CnMsg(CN_W1_IDX, CN_W1_VAL, 7, 0, 0, d);
    W1Head(w, EncW1(w));
    W1RoundTrip(w);
    assert ParseW1(d) == [w, w];
    assert Layered([m], 7) == Layer(m, 7) == WithAck(0, [w, w]);
    var f := Acked(m);
    assert AckStream([m], 7) == f;
    AckedHead(m, []);
    assert f + [] == f;
    assert |f[AckedLen(f)..]| == 12;
  }

  /** Whole w1 messages matter: a stray byte behind the last one is read over by both. */
  lemma StrayByteExample(w: W1Msg, x: byte)
    requires w.data == []
    ensures var m := CnMsg(CN_W1_IDX, CN_W1_VAL, 7, 0, 0, EncW1(w) + [x]);
            && !OnePerMessage([m], 7)
            && WalkAcked(AckStream([m], 7)) == Layered([m], 7) == [Delivery(0, w)]
  {
    var m := CnMsg(CN_W1_IDX, CN_W1_VAL, 7, 0, 0, EncW1(w) + [x]);
    W1Head(w, [x]);
    assert m in [m];
    assert ParseW1([x]) == [] && ParseW1(m.data) == [w];
    assert Layered([m], 7) == Layer(m, 7) == WithAck(0, [w]);
    var f := Acked(m);
    AckedHead(m, []);
    assert AckStream([m], 7) == f == f + [];
    assert f[AckedLen(f)..] == [x];
  }

  // ---------------------------------------------------------------- foreign traffic

  /** The deliveries that reach the callback: those that answer the request. */
  function ForRequest(req: W1Msg, ds: seq<Delivery>): seq<Delivery> {
    if ds == [] then [] else Only(req, ds[0]) + ForRequest(req, ds[1..])
  }

  function Only(req: W1Msg, d: Delivery): seq<Delivery> {
    if Answers(req, d.msg) then [d] else []
  }

  lemma {:induction false} LayeredAppend(xs: seq<CnMsg>, ys: seq<CnMsg>, sq: u32)
    ensures Layered(xs + ys, sq) == Layered(xs, sq) + Layered(ys, sq)
  {
    hide Layer;
    if xs == [] {
      assert xs + ys == ys;
    } else {
      LayeredAppend(xs[1..], ys, sq);
      assert (xs + ys)[1..] == xs[1..] + ys;
      Associate(Layer(xs[0], sq), Layered(xs[1..], sq), Layered(ys, sq));
    }
  }

  lemma {:induction false} ForRequestAppend(req: W1Msg, xs: seq<Delivery>, ys: seq<Delivery>)
    ensures ForRequest(req, xs + ys) == ForRequest(req, xs) + ForRequest(req, ys)
  {
    hide Only;
    if xs == [] {
      assert xs + ys == ys;
    } else {
      ForRequestAppend(req, xs[1..], ys);
      assert (xs + ys)[1..] == xs[1..] + ys;
      Associate(Only(req, xs[0]), ForRequest(req, xs[1..]), ForRequest(req, ys));
    }
  }

  /** Nothing a callback should see: another subsystem, another sequence number, no data, or a
      w1 message that does not answer the request. */
  predicate Foreign(m: CnMsg, req: W1Msg, sq: u32) {
    Kept(m, sq) ==> One(m) && !Answers(req, W1At(m.data))
  }

  /** What gets through of a connector message that holds one w1 message: it has to come from the w1
      subsystem (3, 1) with the sequence number asked for, be of the type of the request, and for
      master commands (4) be of the same master, for slave commands (5) of the same slave. */
  lemma VisibleIff(m: CnMsg, req: W1Msg, sq: u32)
    requires One(m)
    ensures ForRequest(req, WalkAcked(AckStream([m], sq))) ==
      var w := W1At(m.data);
      if m.idx == 3 && m.val == 1 && m.sq == sq && w.typ == req.typ
         && (req.typ == 4 ==>
              w.id[0] == req.id[0] && w.id[1] == req.id[1] && w.id[2] == req.id[2] && w.id[3] == req.id[3])
         && (req.typ == 5 ==> w.id == req.id)
      then [Delivery(m.ack, w)] else []
  {
    var w := W1At(m.data);
    WalkRefinesLayers([m], sq);
    assert Layered([m], sq) == Layer(m, sq);
    assert w.id[..4] == req.id[..4] <==>
      w.id[0] == req.id[0] && w.id[1] == req.id[1] && w.id[2] == req.id[2] && w.id[3] == req.id[3];
    hide WalkAcked, AckStream, Layered, ParseW1;
    if Kept(m, sq) {
      OneLayer(m, sq);
      assert [Delivery(m.ack, w)][1..] == [];
    }
  }

  lemma {:induction false} ForeignVanishes(ys: seq<CnMsg>, req: W1Msg, sq: u32)
    requires forall y <- ys :: Foreign(y, req, sq)
    ensures ForRequest(req, Layered(ys, sq)) == []
  {
    if ys == [] {
    } else {
      assert Foreign(ys[0], req, sq);
      ForeignVanishes(ys[1..], req, sq);
      if Kept(ys[0], sq) {
        OneLayer(ys[0], sq);
        ForRequestAppend(req, Layer(ys[0], sq), Layered(ys[1..], sq));
      } else {
        assert Layered(ys, sq) == Layered(ys[1..], sq);
      }
    }
  }

  lemma FramesDeliver(fs: seq<NlFrame>, ms: seq<CnMsg>, sq: u32)
    requires Chain(fs) && Payloads(fs) == EncCns(ms)
    requires OnePerMessage(ms, sq)
    ensures StripNl(EncNls(fs)) == Payload(EncCns(ms))
    ensures Delivered(EncCns(ms), sq) == Layered(ms, sq)
  {
    ChainRoundTrip(fs);
    CnsRoundTrip(ms);
    WalkRefinesLayers(ms, sq);
  }

  lemma {:induction false} ForeignInBetween(
      xs: seq<CnMsg>, ys: seq<CnMsg>, zs: seq<CnMsg>, req: W1Msg, sq: u32)
    requires forall y <- ys :: Foreign(y, req, sq)
    ensures ForRequest(req, Layered(xs + ys + zs, sq)) == ForRequest(req, Layered(xs + zs, sq))
  {
    if xs == [] {
      assert xs + ys + zs == ys + zs && xs + zs == zs;
      LayeredAppend(ys, zs, sq);
      ForRequestAppend(req, Layered(ys, sq), Layered(zs, sq));
      ForeignVanishes(ys, req, sq);
    } else {
      assert (xs + ys + zs)[1..] == xs[1..] + ys + zs && (xs + zs)[1..] == xs[1..] + zs;
      ForeignInBetween(xs[1..], ys, zs, req, sq);
      ForRequestAppend(req, Layer(xs[0], sq), Layered(xs[1..] + ys + zs, sq));
      ForRequestAppend(req, Layer(xs[0], sq), Layered(xs[1..] + zs, sq));
    }
  }

  /** Foreign connector messages inserted anywhere, under any packing into netlink frames, leave
      what the callback sees unchanged. */
  lemma ForeignTrafficIsInvisible(
      xs: seq<CnMsg>, ys: seq<CnMsg>, zs: seq<CnMsg>, req: W1Msg, sq: u32,
      fs: seq<NlFrame>, gs: seq<NlFrame>)
    requires Chain(fs) && Payloads(fs) == EncCns(xs + zs)
    requires Chain(gs) && Payloads(gs) == EncCns(xs + ys + zs)
    requires OnePerMessage(xs + zs, sq)
    requires forall y <- ys :: Foreign(y, req, sq)
    ensures StripNl(EncNls(fs)).Payload? && StripNl(EncNls(gs)).Payload?
    ensures ForRequest(req, Delivered(StripNl(EncNls(gs)).bytes, sq))
         == ForRequest(req, Delivered(StripNl(EncNls(fs)).bytes, sq))
  {
    forall m | m in xs + ys + zs && Kept(m, sq) ensures One(m) {
      assert m in xs + zs || m in ys;
    }
    FramesDeliver(fs, xs + zs, sq);
    FramesDeliver(gs, xs + ys + zs, sq);
    ForeignInBetween(xs, ys, zs, req, sq);
  }
}
