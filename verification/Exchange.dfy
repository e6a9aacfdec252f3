/** A whole exchange with a device, from the bytes it sends to the buffers of the executed message. */
module Exchange {
  import opened Bytes
  import opened Frames
  import opened AckWalk
  import opened Matching
  import opened AnyReplies
  import opened Listing
  import opened Receive
  import opened Request

  // ---------------------------------------------------------------- the device's side

  /** A message whose connector message fits the receive buffer. */
  predicate FitsDatagram(d: Delivery) { CN_HDRLEN + W1_HDRLEN + |d.msg.data| <= 0x1000 }

  /** On the wire: one w1 message in one connector message in one netlink frame in one datagram. */
  function OnWire(sq: u32, d: Delivery): Event
    requires FitsDatagram(d)
  {
    Datagram(EncNl(WireFrame(sq, d)))
  }

  function WireFrame(sq: u32, d: Delivery): NlFrame
    requires FitsDatagram(d)
  {
    NlFrame(NLMSG_DONE, 0, sq, 0, EncCn(WireCn(sq, d)))
  }

  function WireCn(sq: u32, d: Delivery): CnMsg
    requires FitsDatagram(d)
  {
    CnMsg(CN_W1_IDX, CN_W1_VAL, sq, d.ack, 0, EncW1(d.msg))
  }

  function AllOnWire(sq: u32, ds: seq<Delivery>): (es: seq<Event>)
    requires forall d <- ds :: FitsDatagram(d)
    ensures |es| == |ds|
  {
    if ds == [] then [] else [OnWire(sq, ds[0])] + AllOnWire(sq, ds[1..])
  }

  /** The library reads a message back as it was sent. */
  lemma ReadsBack(req: W1Msg, sq: u32, d: Delivery)
    requires FitsDatagram(d) && Answers(req, d.msg)
    ensures Readable(OnWire(sq, d)) && AnsweringIn(req, sq, OnWire(sq, d)) == [d]
  {
    hide EncW1, EncNl, StripNl, ParseCn, EncCn, WalkAcked, AckStream;
    var m := WireCn(sq, d);
    CnLen(m);
    Framed(WireFrame(sq, d), m);
    RequestReadsBack(d.msg);
    WalkRefinesLayers([m], sq);
    OneLayer(m, sq);
    assert Layered([m], sq) == Layer(m, sq) == [d];
    assert Delivered(EncCn(m), sq) == [d];
    OnlyOne(req, d);
  }

  lemma OnlyOne(req: W1Msg, d: Delivery)
    requires Answers(req, d.msg)
    ensures ForRequest(req, [d]) == [d]
  {
    assert [d][1..] == [];
  }

  lemma CnLen(m: CnMsg)
    ensures |EncCn(m)| == CN_HDRLEN + |m.data|
  {
  }

  lemma {:induction false} AllReadBack(req: W1Msg, sq: u32, ds: seq<Delivery>)
    requires forall d <- ds :: FitsDatagram(d) && Answers(req, d.msg)
    ensures AllPayload(AllOnWire(sq, ds)) && Answering(req, sq, AllOnWire(sq, ds)) == ds
  {
    hide OnWire, Readable, AnsweringIn, FitsDatagram;
    if ds != [] {
      assert ds[0] in ds;
      ReadsBack(req, sq, ds[0]);
      AllReadBack(req, sq, ds[1..]);
      var es := AllOnWire(sq, ds);
      assert es[1..] == AllOnWire(sq, ds[1..]);
      forall e | e in es ensures Readable(e) {
        if e != es[0] {
          assert e in es[1..];
        }
      }
    }
  }

  // ---------------------------------------------------------------- a device that answers reads and touches

  /** The answer to one command carries its code, and the data read for it or an echo. */
  function Answer(req: W1Msg, ack: u32, c: Cmd, data: Blob): Delivery
    requires CMD_HDRLEN + |data| < 0x1_0000
  {
    Delivery(ack, W1Msg(req.typ, 0, req.id, EncCmd(Reply(c, data))))
  }

  function Reply(c: Cmd, data: Blob): W1Cmd { W1Cmd(Code(c.typ), 0, data) }

  /** A read or touch is answered by all of its data, any other command by at most an echo of it, or
      not at all. */
  predicate Complete(cmds: seq<Cmd>, replies: seq<Option<Blob>>) {
    && |replies| == |cmds|
    && forall q :: 0 <= q < |cmds| ==> Fitting(cmds[q], replies[q])
  }

  predicate Fitting(c: Cmd, reply: Option<Blob>) {
    match reply
    case None => c.typ != Read && c.typ != Touch
    case Some(data) => |data| <= c.len && (c.typ == Read || c.typ == Touch ==> |data| == c.len)
  }

  /** Which of the first `n` commands are answered, in order. */
  function Owners(replies: seq<Option<Blob>>, n: nat): (own: seq<nat>)
    requires n <= |replies|
    ensures forall k :: 0 <= k < |own| ==> own[k] < n && replies[own[k]].Some?
  {
    if n == 0 then []
    else Owners(replies, n - 1) + if replies[n - 1].Some? then [n - 1] else []
  }

  /** None in between is answered. */
  predicate Silent(replies: seq<Option<Blob>>, from: int, to: int) {
    forall q :: from < q < to && 0 <= q < |replies| ==> replies[q].None?
  }

  /** Between command `own[k]` and the one answered before it nothing is answered. */
  predicate GapBefore(replies: seq<Option<Blob>>, own: seq<nat>, k: nat)
    requires k < |own|
  {
    Before(-1, own, k) < own[k] && Silent(replies, Before(-1, own, k), own[k])
  }

  lemma {:induction false} OwnersLeaveGaps(replies: seq<Option<Blob>>, n: nat)
    requires n <= |replies|
    ensures var own := Owners(replies, n);
            && (forall k :: 0 <= k < |own| ==> GapBefore(replies, own, k))
            && Before(-1, own, |own|) < n && Silent(replies, Before(-1, own, |own|), n)
  {
    if n > 0 {
      OwnersLeaveGaps(replies, n - 1);
      var was, own := Owners(replies, n - 1), Owners(replies, n);
      if replies[n - 1].Some? {
        hide Silent, Owners;
        forall k | 0 <= k < |own| ensures GapBefore(replies, own, k) {
          if k < |was| {
            assert GapBefore(replies, was, k);
          } else {
            assert Before(-1, own, k) == Before(-1, was, |was|);
          }
        }
        NothingBetween(replies, n - 1);
      } else {
        assert own == was;
      }
    }
  }

  lemma NothingBetween(replies: seq<Option<Blob>>, q: nat)
    ensures Silent(replies, q, q + 1)
  {
  }

  lemma {:induction false} OwnerIndex(replies: seq<Option<Blob>>, n: nat, q: nat) returns (k: nat)
    requires q < n <= |replies| && replies[q].Some?
    ensures k < |Owners(replies, n)| && Owners(replies, n)[k] == q
  {
    if q == n - 1 {
      k := |Owners(replies, n - 1)|;
    } else {
      k := OwnerIndex(replies, n - 1, q);
    }
  }

  function Dialogue(req: W1Msg, ack: u32, cmds: seq<Cmd>, replies: seq<Option<Blob>>): (ds: seq<Delivery>)
    requires Complete(cmds, replies) && Sendable(cmds)
    ensures |ds| == |Owners(replies, |cmds|)|
    ensures forall d <- ds :: FitsDatagram(d) && Answers(req, d.msg) && d.msg.status == 0
  {
    EachFits(cmds);
    var own := Owners(replies, |cmds|);
    seq(|own|, k requires 0 <= k < |own| => Answer(req, ack, cmds[own[k]], replies[own[k]].value))
  }

  lemma EachFits(cmds: seq<Cmd>)
    ensures forall q :: 0 <= q < |cmds| ==> CMD_HDRLEN + cmds[q].len <= CmdsLen(cmds)
    ensures |cmds| <= CmdsLen(cmds)
  {
    forall q | 0 <= q < |cmds| ensures CMD_HDRLEN + cmds[q].len <= CmdsLen(cmds) {
      LenParts(cmds, q);
    }
    NotMore(cmds);
  }

  lemma {:induction false} NotMore(cmds: seq<Cmd>)
    ensures |cmds| <= CmdsLen(cmds)
  {
    if cmds != [] {
      NotMore(cmds[1..]);
    }
  }

  lemma {:induction false} NotMoreOwners(replies: seq<Option<Blob>>, n: nat)
    requires n <= |replies|
    ensures |Owners(replies, n)| <= n
  {
    if n > 0 {
      NotMoreOwners(replies, n - 1);
    }
  }

  function RepliesOf(cmds: seq<Cmd>, replies: seq<Option<Blob>>): (rs: seq<W1Cmd>)
    requires |replies| == |cmds|
    ensures |rs| == |Owners(replies, |cmds|)|
  {
    var own := Owners(replies, |cmds|);
    seq(|own|, k requires 0 <= k < |own| => Reply(cmds[own[k]], replies[own[k]].value))
  }

  /** The replies in a dialogue are one to each command answered, in order. */
  lemma {:induction false} DialogueReplies(
      req: W1Msg, ack: u32, cmds: seq<Cmd>, replies: seq<Option<Blob>>, k: nat)
    requires Complete(cmds, replies) && Sendable(cmds) && k <= |Owners(replies, |cmds|)|
    ensures Replies(Msgs(Dialogue(req, ack, cmds, replies))[k..]) == RepliesOf(cmds, replies)[k..]
    decreases |Owners(replies, |cmds|)| - k
  {
    var ms, rs := Msgs(Dialogue(req, ack, cmds, replies)), RepliesOf(cmds, replies);
    if k < |rs| {
      DialogueReplies(req, ack, cmds, replies, k + 1);
      DialogueMsg(req, ack, cmds, replies, k);
      hide Dialogue, RepliesOf, Msgs, Owners;
      assert ms[k..][1..] == ms[k + 1..];
      assert rs[k..] == [rs[k]] + rs[k + 1..];
    }
  }

  lemma DialogueMsg(req: W1Msg, ack: u32, cmds: seq<Cmd>, replies: seq<Option<Blob>>, k: nat)
    requires Complete(cmds, replies) && Sendable(cmds) && k < |Owners(replies, |cmds|)|
    ensures Msgs(Dialogue(req, ack, cmds, replies))[k].replies == [RepliesOf(cmds, replies)[k]]
  {
    OneReplyParsed(RepliesOf(cmds, replies)[k]);
  }

  lemma OneReplyParsed(r: W1Cmd)
    ensures ParseCmds(EncCmd(r)) == [r]
  {
    CmdsRoundTrip([r]);
    FirstEncoded(r, []);
    assert [r] + [] == [r];
    assert EncCmd(r) + [] == EncCmd(r);
  }

  /** Between the last command answered and a read or touch behind it, the type changes. */
  predicate TypesAlternate(cmds: seq<Cmd>, replies: seq<Option<Blob>>)
    requires |replies| == |cmds|
  {
    forall p, i | 0 <= p < i < |cmds| && replies[p].Some? && Silent(replies, p, i) ::
      cmds[i].typ == Read || cmds[i].typ == Touch ==> cmds[p].typ != cmds[i].typ
  }

  lemma AnswersInOrder(cmds: seq<Cmd>, replies: seq<Option<Blob>>)
    requires Complete(cmds, replies)
    ensures var own := Owners(replies, |cmds|);
            InOrder(cmds, -1, own, RepliesOf(cmds, replies)) && !Outstanding(cmds, own)
  {
    var own, rs := Owners(replies, |cmds|), RepliesOf(cmds, replies);
    OwnersLeaveGaps(replies, |cmds|);
    forall k | 0 <= k < |own| ensures Proper(cmds, Before(-1, own, k), own[k], rs[k]) {
      assert Fitting(cmds[own[k]], replies[own[k]]) && GapBefore(replies, own, k);
      forall q | Before(-1, own, k) < q < own[k] && 0 <= q ensures !Needs(cmds[q]) {
        assert Fitting(cmds[q], replies[q]);
      }
    }
    forall q | Before(-1, own, |own|) < q < |cmds| && 0 <= q ensures !Needs(cmds[q]) {
      assert Fitting(cmds[q], replies[q]);
    }
  }

  lemma TypesAlternateInOrder(cmds: seq<Cmd>, replies: seq<Option<Blob>>)
    requires Complete(cmds, replies)
    ensures TypeChanges(cmds, -1, Owners(replies, |cmds|)) <==> TypesAlternate(cmds, replies)
  {
    var own := Owners(replies, |cmds|);
    OwnersLeaveGaps(replies, |cmds|);
    if TypesAlternate(cmds, replies) {
      forall k | 0 <= k < |own| ensures Differs(cmds, Before(-1, own, k), own[k]) {
        assert GapBefore(replies, own, k);
        assert k > 0 ==> replies[own[k - 1]].Some?;
      }
    }
    if TypeChanges(cmds, -1, own) {
      forall p, i | 0 <= p < i < |cmds| && replies[p].Some? && Silent(replies, p, i)
                    && (cmds[i].typ == Read || cmds[i].typ == Touch)
        ensures cmds[p].typ != cmds[i].typ
      {
        assert Fitting(cmds[i], replies[i]);
        var k := OwnerIndex(replies, |cmds|, i);
        assert Differs(cmds, Before(-1, own, k), i) && GapBefore(replies, own, k);
        assert Before(-1, own, k) == p;
      }
    }
  }

  lemma DialogueIsFine(req: W1Msg, ack: u32, cmds: seq<Cmd>, replies: seq<Option<Blob>>)
    requires Complete(cmds, replies) && Sendable(cmds)
    ensures forall m <- Msgs(Dialogue(req, ack, cmds, replies)) :: Fine(m)
  {
    hide Dialogue;
    var ds := Dialogue(req, ack, cmds, replies);
    forall m | m in Msgs(ds) ensures Fine(m) {
      var k :| 0 <= k < |ds| && m == Msgs(ds)[k];
      assert ds[k] in ds;
    }
  }

  /** In every read or touch buffer the reply to its command, and all other memory unchanged. */
  predicate AnswersInPlace(cmds: seq<Cmd>, replies: seq<Option<Blob>>, mem: seq<byte>, mem': seq<byte>)
    requires Complete(cmds, replies)
  {
    && |mem'| == |mem|
    && (BuffersApart(cmds) ==>
          forall q :: 0 <= q < |cmds| && (cmds[q].typ == Read || cmds[q].typ == Touch) ==>
            && replies[q].Some? && cmds[q].addr + cmds[q].len <= |mem'|
            && mem'[cmds[q].addr..cmds[q].addr + cmds[q].len] == replies[q].value)
    && (forall j :: 0 <= j < |mem| && OutsideReads(cmds, j) ==> mem'[j] == mem[j])
  }

  /** No read or touch has a buffer that overlaps another one's. */
  predicate BuffersApart(cmds: seq<Cmd>) {
    forall p, q :: 0 <= p < q < |cmds| && (cmds[p].typ == Read || cmds[p].typ == Touch)
                   && (cmds[q].typ == Read || cmds[q].typ == Touch) ==>
      || cmds[p].len == 0 || cmds[q].len == 0
      || cmds[p].addr + cmds[p].len <= cmds[q].addr || cmds[q].addr + cmds[q].len <= cmds[p].addr
  }

  predicate OutsideReads(cmds: seq<Cmd>, j: nat) {
    forall q :: 0 <= q < |cmds| && (cmds[q].typ == Read || cmds[q].typ == Touch) ==>
      !(cmds[q].addr <= j < cmds[q].addr + cmds[q].len)
  }

  lemma ApartIsOwn(cmds: seq<Cmd>)
    ensures BuffersApart(cmds) <==> OwnBuffers(cmds)
  {
    if OwnBuffers(cmds) {
      forall p, q | 0 <= p < q < |cmds| && (cmds[p].typ == Read || cmds[p].typ == Touch)
                    && (cmds[q].typ == Read || cmds[q].typ == Touch)
        ensures || cmds[p].len == 0 || cmds[q].len == 0
                || cmds[p].addr + cmds[p].len <= cmds[q].addr || cmds[q].addr + cmds[q].len <= cmds[p].addr
      {
        assert Apart(cmds[p], cmds[q]);
      }
    }
  }

  lemma EachInPlace(cmds: seq<Cmd>, replies: seq<Option<Blob>>, mem: seq<byte>, mem': seq<byte>)
    requires Complete(cmds, replies)
    requires RepliesInPlace(cmds, Owners(replies, |cmds|), RepliesOf(cmds, replies), mem, mem')
    ensures AnswersInPlace(cmds, replies, mem, mem')
  {
    var own := Owners(replies, |cmds|);
    OwnersLeaveGaps(replies, |cmds|);
    ApartIsOwn(cmds);
    if BuffersApart(cmds) {
      forall q | 0 <= q < |cmds| && (cmds[q].typ == Read || cmds[q].typ == Touch)
        ensures && replies[q].Some? && cmds[q].addr + cmds[q].len <= |mem'|
                && mem'[cmds[q].addr..cmds[q].addr + cmds[q].len] == replies[q].value
      {
        assert Fitting(cmds[q], replies[q]);
        var k := OwnerIndex(replies, |cmds|, q);
        assert GapBefore(replies, own, k);
        assert IsData(cmds, -1, own, k);
        assert RepliesOf(cmds, replies)[k].data == replies[q].value;
        assert Has(mem', cmds[q], replies[q].value);
      }
    }
    forall j | 0 <= j < |mem| && OutsideReads(cmds, j) ensures mem'[j] == mem[j] {
      assert Untouched(cmds, -1, own, j);
    }
  }

  /** Any message sent to a device that answers all reads and touches and any of the other commands: it
      is executed with success if and only if something is answered and no read or touch has the
      command answered last before it of its own type. Then every read and touch buffer holds what the
      device sent for it, unless such buffers overlap, and no other memory has changed. */
  lemma EveryNeedAnswered(sq: u32, t: Target, cmds: seq<Cmd>, mem: seq<byte>, ack: u32,
                          replies: seq<Option<Blob>>)
    requires Sized(cmds, mem) && Sendable(cmds) && Complete(cmds, replies)
    ensures var ds := Dialogue(RequestMsg(t, cmds, mem), ack, cmds, replies);
            var events := AllOnWire(SeqOf(sq), ds) + [Timeout];
            NoNoop(events) &&
            var r := ExecRun(sq, t, cmds, mem, events);
            && (r.0 == Some(Success) <==> !Silent(replies, -1, |cmds|) && TypesAlternate(cmds, replies))
            && (TypesAlternate(cmds, replies) ==> AnswersInPlace(cmds, replies, mem, r.1))
  {
    hide AllOnWire, AllPayload, Answering, RequestMsg, ExecRun, NoNoop, Replies, Dialogue, RepliesOf, Complete;
    hide InOrder, TypeChanges, Outstanding, Fine, Msgs, TypesAlternate, RepliesInPlace, AnswersInPlace;
    var req := RequestMsg(t, cmds, mem);
    var ds := Dialogue(req, ack, cmds, replies);
    assert |replies| == |cmds| by { SameLength(cmds, replies); }
    var own, rs := Owners(replies, |cmds|), RepliesOf(cmds, replies);
    var events := AllOnWire(SeqOf(sq), ds);
    AllReadBack(req, SeqOf(sq), ds);
    ReadableMeansNoNoop(events);
    DialogueReplies(req, ack, cmds, replies, 0);
    DialogueIsFine(req, ack, cmds, replies);
    assert Msgs(ds)[0..] == Msgs(ds) && rs[0..] == rs;
    EachFits(cmds);
    NotMoreOwners(replies, |cmds|);
    AnswersInOrder(cmds, replies);
    TypesAlternateInOrder(cmds, replies);
    NoOwners(replies, |cmds|);
    assert Conforms(req, SeqOf(sq), cmds, own, events);
    ExecDelivers(sq, t, cmds, mem, own, events);
    if TypesAlternate(cmds, replies) {
      EachInPlace(cmds, replies, mem, ExecRun(sq, t, cmds, mem, events + [Timeout]).1);
    }
  }

  lemma SameLength(cmds: seq<Cmd>, replies: seq<Option<Blob>>)
    requires Complete(cmds, replies)
    ensures |replies| == |cmds|
  {
  }

  lemma {:induction false} NoOwners(replies: seq<Option<Blob>>, n: nat)
    requires n <= |replies|
    ensures Owners(replies, n) == [] <==> Silent(replies, -1, n)
  {
    if n > 0 {
      NoOwners(replies, n - 1);
    }
  }

  /** No read or touch directly behind a command of its own type. */
  predicate TypesDiffer(cmds: seq<Cmd>) {
    forall j :: 0 < j < |cmds| && (cmds[j].typ == Read || cmds[j].typ == Touch) ==>
      cmds[j - 1].typ != cmds[j].typ
  }

  /** When the device answers every command, the condition is one on the message alone. */
  lemma EveryCommandAnswered(sq: u32, t: Target, cmds: seq<Cmd>, mem: seq<byte>, ack: u32,
                             replies: seq<Option<Blob>>)
    requires Sized(cmds, mem) && Sendable(cmds) && Complete(cmds, replies)
    requires forall q :: 0 <= q < |replies| ==> replies[q].Some?
    ensures var ds := Dialogue(RequestMsg(t, cmds, mem), ack, cmds, replies);
            var events := AllOnWire(SeqOf(sq), ds) + [Timeout];
            NoNoop(events) &&
            var r := ExecRun(sq, t, cmds, mem, events);
            && (r.0 == Some(Success) <==> TypesDiffer(cmds))
            && (TypesDiffer(cmds) ==> AnswersInPlace(cmds, replies, mem, r.1))
  {
    hide RequestMsg, ExecRun, Dialogue, AllOnWire, AnswersInPlace;
    EveryNeedAnswered(sq, t, cmds, mem, ack, replies);
    assert replies[0].Some?;
    if TypesDiffer(cmds) {
      forall p, i | 0 <= p < i < |cmds| && replies[p].Some? && Silent(replies, p, i)
                    && (cmds[i].typ == Read || cmds[i].typ == Touch)
        ensures cmds[p].typ != cmds[i].typ
      {
        assert replies[i - 1].Some?;
        assert p == i - 1;
      }
    }
    if TypesAlternate(cmds, replies) {
      forall j | 0 < j < |cmds| && (cmds[j].typ == Read || cmds[j].typ == Touch)
        ensures cmds[j - 1].typ != cmds[j].typ
      {
        assert Silent(replies, j - 1, j) && replies[j - 1].Some?;
      }
    }
  }

  /** Without an acknowledgement of the write, the second read comes directly behind the first for the
      matcher, although the message passes the condition for devices that answer everything. */
  lemma SilentWriteExample(x: Blob, y: Blob)
    requires |x| == |y| == 1
    ensures var cmds := [Cmd(Read, 0, 1), Cmd(Write, 1, 1), Cmd(Read, 2, 1)];
            var replies := [Some(x), None, Some(y)];
            TypesDiffer(cmds) && Complete(cmds, replies) && !TypesAlternate(cmds, replies)
  {
    var cmds := [Cmd(Read, 0, 1), Cmd(Write, 1, 1), Cmd(Read, 2, 1)];
    var replies := [Some(x), None, Some(y)];
    assert Silent(replies, 0, 2) && cmds[2].typ == Read && replies[0].Some?;
  }

  // ---------------------------------------------------------------- a driver that lists ids

  /** Part of the ids wanted: masters as the data of a message of type 6; slaves in a message of type 4, as
      the reply to command 2, or 3 when those with an alarm are searched. */
  function Found(w: Wanted, ack: u32, ids: seq<Id>): Delivery
    requires |Join(ids)| < 0x1000
  {
    match w
    case Masters => Delivery(ack, W1Msg(6, 0, ListRequest(w).id, Join(ids)))
    case Slaves(_, alarm) =>
      Delivery(ack, W1Msg(4, 0, ListRequest(w).id, EncCmd(W1Cmd(if alarm then 3 else 2, 0, Join(ids)))))
  }

  /** Ids of 4 bytes for masters and of 8 for slaves, cut into parts that fit a datagram each. */
  predicate Cut(w: Wanted, parts: seq<seq<Id>>) {
    forall p <- parts ::
      && |Join(p)| <= 0x1000 - CN_HDRLEN - W1_HDRLEN - CMD_HDRLEN
      && forall id <- p :: |id| == if w.Masters? then 4 else 8
  }

  predicate AllOfSize(e: IdSize, ids: seq<Id>) { forall id <- ids :: |id| == e }

  /** The messages of a listing, none of them a status report. */
  function Findings(w: Wanted, ack: u32, parts: seq<seq<Id>>): (ds: seq<Delivery>)
    requires Cut(w, parts)
    ensures |ds| == |parts|
    ensures forall d <- ds :: FitsDatagram(d) && Answers(ListRequest(w), d.msg)
  {
    seq(|parts|, k requires 0 <= k < |parts| => Found(w, ack, parts[k]))
  }

  function Flat(parts: seq<seq<Id>>): seq<Id> {
    if parts == [] then [] else parts[0] + Flat(parts[1..])
  }

  lemma {:induction false} SplitJoined(e: IdSize, ids: seq<Id>)
    requires AllOfSize(e, ids)
    ensures Split(e, Join(ids)) == ids
  {
    if ids != [] {
      var c := Join(ids);
      assert ids[0] in ids;
      SplitJoined(e, ids[1..]);
      assert c[..e] == ids[0] && c[e..] == Join(ids[1..]);
    }
  }

  lemma FoundChunk(w: Wanted, ack: u32, ids: seq<Id>)
    requires |Join(ids)| < 0x1000
    ensures var kind := ListKind(w, 0);
            Chunks(kind, Found(w, ack, ids).msg) == [Join(ids)]
    ensures w.Slaves? ==> forall c <- ParseCmds(Found(w, ack, ids).msg.data) :: c.code == SearchCmd(w)
  {
    if w.Slaves? {
      OneReplyParsed(W1Cmd(if w.alarm then 3 else 2, 0, Join(ids)));
    }
  }

  lemma FindingsAreGood(w: Wanted, ack: u32, parts: seq<seq<Id>>)
    requires Cut(w, parts) && ack != ACK_STAT_VAL
    ensures AllGood(ListKind(w, 0), Tagged(Findings(w, ack, parts)))
  {
    hide Good, Tagged, Findings, Found;
    var ms := Tagged(Findings(w, ack, parts));
    forall m | m in ms ensures Good(ListKind(w, 0), m) {
      var k: nat :| k < |ms| && m == ms[k];
      GoodFinding(w, ack, parts, k);
    }
  }

  lemma GoodFinding(w: Wanted, ack: u32, parts: seq<seq<Id>>, k: nat)
    requires Cut(w, parts) && ack != ACK_STAT_VAL && k < |parts|
    ensures Good(ListKind(w, 0), Tagged(Findings(w, ack, parts))[k])
  {
    assert parts[k] in parts;
    FoundChunk(w, ack, parts[k]);
    hide ParseCmds, Found, Join;
  }

  lemma NoneIsStatus(w: Wanted, ack: u32, parts: seq<seq<Id>>)
    requires Cut(w, parts) && ack != ACK_STAT_VAL
    ensures forall m <- Tagged(Findings(w, ack, parts)) :: !m.1
  {
  }

  lemma {:induction false} FoundIds(w: Wanted, ack: u32, parts: seq<seq<Id>>, k: nat)
    requires Cut(w, parts) && ack != ACK_STAT_VAL && k <= |parts|
    ensures var kind := ListKind(w, 0);
            Ids(kind.elemSz, Through(kind, Tagged(Findings(w, ack, parts))[k..])) == Flat(parts[k..])
    decreases |parts| - k
  {
    var kind, all := ListKind(w, 0), Tagged(Findings(w, ack, parts));
    if k < |parts| {
      assert parts[k] in parts;
      FoundChunk(w, ack, parts[k]);
      SplitJoined(kind.elemSz, parts[k]);
      assert all[k] == (Found(w, ack, parts[k]).msg, false);
      hide Found, Chunks, ListKind, Cut, Findings, Join, Split;
      assert all[k..][1..] == all[k + 1..] && parts[k..][1..] == parts[k + 1..];
      FoundIds(w, ack, parts, k + 1);
      var rest := Through(kind, all[k + 1..]);
      assert Through(kind, all[k..]) == [Join(parts[k])] + rest;
      assert ([Join(parts[k])] + rest)[1..] == rest;
    }
  }

  /** Messages none of which is bad or a status report all reach the callback. */
  lemma {:induction false} AllHanded(kind: Kind, ms: seq<(W1Msg, bool)>)
    requires AllGood(kind, ms) && forall m <- ms :: !m.1
    ensures Handed(kind, ms) == ms
  {
    if ms != [] {
      assert ms[0] in ms;
      AllHanded(kind, ms[1..]);
    }
  }

  /** Any ids, cut into messages in any way, are listed: the longest prefix that fits is at the front of
      the list, the rest of it is as before, and all are counted. */
  lemma EveryIdListed(sq: u32, w: Wanted, list0: seq<Id>, ack: u32, parts: seq<seq<Id>>)
    requires Cut(w, parts) && ack != ACK_STAT_VAL && 0 < |parts| < UINT_RANGE
    ensures var events := AllOnWire(SeqOf(sq), Findings(w, ack, parts)) + [Timeout];
            var ids := Flat(parts);
            var n := Min(|ids|, |list0|);
            NoNoop(events) &&
            ListRun(sq, w, list0, events) == (Some(Success), LSt(ids[..n] + list0[n..], n, |ids|, 0))
  {
    hide AllOnWire, AllPayload, Answering, ListRun, Findings, Ids, Through, AllGood, NoNoop;
    var ds := Findings(w, ack, parts);
    AllReadBack(ListRequest(w), SeqOf(sq), ds);
    FindingsAreGood(w, ack, parts);
    FoundIds(w, ack, parts, 0);
    NoneIsStatus(w, ack, parts);
    AllHanded(ListKind(w, 0), Tagged(ds));
    assert Tagged(ds)[0..] == Tagged(ds) && parts[0..] == parts;
    ListDelivers(sq, w, list0, AllOnWire(SeqOf(sq), ds));
  }

  // ---------------------------------------------------------------- errors on the wire

  /** A report of an error that is the first answer: the execution ends in a protocol error. */
  lemma ErrorReportOnWire(sq: u32, t: Target, cmds: seq<Cmd>, mem: seq<byte>, status: byte, data: Blob)
    requires Sized(cmds, mem) && Sendable(cmds) && status != 0 && 32 + |data| <= 0x1000
    ensures var req := RequestMsg(t, cmds, mem);
            var report := Delivery(0xffff_ffff, W1Msg(req.typ, status, req.id, data));
            var events := [OnWire(SeqOf(sq), report), Timeout];
            NoNoop(events) && ExecRun(sq, t, cmds, mem, events).0 == Some(ProtoErr)
  {
    hide RequestMsg, ExecRun, OnWire, Answering, Readable, NoNoop;
    var req := RequestMsg(t, cmds, mem);
    var report := Delivery(0xffff_ffff, W1Msg(req.typ, status, req.id, data));
    var ds := [report];
    AllReadBack(req, SeqOf(sq), ds);
    FirstLookedAt(req, cmds, mem, ds);
    OneOnWire(SeqOf(sq), report);
    ErrorReportedFails(sq, t, cmds, mem, AllOnWire(SeqOf(sq), ds), 0);
    assert AllOnWire(SeqOf(sq), ds) + [Timeout] == [OnWire(SeqOf(sq), report), Timeout];
  }

  lemma OneOnWire(sq: u32, d: Delivery)
    requires FitsDatagram(d)
    ensures AllOnWire(sq, [d]) == [OnWire(sq, d)]
  {
    hide OnWire;
    assert [d][1..] == [];
  }

  lemma FirstLookedAt(req: W1Msg, cmds: seq<Cmd>, mem: seq<byte>, ds: seq<Delivery>)
    requires cmds != [] && ds != []
    ensures LookedAt(req, cmds, mem, ds, 0)
  {
    assert ds[..0] == [];
  }

  /** The same for a listing. */
  lemma ListErrorReportOnWire(sq: u32, w: Wanted, list0: seq<Id>, status: byte, data: Blob)
    requires status != 0 && 32 + |data| <= 0x1000
    ensures var req := ListRequest(w);
            var report := Delivery(0xffff_ffff, W1Msg(req.typ, status, req.id, data));
            var events := [OnWire(SeqOf(sq), report), Timeout];
            NoNoop(events) && ListRun(sq, w, list0, events).0 == Some(ProtoErr)
  {
    hide ListRequest, ListRun, OnWire, Answering, Readable, NoNoop;
    var req := ListRequest(w);
    var report := Delivery(0xffff_ffff, W1Msg(req.typ, status, req.id, data));
    var ds := [report];
    AllReadBack(req, SeqOf(sq), ds);
    FirstHandedOn(req, ListKind(w, |list0|), list0, ds);
    OneOnWire(SeqOf(sq), report);
    ListErrorReportedFails(sq, w, list0, AllOnWire(SeqOf(sq), ds), 0);
    assert AllOnWire(SeqOf(sq), ds) + [Timeout] == [OnWire(SeqOf(sq), report), Timeout];
  }

  lemma FirstHandedOn(req: W1Msg, kind: Kind, list0: seq<Id>, ds: seq<Delivery>)
    requires |list0| == kind.maxElems && ds != []
    ensures HandedOn(req, kind, list0, ds, 0)
  {
    assert ds[..0] == [];
  }
}
