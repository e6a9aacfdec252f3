/** The pollable receive loop, for any callback, and what its success means. */
module Receive {
  import opened Bytes
  import opened Frames
  import opened AckWalk
  import opened InPlace
  import opened Matching
  import opened ExecCallback
  import opened Listing

  /** What poll() and recv() may come up with, one entry per turn of the loop. */
  datatype Event = Timeout | PollError | RecvError | Datagram(bytes: seq<byte>)

  /** `Waiting` stands for a run whose next event has not happened yet. */
  datatype Outcome<S> = Done(err: Errc, st: S, more: More) | Waiting(st: S, more: More)

  type Step<!S> = (S, W1Msg, bool) -> (S, More)

  /** recv() cuts a datagram off at the size of the buffer. */
  function Unframed(d: seq<byte>): Stripped {
    StripNl(Upto(d, MAX_W1_NETLINK_MSG_SZ))
  }

  /** No datagram makes the netlink pass turn forever (see `Frames.StuckForeverIffNoop`). */
  predicate NoNoop(events: seq<Event>) {
    forall e <- events :: e.Datagram? ==> Unframed(e.bytes) != Stuck
  }

  /** The loop from its `n`-th turn on. */
  function Loop<S>(req: W1Msg, sq: u32, step: Step<S>, st: S, more: More, n: nat, events: seq<Event>): Outcome<S>
    requires NoNoop(events)
    decreases |events|
  {
    if events == [] then Waiting(st, more)
    else
      match events[0]
      case Timeout =>
        Done(if n == 0 || more == MoreReq then NoResp else Success, st, more)
      case PollError => Done(CommErr, st, more)
      case RecvError => Done(CommErr, st, more)
      case Datagram(d) =>
        match Unframed(d)
        case Payload(p) =>
          var r := CallBack(req, step, st, more, Delivered(p, sq));
          Loop(req, sq, step, r.0, r.1, (n + 1) % UINT_RANGE, events[1..])
        case Failed(e) => Done(e, st, more)
        case Stuck => Waiting(st, more)
  }

  // ---------------------------------------------------------------- the callbacks there are

  /** A callback with its private data: that of w1_msg_exec, or one of the two listing ones. */
  datatype Callback = ExecCb(exec: Exec) | ListCb(lister: Lister)

  datatype CbState = ExecState(cmds: seq<Cmd>, exec: St) | ListState(kind: Kind, lst: LSt)

  function CbStep(s: CbState, m: W1Msg, isStatus: bool): (CbState, More) {
    match s
    case ExecState(cmds, st) =>
      var r := OnMessage(cmds, st, m.status, isStatus, ParseCmds(m.data));
      (ExecState(cmds, r.0), r.1)
    case ListState(kind, st) =>
      if !Roomy(kind, st) then (s, NoMore)
      else
        var r := ListMessage(kind, st, m, isStatus);
        (ListState(kind, r.0), r.1)
  }

  ghost function Objects(cb: Callback): set<object> {
    match cb
    case ExecCb(e) => {e, e.mem}
    case ListCb(l) => {l, l.list}
  }

  ghost predicate Ready(cb: Callback)
    reads Objects(cb)
  {
    match cb
    case ExecCb(e) => e.Valid()
    case ListCb(l) => l.Valid()
  }

  ghost function StateOf(cb: Callback): CbState
    requires Ready(cb)
    reads Objects(cb)
  {
    match cb
    case ExecCb(e) => ExecState(e.cmds, e.State())
    case ListCb(l) => ListState(l.kind, l.State())
  }

  method Invoke(cb: Callback, m: W1Msg, isStatus: bool) returns (more: More)
    requires Ready(cb)
    modifies Objects(cb)
    ensures Ready(cb) && (StateOf(cb), more) == CbStep(old(StateOf(cb)), m, isStatus)
  {
    match cb {
      case ExecCb(e) => more := e.Callback(m, isStatus);
      case ListCb(l) => more := l.Callback(m, isStatus);
    }
  }

  // ---------------------------------------------------------------- recv_w1msg

  /** Third pass: the callback is invoked for every w1 message in `buf[..n]` that answers the
      request, until it says "no more". */
  method DispatchW1(buf: array<byte>, n: nat, req: W1Msg, cb: Callback, more0: More) returns (more: More)
    requires n <= buf.Length && Ready(cb) && buf !in Objects(cb)
    modifies Objects(cb)
    ensures Ready(cb)
    ensures (StateOf(cb), more) == CallBack(req, CbStep, old(StateOf(cb)), more0, WalkAcked(buf[..n]))
  {
    hide CallBack, WalkAcked, AckedAt, CbStep;
    ghost var st0, f := StateOf(cb), buf[..n];
    more := more0;
    var pos := 0;
    while AckedOk(buf[pos..n])
      invariant pos <= n && Ready(cb) && buf[..n] == f
      invariant CallBack(req, CbStep, st0, more0, WalkAcked(f))
             == CallBack(req, CbStep, StateOf(cb), more, WalkAcked(f[pos..]))
      decreases n - pos
    {
      assert buf[pos..n] == f[pos..];
      var d := AckedAt(buf[pos..n]);
      var len := AckedLen(buf[pos..n]);
      SubSlice(f, pos, n, len, n - pos);
      DispatchStep(req, CbStep, StateOf(cb), more, f[pos..], d, f[pos + len..]);
      if Answers(req, d.msg) && more != NoMore {
        more := Invoke(cb, d.msg, IsStatus(d));
      }
      pos := pos + len;
    }
    assert buf[pos..n] == f[pos..];
    NothingDelivered(req, CbStep, StateOf(cb), more, f[pos..]);
  }

  /** One datagram through all three passes: the callback ends up as if a parser working on the
      untouched bytes had invoked it. */
  method HandleDatagram(buf: array<byte>, n: nat, sq: u32, req: W1Msg, cb: Callback, more0: More)
    returns (err: Errc, more: More)
    requires n <= buf.Length && Ready(cb) && buf !in Objects(cb)
    requires StripNl(buf[..n]) != Stuck
    modifies buf, Objects(cb)
    ensures Ready(cb)
    ensures match StripNl(old(buf[..n]))
            case Payload(p) =>
              && err == Success
              && (StateOf(cb), more) == CallBack(req, CbStep, old(StateOf(cb)), more0, Delivered(p, sq))
            case Failed(e) => err == e != Success && StateOf(cb) == old(StateOf(cb)) && more == more0
            case Stuck => false
  {
    hide StripNl, CbStep, CallBack, AckStream, ParseCn, WalkAcked, Ready;
    more := more0;
    var offs;
    err, offs := StripHeaders(buf, n);
    if err == Success {
      offs := FilterConnector(buf, offs, sq);
      more := DispatchW1(buf, offs, req, cb, more);
    }
  }

  /** The receive loop as a whole. */
  function RecvSpec<S>(cnReq: CnMsg, step: Step<S>, st: S, events: seq<Event>): Outcome<S>
    requires cnReq.data == [] || W1Ok(cnReq.data)
    requires NoNoop(events)
  {
    if cnReq.data == [] then Done(Success, st, MoreReq)
    else Loop(W1At(cnReq.data), cnReq.sq, step, st, MoreReq, 0, events)
  }

  lemma FirstIsNoNoop(events: seq<Event>)
    requires NoNoop(events) && events != []
    ensures events[0].Datagram? ==> Unframed(events[0].bytes) != Stuck
  {
    assert events[0] in events;
  }

  lemma LoopWaits<S>(req: W1Msg, sq: u32, step: Step<S>, st: S, more: More, n: nat)
    ensures Loop(req, sq, step, st, more, n, []) == Waiting(st, more)
  {
  }

  lemma LoopEnds<S>(req: W1Msg, sq: u32, step: Step<S>, st: S, more: More, n: nat, events: seq<Event>)
    requires NoNoop(events) && events != []
    requires !events[0].Datagram? || Unframed(events[0].bytes).Failed?
    ensures Loop(req, sq, step, st, more, n, events)
         == Done(match events[0]
                 case Timeout => if n == 0 || more == MoreReq then NoResp else Success
                 case Datagram(d) => Unframed(d).err
                 case _ => CommErr, st, more)
  {
  }

  lemma LoopGoesOn<S>(req: W1Msg, sq: u32, step: Step<S>, st: S, more: More, n: nat, events: seq<Event>, r: (S, More))
    requires NoNoop(events) && events != [] && Readable(events[0])
    requires r == CallBack(req, step, st, more, Delivered(Unframed(events[0].bytes).bytes, sq))
    ensures NoNoop(events[1..])
    ensures Loop(req, sq, step, st, more, n, events)
         == Loop(req, sq, step, r.0, r.1, (n + 1) % UINT_RANGE, events[1..])
  {
  }

  /** What a run returns: nothing as long as it is waiting for another event. */
  function ErrOf<S>(out: Outcome<S>): Option<Errc> {
    if out.Done? then Some(out.err) else None
  }

  /** recv() into the buffer, and the three passes. */
  method Receive(recvBuf: array<byte>, bytes: seq<byte>, sq: u32, req: W1Msg, cb: Callback, more0: More)
    returns (err: Errc, more: More)
    requires recvBuf.Length == MAX_W1_NETLINK_MSG_SZ && Ready(cb) && recvBuf !in Objects(cb)
    requires Unframed(bytes) != Stuck
    modifies recvBuf, Objects(cb)
    ensures Ready(cb)
    ensures match Unframed(bytes)
            case Payload(p) =>
              && err == Success
              && (StateOf(cb), more) == CallBack(req, CbStep, old(StateOf(cb)), more0, Delivered(p, sq))
            case Failed(e) => err == e != Success && StateOf(cb) == old(StateOf(cb)) && more == more0
            case Stuck => false
  {
    hide StripNl, CbStep, CallBack, Delivered;
    var d := Upto(bytes, MAX_W1_NETLINK_MSG_SZ);
    CopyIn(recvBuf, 0, d);
    assert recvBuf[..|d|] == recvBuf[0..|d|] == d;
    err, more := HandleDatagram(recvBuf, |d|, sq, req, cb, more0);
  }

  /** One turn of the loop: it ends with an error code, or goes on with another verdict and count. */
  method Turn(recvBuf: array<byte>, e: Event, sq: u32, req: W1Msg, cb: Callback, more: More, n: nat)
    returns (err: Option<Errc>, next: (More, nat))
    requires recvBuf.Length == MAX_W1_NETLINK_MSG_SZ && Ready(cb) && recvBuf !in Objects(cb)
    requires e.Datagram? ==> Unframed(e.bytes) != Stuck
    modifies recvBuf, Objects(cb)
    ensures Ready(cb)
    ensures err == None <==> Readable(e)
    ensures err == None ==>
      && next.1 == (n + 1) % UINT_RANGE
      && (StateOf(cb), next.0) == CallBack(req, CbStep, old(StateOf(cb)), more, Delivered(Unframed(e.bytes).bytes, sq))
    ensures err.Some? ==>
      && StateOf(cb) == old(StateOf(cb))
      && err.value == match e
                      case Timeout => if n == 0 || more == MoreReq then NoResp else Success
                      case Datagram(d) => Unframed(d).err
                      case _ => CommErr
  {
    hide Unframed, CbStep, CallBack, Delivered;
    next := (more, n);
    match e {
      case Timeout =>
        if n == 0 {
          err := Some(NoResp);
        } else if more == MoreReq {
          err := Some(NoResp);
        } else {
          err := Some(Success);
        }
      case PollError =>
        err := Some(CommErr);
      case RecvError =>
        err := Some(CommErr);
      case Datagram(bytes) =>
        var ret, more' := Receive(recvBuf, bytes, sq, req, cb, more);
        err := if ret != Success then Some(ret) else None;
        next := (more', (n + 1) % UINT_RANGE);
    }
  }

  /** The loop of recv_w1msg. The events stand for what poll() and recv() return, turn by turn. */
  method RecvLoop(req: W1Msg, sq: u32, cb: Callback, events: seq<Event>) returns (res: Option<Errc>)
    requires NoNoop(events) && Ready(cb)
    modifies Objects(cb)
    ensures Ready(cb)
    ensures (var out := Loop(req, sq, CbStep, old(StateOf(cb)), MoreReq, 0, events);
             res == ErrOf(out) && StateOf(cb) == out.st)
  {
    hide NoNoop, Unframed, StripNl, CbStep, CallBack, Delivered, Loop, StateOf, Ready;
    ghost var st0 := StateOf(cb);
    var more := MoreReq;
    var recvBuf := new byte[MAX_W1_NETLINK_MSG_SZ];
    var nRcvMsgs: nat, k: nat := 0, 0;
    assert events[0..] == events;
    while k < |events|
      invariant k <= |events| && NoNoop(events[k..]) && Ready(cb)
      invariant Loop(req, sq, CbStep, st0, MoreReq, 0, events)
             == Loop(req, sq, CbStep, StateOf(cb), more, nRcvMsgs, events[k..])
    {
      ghost var rest, st := events[k..], StateOf(cb);
      assert rest[0] == events[k] && rest[1..] == events[k + 1..];
      FirstIsNoNoop(rest);
      var err, n' := Turn(recvBuf, events[k], sq, req, cb, more, nRcvMsgs);
      match err {
        case Some(e) =>
          LoopEnds(req, sq, CbStep, st, more, nRcvMsgs, rest);
          return Some(e);
        case None =>
          LoopGoesOn(req, sq, CbStep, st, more, nRcvMsgs, rest, (StateOf(cb), n'.0));
          more, nRcvMsgs := n'.0, n'.1;
      }
      k := k + 1;
    }
    assert events[k..] == [];
    LoopWaits(req, sq, CbStep, StateOf(cb), more, nRcvMsgs);
    res := None;
  }

  /** recv_w1msg; without a w1 message in the request there is nothing to wait for. */
  method RecvW1Msg(cnReq: CnMsg, cb: Callback, events: seq<Event>) returns (res: Option<Errc>)
    requires cnReq.data == [] || W1Ok(cnReq.data)
    requires NoNoop(events) && Ready(cb)
    modifies Objects(cb)
    ensures Ready(cb)
    ensures (var out := RecvSpec(cnReq, CbStep, old(StateOf(cb)), events);
             res == ErrOf(out) && StateOf(cb) == out.st)
  {
    hide NoNoop, W1Ok, W1At, CbStep, Loop, StateOf, Ready;
    if cnReq.data == [] {
      return Some(Success);
    }
    res := RecvLoop(W1At(cnReq.data), cnReq.sq, cb, events);
  }

  // ---------------------------------------------------------------- what the callbacks of a run amount to

  /** All deliveries of some datagrams that answer the request, in order. */
  function Answering(req: W1Msg, sq: u32, events: seq<Event>): seq<Delivery> {
    if events == [] then [] else AnsweringIn(req, sq, events[0]) + Answering(req, sq, events[1..])
  }

  function AnsweringIn(req: W1Msg, sq: u32, e: Event): seq<Delivery> {
    if Readable(e) then ForRequest(req, Delivered(Unframed(e.bytes).bytes, sq)) else []
  }

  predicate Readable(e: Event) { e.Datagram? && Unframed(e.bytes).Payload? }

  predicate AllPayload(events: seq<Event>) {
    forall e <- events :: Readable(e)
  }

  /** One readable datagram: its walk is followed by the rest of the loop. */
  lemma ReadStep<S>(req: W1Msg, sq: u32, step: Step<S>, st: S, more: More, n: nat, events: seq<Event>,
                    later: seq<Delivery>)
    requires NoNoop(events) && events != [] && Readable(events[0])
    ensures NoNoop(events[1..])
    ensures (var r := CallBack(req, step, st, more, AnsweringIn(req, sq, events[0]));
      && Loop(req, sq, step, st, more, n, events)
         == Loop(req, sq, step, r.0, r.1, (n + 1) % UINT_RANGE, events[1..])
      && CallBack(req, step, st, more, AnsweringIn(req, sq, events[0]) + later)
         == CallBack(req, step, r.0, r.1, later))
  {
    var ds := Delivered(Unframed(events[0].bytes).bytes, sq);
    CallBackFiltered(req, step, st, more, ds);
    CallBackAppend(req, step, st, more, ForRequest(req, ds), later);
  }

  lemma ReadableMeansNoNoop(datagrams: seq<Event>)
    requires AllPayload(datagrams)
    ensures NoNoop(datagrams + [Timeout])
  {
    forall e | e in datagrams + [Timeout] && e.Datagram? ensures Unframed(e.bytes) != Stuck {
      assert Readable(e);
    }
  }

  lemma SilenceOnly<S>(req: W1Msg, sq: u32, step: Step<S>, st: S, more: More, n: nat)
    ensures NoNoop([Timeout]) && CallBack(req, step, st, more, []) == (st, more)
    ensures Loop(req, sq, step, st, more, n, [Timeout])
         == Done(if n == 0 || more == MoreReq then NoResp else Success, st, more)
  {
  }

  /** `datagrams`, then silence: the callbacks are those of one uninterrupted walk over everything
      that answers the request, and the result depends on the last verdict only. */
  lemma {:induction false} RunIsOneWalk<S>(
      req: W1Msg, sq: u32, step: Step<S>, st: S, more: More, n: nat, datagrams: seq<Event>)
    requires AllPayload(datagrams) && n + |datagrams| < UINT_RANGE
    ensures NoNoop(datagrams + [Timeout])
    ensures (var r := CallBack(req, step, st, more, Answering(req, sq, datagrams));
      Loop(req, sq, step, st, more, n, datagrams + [Timeout])
      == Done(if n + |datagrams| == 0 || r.1 == MoreReq then NoResp else Success, r.0, r.1))
    decreases |datagrams|
  {
    hide AnsweringIn, NoNoop, CallBack, Loop;
    ReadableMeansNoNoop(datagrams);
    var events := datagrams + [Timeout];
    if datagrams == [] {
      assert events == [Timeout];
      SilenceOnly(req, sq, step, st, more, n);
    } else {
      assert events[1..] == datagrams[1..] + [Timeout];
      assert (n + 1) % UINT_RANGE == n + 1;
      var first := AnsweringIn(req, sq, datagrams[0]);
      assert Answering(req, sq, datagrams) == first + Answering(req, sq, datagrams[1..]);
      ReadStep(req, sq, step, st, more, n, events, Answering(req, sq, datagrams[1..]));
      var r := CallBack(req, step, st, more, first);
      RunIsOneWalk(req, sq, step, r.0, r.1, n + 1, datagrams[1..]);
    }
  }

  /** The callbacks of a run are those of one walk over everything that answers among the first `k`
      events. If the run succeeded they were readable datagrams, silence came next, and the last
      verdict was not "more required". */
  ghost predicate WalkedTo<S>(req: W1Msg, sq: u32, step: Step<S>, st: S, more: More, events: seq<Event>,
                              k: nat, out: Outcome<S>)
  {
    && k <= |events|
    && (out.st, out.more) == CallBack(req, step, st, more, Answering(req, sq, events[..k]))
    && (out.Done? && out.err == Success ==>
          k < |events| && events[k] == Timeout && AllPayload(events[..k]) && out.more != MoreReq)
  }

  /** A first event that is not a readable datagram ends the run, or is waited for. */
  lemma RunEnds<S>(req: W1Msg, sq: u32, step: Step<S>, st: S, more: More, n: nat, events: seq<Event>)
    requires NoNoop(events) && (events == [] || !Readable(events[0]))
    ensures WalkedTo(req, sq, step, st, more, events, 0, Loop(req, sq, step, st, more, n, events))
  {
    assert events[..0] == [];
  }

  lemma WalkedOneMore<S>(req: W1Msg, sq: u32, step: Step<S>, st: S, more: More, events: seq<Event>,
                         r: (S, More), k: nat, out: Outcome<S>)
    requires NoNoop(events) && events != [] && Readable(events[0])
    requires r == CallBack(req, step, st, more, AnsweringIn(req, sq, events[0]))
    requires WalkedTo(req, sq, step, r.0, r.1, events[1..], k, out)
    ensures WalkedTo(req, sq, step, st, more, events, k + 1, out)
  {
    hide CallBack, AnsweringIn, Loop;
    var seen, rest := events[..k + 1], events[1..][..k];
    assert seen[1..] == rest && seen == [events[0]] + rest;
    assert Answering(req, sq, seen) == AnsweringIn(req, sq, events[0]) + Answering(req, sq, rest);
    ReadStep(req, sq, step, st, more, 0, events, Answering(req, sq, rest));
  }

  /** Every run whatever is such a walk. */
  lemma {:induction false} EveryRunIsAWalk<S>(
      req: W1Msg, sq: u32, step: Step<S>, st: S, more: More, n: nat, events: seq<Event>) returns (k: nat)
    requires NoNoop(events)
    ensures WalkedTo(req, sq, step, st, more, events, k, Loop(req, sq, step, st, more, n, events))
    decreases |events|
  {
    hide CallBack, Loop, AnsweringIn, WalkedTo, Readable;
    if events == [] || !Readable(events[0]) {
      RunEnds(req, sq, step, st, more, n, events);
      k := 0;
    } else {
      var r := CallBack(req, step, st, more, AnsweringIn(req, sq, events[0]));
      ReadStep(req, sq, step, st, more, n, events, []);
      k := EveryRunIsAWalk(req, sq, step, r.0, r.1, (n + 1) % UINT_RANGE, events[1..]);
      WalkedOneMore(req, sq, step, st, more, events, r, k, Loop(req, sq, step, st, more, n, events));
      k := k + 1;
    }
  }

  /** On any run whatever, success means that a callback was made and that the last one made did not
      ask for more. */
  lemma SuccessMeansContentCallback<S>(
      req: W1Msg, sq: u32, step: Step<S>, st: S, n: nat, events: seq<Event>)
    requires NoNoop(events)
    requires var out := Loop(req, sq, step, st, MoreReq, n, events); out.Done? && out.err == Success
    ensures var out := Loop(req, sq, step, st, MoreReq, n, events);
            out.more != MoreReq && exists k: nat ::
              WalkedTo(req, sq, step, st, MoreReq, events, k, out) && Answering(req, sq, events[..k]) != []
  {
    hide Loop;
    var k := EveryRunIsAWalk(req, sq, step, st, MoreReq, n, events);
    assert CallBack(req, step, st, MoreReq, []) == (st, MoreReq);
  }

  // ---------------------------------------------------------------- executing a w1 message

  function Msgs(ds: seq<Delivery>): (ms: seq<Msg>)
    ensures |ms| == |ds|
  {
    seq(|ds|, k requires 0 <= k < |ds| =>
      Msg(ds[k].msg.status, IsStatus(ds[k]), ParseCmds(ds[k].msg.data)))
  }

  lemma {:induction false} WalkIsFeed(
      req: W1Msg, cmds: seq<Cmd>, st: St, more: More, ds: seq<Delivery>)
    requires forall d <- ds :: Answers(req, d.msg)
    ensures (var r := Feed(cmds, st, more, Msgs(ds));
             CallBack(req, CbStep, ExecState(cmds, st), more, ds) == (ExecState(cmds, r.0), r.1))
    decreases |ds|
  {
    if ds == [] {
    } else if more == NoMore {
      SilentAfterNoMore(req, CbStep, ExecState(cmds, st), ds);
    } else {
      assert Msgs(ds)[1..] == Msgs(ds[1..]);
      assert ds[0] in ds;
      var r := OnMessage(cmds, st, ds[0].msg.status, IsStatus(ds[0]), ParseCmds(ds[0].msg.data));
      WalkIsFeed(req, cmds, r.0, r.1, ds[1..]);
    }
  }

  lemma {:induction false} OnlyAnswers(req: W1Msg, ds: seq<Delivery>)
    ensures forall d <- ForRequest(req, ds) :: Answers(req, d.msg)
  {
    if ds != [] {
      OnlyAnswers(req, ds[1..]);
    }
  }

  lemma {:induction false} AnsweringAnswers(req: W1Msg, sq: u32, events: seq<Event>)
    ensures forall d <- Answering(req, sq, events) :: Answers(req, d.msg)
  {
    if events != [] {
      AnsweringAnswers(req, sq, events[1..]);
      if Readable(events[0]) {
        OnlyAnswers(req, Delivered(Unframed(events[0].bytes).bytes, sq));
      }
    }
  }

  /** The error of the exchange, or else that noted in the callback data. */
  function Verified(err: Errc, status: byte): Errc {
    if err != Success then err else if status != 0 then ProtoErr else Success
  }

  /** Conforming exchange: datagrams of any framing, mixed with any foreign traffic, whose answering
      messages carry in-order, error-free replies. */
  predicate Conforms(req: W1Msg, sq: u32, cmds: seq<Cmd>, own: seq<nat>, datagrams: seq<Event>) {
    var ms := Msgs(Answering(req, sq, datagrams));
    && AllPayload(datagrams) && |datagrams| < UINT_RANGE
    && (forall m <- ms :: Fine(m)) && |Replies(ms)| < UINT_RANGE
    && InOrder(cmds, -1, own, Replies(ms))
  }

  /** Something answered, no read or touch was answered directly behind a command of its own type, and
      none was left without its data. The one exception is an exchange in which messages but no
      replies arrived and only the first command is owed data: there nothing is read. */
  predicate Served(cmds: seq<Cmd>, own: seq<nat>, ms: seq<Msg>)
    requires cmds != []
  {
    ms != [] && TypeChanges(cmds, -1, own) && (!Outstanding(cmds, own) || Blind(cmds, own))
  }

  /** Over in-order, error-free messages the callback ends content exactly when all is served. */
  lemma ContentIffServed(cmds: seq<Cmd>, mem: seq<byte>, own: seq<nat>, ms: seq<Msg>)
    requires Sized(cmds, mem) && cmds != [] && InOrder(cmds, -1, own, Replies(ms))
    requires (forall m <- ms :: Fine(m)) && |Replies(ms)| < UINT_RANGE
    ensures Ranged(cmds, own)
    ensures var r := Feed(cmds, Start(mem), MoreReq, ms);
            && (r.1 != MoreReq && r.0.status == 0 <==> Served(cmds, own, ms))
            && (TypeChanges(cmds, -1, own) ==> RepliesInPlace(cmds, own, Replies(ms), mem, r.0.mem))
  {
    hide RepliesInPlace, TypeChanges, InOrder;
    OwnersInRange(cmds, -1, own, Replies(ms));
    if TypeChanges(cmds, -1, own) {
      EveryReplyInItsOwnBuffer(cmds, mem, own, ms, MoreReq);
      if ms != [] {
        VerdictTellsOutstanding(cmds, mem, own, ms, MoreReq);
        assert Blind(cmds, own) ==> Outstanding(cmds, own);
      }
    } else if ms != [] {
      ContentOnlyIfTypesChange(cmds, mem, own, ms, MoreReq);
    }
  }

  /** On a conforming exchange w1_msg_exec succeeds exactly when all is served; and unless a read or
      touch is answered directly behind a command of its own type, every data reply is then in its own
      buffer. */
  lemma ExecSucceedsIffServed(
      req: W1Msg, sq: u32, cmds: seq<Cmd>, mem: seq<byte>, own: seq<nat>, datagrams: seq<Event>)
    requires Sized(cmds, mem) && cmds != []
    requires Conforms(req, sq, cmds, own, datagrams)
    ensures NoNoop(datagrams + [Timeout]) && Ranged(cmds, own)
    ensures var ms := Msgs(Answering(req, sq, datagrams));
            var out := Loop(req, sq, CbStep, ExecState(cmds, Start(mem)), MoreReq, 0, datagrams + [Timeout]);
            && out.Done? && out.st.ExecState?
            && (Verified(out.err, out.st.exec.status) == Success <==> Served(cmds, own, ms))
            && (TypeChanges(cmds, -1, own) ==> RepliesInPlace(cmds, own, Replies(ms), mem, out.st.exec.mem))
  {
    hide RepliesInPlace, TypeChanges, Outstanding, Blind, InOrder;
    var ds := Answering(req, sq, datagrams);
    var ms := Msgs(ds);
    RunIsOneWalk(req, sq, CbStep, ExecState(cmds, Start(mem)), MoreReq, 0, datagrams);
    AnsweringAnswers(req, sq, datagrams);
    WalkIsFeed(req, cmds, Start(mem), MoreReq, ds);
    ContentIffServed(cmds, mem, own, ms);
    if datagrams == [] {
      assert ds == [];
    }
  }

  // ---------------------------------------------------------------- errors reported by the other side

  /** The `j`-th of some messages is looked at by w1msg_exec_cb: nothing before it has ended the callbacks,
      and commands are left. */
  predicate LookedAt(req: W1Msg, cmds: seq<Cmd>, mem: seq<byte>, ds: seq<Delivery>, j: nat)
    requires j < |ds|
  {
    var r := CallBack(req, CbStep, ExecState(cmds, Start(mem)), MoreReq, ds[..j]);
    r.1 != NoMore && r.0.ExecState? && r.0.cmds == cmds && r.0.exec.at < |cmds|
  }

  /** The `j`-th of some messages is handed to a listing callback. */
  predicate HandedOn(req: W1Msg, kind: Kind, list0: seq<Id>, ds: seq<Delivery>, j: nat)
    requires j < |ds|
  {
    var r := CallBack(req, CbStep, ListState(kind, LSt(list0, 0, 0, 0)), MoreReq, ds[..j]);
    r.1 != NoMore && r.0.ListState? && Roomy(r.0.kind, r.0.lst)
  }

  /** An error report: the ack value of all ones, and a status other than 0. */
  predicate ErrorReport(d: Delivery) { d.ack == 0xffff_ffff && d.msg.status != 0 }

  lemma CallBackAt<S>(req: W1Msg, step: Step<S>, st: S, more: More, ds: seq<Delivery>, j: nat)
    requires j < |ds| && Answers(req, ds[j].msg)
    ensures (var r := CallBack(req, step, st, more, ds[..j]);
      r.1 != NoMore ==>
        var r' := step(r.0, ds[j].msg, IsStatus(ds[j]));
        CallBack(req, step, st, more, ds) == CallBack(req, step, r'.0, r'.1, ds[j + 1..]))
  {
    var rest := ds[j..];
    assert ds == ds[..j] + rest && rest[1..] == ds[j + 1..];
    CallBackAppend(req, step, st, more, ds[..j], rest);
  }

  /** An error report that is looked at ends the callbacks, and its status stays. */
  lemma ExecNotesError(req: W1Msg, cmds: seq<Cmd>, mem: seq<byte>, ds: seq<Delivery>, j: nat)
    requires j < |ds| && Answers(req, ds[j].msg) && LookedAt(req, cmds, mem, ds, j) && ErrorReport(ds[j])
    ensures (var r := CallBack(req, CbStep, ExecState(cmds, Start(mem)), MoreReq, ds);
      r.1 == NoMore && r.0.ExecState? && r.0.exec.status == ds[j].msg.status != 0)
  {
    var st := ExecState(cmds, Start(mem));
    CallBackAt(req, CbStep, st, MoreReq, ds, j);
    hide CallBack;
    var r := CallBack(req, CbStep, st, MoreReq, ds[..j]);
    var r' := CbStep(r.0, ds[j].msg, IsStatus(ds[j]));
    SilentAfterNoMore(req, CbStep, r'.0, ds[j + 1..]);
  }

  lemma ListNotesError(req: W1Msg, kind: Kind, list0: seq<Id>, ds: seq<Delivery>, j: nat)
    requires j < |ds| && Answers(req, ds[j].msg) && HandedOn(req, kind, list0, ds, j) && ErrorReport(ds[j])
    ensures (var r := CallBack(req, CbStep, ListState(kind, LSt(list0, 0, 0, 0)), MoreReq, ds);
      r.1 == NoMore && r.0.ListState? && r.0.lst.status == ds[j].msg.status != 0)
  {
    var st := ListState(kind, LSt(list0, 0, 0, 0));
    CallBackAt(req, CbStep, st, MoreReq, ds, j);
    hide CallBack;
    var r := CallBack(req, CbStep, st, MoreReq, ds[..j]);
    var r' := CbStep(r.0, ds[j].msg, IsStatus(ds[j]));
    SilentAfterNoMore(req, CbStep, r'.0, ds[j + 1..]);
  }

  /** In a message with any other ack the status means nothing. */
  lemma {:induction false} OtherAcksReportNothing(
      req: W1Msg, st: CbState, more: More, xs: seq<Delivery>, d: Delivery, status: byte, ys: seq<Delivery>)
    requires d.ack != 0xffff_ffff
    ensures (var d' := Delivery(d.ack, d.msg.(status := status));
      CallBack(req, CbStep, st, more, xs + [d] + ys) == CallBack(req, CbStep, st, more, xs + [d'] + ys))
  {
    var d' := Delivery(d.ack, d.msg.(status := status));
    var r := CallBack(req, CbStep, st, more, xs);
    SameStep(r.0, d.msg, status);
    assert xs + [d] + ys == xs + ([d] + ys) && xs + [d'] + ys == xs + ([d'] + ys);
    CallBackAppend(req, CbStep, st, more, xs, [d] + ys);
    CallBackAppend(req, CbStep, st, more, xs, [d'] + ys);
    hide CbStep;
    assert ([d] + ys)[1..] == ys && ([d'] + ys)[1..] == ys;
  }

  lemma SameStep(st: CbState, m: W1Msg, status: byte)
    ensures CbStep(st, m, false) == CbStep(st, m.(status := status), false)
  {
  }

  lemma {:induction false} AnsweringPrefix(req: W1Msg, sq: u32, events: seq<Event>, k: nat)
    requires k <= |events|
    ensures Answering(req, sq, events[..k]) <= Answering(req, sq, events)
    decreases k
  {
    if k > 0 {
      hide AnsweringIn;
      AnsweringPrefix(req, sq, events[1..], k - 1);
      assert events[..k][1..] == events[1..][..k - 1];
    }
  }

  /** Where the receive loop ends otherwise: poll() or recv() failing is a communication error, and so is
      silence without a message no response. */
  lemma FirstEventEnds<S>(req: W1Msg, sq: u32, step: Step<S>, st: S, more: More, n: nat, events: seq<Event>)
    requires NoNoop(events) && events != []
    ensures events[0] == PollError || events[0] == RecvError ==>
      Loop(req, sq, step, st, more, n, events) == Done(CommErr, st, more)
    ensures events[0] == Timeout && (n == 0 || more == MoreReq) ==>
      Loop(req, sq, step, st, more, n, events) == Done(NoResp, st, more)
    ensures events[0].Datagram? && Unframed(events[0].bytes).Failed? ==>
      Loop(req, sq, step, st, more, n, events) == Done(Unframed(events[0].bytes).err, st, more)
  {
  }

  // ---------------------------------------------------------------- listing

  function Tagged(ds: seq<Delivery>): (ms: seq<(W1Msg, bool)>)
    ensures |ms| == |ds|
  {
    seq(|ds|, k requires 0 <= k < |ds| => (ds[k].msg, IsStatus(ds[k])))
  }

  lemma {:induction false} WalkIsListFeed(req: W1Msg, kind: Kind, st: LSt, more: More, ds: seq<Delivery>)
    requires Roomy(kind, st) && forall d <- ds :: Answers(req, d.msg)
    ensures CallBack(req, CbStep, ListState(kind, st), more, ds).0
         == ListState(kind, ListFeed(kind, st, more, Tagged(ds)))
    ensures more == MoreReq && ds == [] <==> CallBack(req, CbStep, ListState(kind, st), more, ds).1 == MoreReq
    decreases |ds|
  {
    if ds == [] {
    } else if more == NoMore {
      SilentAfterNoMore(req, CbStep, ListState(kind, st), ds);
    } else {
      assert Tagged(ds)[1..] == Tagged(ds[1..]);
      assert ds[0] in ds;
      var r := ListMessage(kind, st, ds[0].msg, IsStatus(ds[0]));
      WalkIsListFeed(req, kind, r.0, r.1, ds[1..]);
    }
  }

  /** A listing over any datagrams followed by silence succeeds exactly when anything answered and
      nothing bad was among the answers handed to the callback; the list is then the bounded prefix of
      the elements in them. */
  lemma ListingSucceedsIffGood(
      req: W1Msg, sq: u32, kind: Kind, list0: seq<Id>, datagrams: seq<Event>)
    requires |list0| == kind.maxElems
    requires AllPayload(datagrams) && |datagrams| < UINT_RANGE
    ensures NoNoop(datagrams + [Timeout])
    ensures var ms := Handed(kind, Tagged(Answering(req, sq, datagrams)));
            var out := Loop(req, sq, CbStep, ListState(kind, LSt(list0, 0, 0, 0)), MoreReq, 0,
                            datagrams + [Timeout]);
            && out.Done? && out.st.ListState?
            && (Verified(out.err, out.st.lst.status) == Success <==> ms != [] && AllGood(kind, ms))
            && (AllGood(kind, ms) ==> out.st.lst == Summary(kind, list0, Ids(kind.elemSz, Through(kind, ms))))
  {
    hide AllGood, Summary, Through, Ids;
    var ds, st := Answering(req, sq, datagrams), LSt(list0, 0, 0, 0);
    var ms := Handed(kind, Tagged(ds));
    RunIsOneWalk(req, sq, CbStep, ListState(kind, st), MoreReq, 0, datagrams);
    AnsweringAnswers(req, sq, datagrams);
    WalkIsListFeed(req, kind, st, MoreReq, ds);
    StatusIffGood(kind, st, MoreReq, Tagged(ds));
    if AllGood(kind, ms) {
      ListIsBoundedPrefix(kind, list0, MoreReq, ms);
    }
    if datagrams == [] {
      assert ds == [];
    }
  }
}
