/** What the callback of w1_msg_exec does on any replies whatever: which commands have been answered,
    what is written where, and which messages can never be executed. */
module AnyReplies {
  import opened Bytes
  import opened Frames
  import opened InPlace
  import opened Matching

  // ---------------------------------------------------------------- what has been answered

  /** Reply `k` matched command `q` and was taken there. */
  predicate TakenAt(cmds: seq<Cmd>, st: St, rs: seq<W1Cmd>, k: nat, q: nat)
    requires k < |rs| && q < |cmds|
  {
    var r := TakeAll(cmds, st, rs[..k + 1]);
    !r.1 && r.0.at == q && rs[k].code == Code(cmds[q].typ)
  }

  predicate Answered(cmds: seq<Cmd>, st: St, rs: seq<W1Cmd>, q: nat)
    requires q < |cmds|
  {
    exists k :: 0 <= k < |rs| && TakenAt(cmds, st, rs, k, q)
  }

  lemma AnsweredGrows(cmds: seq<Cmd>, st: St, rs: seq<W1Cmd>, n: nat, q: nat)
    requires q < |cmds| && n <= |rs|
    requires Answered(cmds, st, rs[..n], q)
    ensures Answered(cmds, st, rs, q)
  {
    var k :| 0 <= k < n && TakenAt(cmds, st, rs[..n], k, q);
    assert rs[..n][..k + 1] == rs[..k + 1];
    assert TakenAt(cmds, st, rs, k, q);
  }

  /** What one reply does to the index: commands passed are not reads or touches, except possibly
      the one it stood at, which has then been hit before. */
  lemma {:induction false} PassedOver(cmds: seq<Cmd>, st: St, r: W1Cmd)
    ensures var t := Take(cmds, st, r);
            && (forall q :: st.at < q < t.0.at && q < |cmds| ==> !Needs(cmds[q]))
            && (st.at < t.0.at && st.at < |cmds| && Needs(cmds[st.at]) ==> st.hits > 0)
            && (t.0.hits > 0 && t.0.at < |cmds| ==>
                  (t.0.at == st.at && st.hits > 0) || r.code == Code(cmds[t.0.at].typ))
            && (!t.1 ==> t.0.at < |cmds| && r.code == Code(cmds[t.0.at].typ))
            && (t.1 && t.0.status == st.status == 0 ==> t.0.at >= |cmds|)
    decreases |cmds| - st.at
  {
    if st.at < |cmds| && r.code != Code(cmds[st.at].typ) && (!Needs(cmds[st.at]) || st.hits > 0) {
      PassedOver(cmds, st.(at := st.at + 1, hits := 0), r);
    }
  }

  /** On every reply stream: the index stays within the list, and every read or touch behind it, and
      the one at it once a reply has been taken there, has had a reply of its own type. */
  lemma {:induction false} BehindMeansAnswered(cmds: seq<Cmd>, mem: seq<byte>, rs: seq<W1Cmd>)
    ensures var t := TakeAll(cmds, Start(mem), rs).0;
            && t.at <= |cmds|
            && (forall q :: 0 <= q < t.at && Needs(cmds[q]) ==> Answered(cmds, Start(mem), rs, q))
            && (!TakeAll(cmds, Start(mem), rs).1 && t.at < |cmds| && t.hits > 0 ==>
                  Answered(cmds, Start(mem), rs, t.at))
    decreases |rs|
  {
    if rs == [] {
    } else {
      var n := |rs| - 1;
      var st := Start(mem);
      BehindMeansAnswered(cmds, mem, rs[..n]);
      TakeLast(cmds, st, rs, n);
      assert rs[..n + 1] == rs;
      var p := TakeAll(cmds, st, rs[..n]);
      forall q | 0 <= q < |cmds| && Answered(cmds, st, rs[..n], q) ensures Answered(cmds, st, rs, q) {
        AnsweredGrows(cmds, st, rs, n, q);
      }
      if !p.1 {
        PassedOver(cmds, p.0, rs[n]);
        var t := Take(cmds, p.0, rs[n]);
        if !t.1 && t.0.at < |cmds| && rs[n].code == Code(cmds[t.0.at].typ) {
          assert TakenAt(cmds, st, rs, n, t.0.at);
        }
      }
    }
  }

  /** A reply that does not stop the walk has been taken where the index now is. */
  lemma LastTaken(cmds: seq<Cmd>, st: St, rs: seq<W1Cmd>)
    requires rs != [] && !TakeAll(cmds, st, rs).1
    ensures var at := TakeAll(cmds, st, rs).0.at; at < |cmds| && Answered(cmds, st, rs, at)
  {
    var n := |rs| - 1;
    TakeLast(cmds, st, rs, n);
    assert rs[..n + 1] == rs;
    PassedOver(cmds, TakeAll(cmds, st, rs[..n]).0, rs[n]);
    assert TakenAt(cmds, st, rs, n, TakeAll(cmds, st, rs).0.at);
  }

  /** The walk stops without an error only at the end of the list. */
  lemma {:induction false} StopsAtEnd(cmds: seq<Cmd>, st: St, rs: seq<W1Cmd>)
    requires st.status == 0
    ensures var t := TakeAll(cmds, st, rs);
            (t.1 && t.0.status == 0 ==> t.0.at >= |cmds|) && (!t.1 ==> t.0.status == 0)
    decreases |rs|
  {
    if rs != [] {
      PassedOver(cmds, st, rs[0]);
      StatusKept(cmds, st, rs[0]);
      var r := Take(cmds, st, rs[0]);
      if !r.1 {
        StopsAtEnd(cmds, r.0, rs[1..]);
      }
    }
  }

  lemma {:induction false} StatusKept(cmds: seq<Cmd>, st: St, r: W1Cmd)
    ensures var t := Take(cmds, st, r); !t.1 ==> t.0.status == st.status
    decreases |cmds| - st.at
  {
    if st.at < |cmds| && r.code != Code(cmds[st.at].typ) && (!Needs(cmds[st.at]) || st.hits > 0) {
      StatusKept(cmds, st.(at := st.at + 1, hits := 0), r);
    }
  }

  /** The messages of a run whose replies are looked at: all until the callback says "no more", an
      error is reported, or the index has run off the list. */
  function Consumed(cmds: seq<Cmd>, st: St, more: More, ms: seq<Msg>): (c: seq<Msg>)
    ensures c <= ms && forall m <- c :: Fine(m)
    decreases |ms|
  {
    if ms == [] || more == NoMore || !Fine(ms[0]) || st.at >= |cmds| then []
    else
      var r := OnMessage(cmds, st, ms[0].status, ms[0].isStatus, ms[0].replies);
      [ms[0]] + Consumed(cmds, r.0, r.1, ms[1..])
  }

  lemma FeedNothingMore(cmds: seq<Cmd>, st: St, ms: seq<Msg>)
    ensures Feed(cmds, st, NoMore, ms) == (st, NoMore) && Consumed(cmds, st, NoMore, ms) == []
  {
  }

  /** Memory is what the replies consumed make of it. */
  lemma {:induction false} MemoryOfConsumed(cmds: seq<Cmd>, st: St, more: More, ms: seq<Msg>)
    ensures Feed(cmds, st, more, ms).0.mem
         == TakeAll(cmds, st, Replies(Consumed(cmds, st, more, ms))).0.mem
    decreases |ms|
  {
    var c := Consumed(cmds, st, more, ms);
    if c == [] {
      if ms != [] && more != NoMore {
        var r := OnMessage(cmds, st, ms[0].status, ms[0].isStatus, ms[0].replies);
        FeedNothingMore(cmds, r.0, ms[1..]);
      }
    } else {
      var m := ms[0];
      var r := OnMessage(cmds, st, m.status, m.isStatus, m.replies);
      assert c[1..] == Consumed(cmds, r.0, r.1, ms[1..]);
      TakeAllAppend(cmds, st, m.replies, Replies(c[1..]));
      if r.1 == NoMore {
        FeedNothingMore(cmds, r.0, ms[1..]);
      } else {
        MemoryOfConsumed(cmds, r.0, r.1, ms[1..]);
      }
    }
  }

  /** Status 0 at the end means that only messages behind the end of the list were not consumed. */
  lemma {:induction false} ConsumedFine(cmds: seq<Cmd>, st: St, more: More, ms: seq<Msg>)
    requires st.status == 0 && st.at < |cmds| && more != NoMore && Feed(cmds, st, more, ms).0.status == 0
    ensures var c := Consumed(cmds, st, more, ms);
            && Feed(cmds, st, more, ms) == Feed(cmds, st, more, c)
            && (|c| < |ms| ==> Feed(cmds, st, more, ms).0.at >= |cmds|)
    decreases |ms|
  {
    if ms != [] {
      var m, c := ms[0], Consumed(cmds, st, more, ms);
      var r := OnMessage(cmds, st, m.status, m.isStatus, m.replies);
      StopsAtEnd(cmds, st, m.replies);
      StaysInside(cmds, st, m.replies);
      FeedNothingMore(cmds, r.0, ms[1..]);
      FeedNothingMore(cmds, r.0, []);
      assert c == [m] + Consumed(cmds, r.0, r.1, ms[1..]);
      assert c[1..] == Consumed(cmds, r.0, r.1, ms[1..]);
      if r.1 != NoMore {
        ConsumedFine(cmds, r.0, r.1, ms[1..]);
      }
    }
  }

  predicate AllAnswered(cmds: seq<Cmd>, mem: seq<byte>, rs: seq<W1Cmd>) {
    forall q :: 0 <= q < |cmds| && Needs(cmds[q]) ==> Answered(cmds, Start(mem), rs, q)
  }

  lemma FineAndContent(cmds: seq<Cmd>, mem: seq<byte>, ms: seq<Msg>, more: More)
    requires more != NoMore && Replies(ms) != [] && forall m <- ms :: Fine(m)
    requires var r := Feed(cmds, Start(mem), more, ms); r.0.status == 0 && r.1 != MoreReq
    ensures AllAnswered(cmds, mem, Replies(ms))
  {
    var st, rs := Start(mem), Replies(ms);
    if cmds != [] {
      var r := Feed(cmds, st, more, ms);
      CutsDoNotMatter(cmds, st, more, ms);
      LastVerdict(cmds, st, more, ms);
      BehindMeansAnswered(cmds, mem, rs);
      StopsAtEnd(cmds, st, rs);
      if !TakeAll(cmds, st, rs).1 {
        LastTaken(cmds, st, rs);
      }
      forall q | 0 <= q < |cmds| && Needs(cmds[q]) ensures Answered(cmds, st, rs, q) {
        assert q <= r.0.at || Ahead(cmds, r.0.at);
      }
    }
  }

  /** On every run of messages: when the callback ends content, with status 0 and a verdict other than
      "more required", every read and touch has been answered by a reply consumed. Without any such
      reply nothing but the first command can be owed data. */
  lemma ContentMeansAllAnswered(cmds: seq<Cmd>, mem: seq<byte>, ms: seq<Msg>)
    requires cmds != []
    requires var r := Feed(cmds, Start(mem), MoreReq, ms); r.0.status == 0 && r.1 != MoreReq
    ensures var rs := Replies(Consumed(cmds, Start(mem), MoreReq, ms));
            if rs == [] then !Ahead(cmds, 0) else AllAnswered(cmds, mem, rs)
  {
    var c := Consumed(cmds, Start(mem), MoreReq, ms);
    ConsumedFine(cmds, Start(mem), MoreReq, ms);
    if Replies(c) == [] {
      CutsDoNotMatter(cmds, Start(mem), MoreReq, c);
      LastVerdict(cmds, Start(mem), MoreReq, c);
    } else {
      FineAndContent(cmds, mem, c, MoreReq);
    }
  }

  /** An empty reply counts as an answer: the callback is content and nothing has been read. */
  lemma EmptyReplyExample(x: byte)
    ensures Feed([Cmd(Read, 0, 1)], Start([x]), MoreReq, [Msg(0, false, [W1Cmd(0, 0, [])])])
         == (St(0, 1, 0, [x]), MoreOpt)
  {
    var cmds, r := [Cmd(Read, 0, 1)], W1Cmd(0, 0, []);
    var ms := [Msg(0, false, [r])];
    assert ms[1..] == [] && [r][1..] == [];
    assert Take(cmds, Start([x]), r) == (St(0, 1, 0, [x]), false);
    assert TakeAll(cmds, Start([x]), [r]) == (St(0, 1, 0, [x]), false);
    assert !Ahead(cmds, 0);
    assert OnMessage(cmds, Start([x]), 0, false, [r]) == (St(0, 1, 0, [x]), MoreOpt);
  }

  // ---------------------------------------------------------------- what is written where

  /** What one reply writes: nothing, or its data into the buffer of the command it is taken by. */
  lemma {:induction false} OneWrite(cmds: seq<Cmd>, st: St, r: W1Cmd)
    ensures var t := Take(cmds, st, r);
            if t.1 then t.0.mem == st.mem
            else
              var at := t.0.at;
              && at < |cmds| && r.code == Code(cmds[at].typ)
              && (Needs(cmds[at]) && |r.data| > 0 ==> |r.data| == cmds[at].len)
              && t.0.mem == if Needs(cmds[at]) && |r.data| > 0 then Store(st.mem, cmds[at], r.data) else st.mem
    decreases |cmds| - st.at
  {
    if st.at < |cmds| && r.code != Code(cmds[st.at].typ) && (!Needs(cmds[st.at]) || st.hits > 0) {
      OneWrite(cmds, st.(at := st.at + 1, hits := 0), r);
    }
  }

  /** Reply `r` would put `x` at byte `j`, taken by a read or touch of its own code and length. */
  predicate Puts(cmds: seq<Cmd>, r: W1Cmd, j: nat, x: byte) {
    exists q :: 0 <= q < |cmds| && Accepts(cmds[q], r) && Inside(cmds[q], j) && r.data[j - cmds[q].addr] == x
  }

  predicate Accepts(c: Cmd, r: W1Cmd) { Needs(c) && r.code == Code(c.typ) && |r.data| == c.len }

  predicate PutBySome(cmds: seq<Cmd>, rs: seq<W1Cmd>, j: nat, x: byte) {
    exists r <- rs :: Puts(cmds, r, j, x)
  }

  /** Every byte is as before or was put there by one of the replies. */
  predicate Explained(cmds: seq<Cmd>, rs: seq<W1Cmd>, mem: seq<byte>, mem': seq<byte>) {
    && |mem'| == |mem|
    && forall j :: 0 <= j < |mem| ==> mem'[j] == mem[j] || PutBySome(cmds, rs, j, mem'[j])
  }

  lemma ExplainedByOne(cmds: seq<Cmd>, mem: seq<byte>, q: nat, r: W1Cmd)
    requires q < |cmds| && Accepts(cmds[q], r)
    ensures Explained(cmds, [r], mem, Store(mem, cmds[q], r.data))
  {
    var c := cmds[q];
    var mem' := Store(mem, c, r.data);
    assert r in [r];
    if c.addr + |r.data| <= |mem| {
      forall j | 0 <= j < |mem| ensures mem'[j] == mem[j] || PutBySome(cmds, [r], j, mem'[j]) {
        if Inside(c, j) {
          assert mem'[j] == r.data[j - c.addr];
          assert Puts(cmds, r, j, mem'[j]);
        }
      }
    }
  }

  lemma ExplainedMore(cmds: seq<Cmd>, rs: seq<W1Cmd>, more: seq<W1Cmd>, mem: seq<byte>, mem': seq<byte>)
    requires Explained(cmds, rs, mem, mem') && forall r <- rs :: r in more
    ensures Explained(cmds, more, mem, mem')
  {
  }

  lemma ExplainedTwice(cmds: seq<Cmd>, rs: seq<W1Cmd>, a: seq<byte>, b: seq<byte>, c: seq<byte>)
    requires Explained(cmds, rs, a, b) && Explained(cmds, rs, b, c)
    ensures Explained(cmds, rs, a, c)
  {
    hide PutBySome;
  }

  lemma {:induction false} TakeAllExplained(cmds: seq<Cmd>, st: St, rs: seq<W1Cmd>)
    ensures Explained(cmds, rs, st.mem, TakeAll(cmds, st, rs).0.mem)
    decreases |rs|
  {
    if rs != [] {
      var t := Take(cmds, st, rs[0]);
      OneWrite(cmds, st, rs[0]);
      if t.0.mem != st.mem {
        ExplainedByOne(cmds, st.mem, t.0.at, rs[0]);
        ExplainedMore(cmds, [rs[0]], rs, st.mem, t.0.mem);
      }
      if !t.1 {
        TakeAllExplained(cmds, t.0, rs[1..]);
        ExplainedMore(cmds, rs[1..], rs, t.0.mem, TakeAll(cmds, t.0, rs[1..]).0.mem);
        ExplainedTwice(cmds, rs, st.mem, t.0.mem, TakeAll(cmds, st, rs).0.mem);
      }
    }
  }

  // ---------------------------------------------------------------- what a buffer holds in the end

  /** Reply `k` is taken by the read or touch `q` and brings data. */
  predicate FillsAt(cmds: seq<Cmd>, st: St, rs: seq<W1Cmd>, k: nat, q: nat)
    requires k < |rs| && q < |cmds|
  {
    Needs(cmds[q]) && |rs[k].data| > 0 && TakenAt(cmds, st, rs, k, q)
  }

  /** From reply `k` on none brings data to `q`. */
  predicate NoFillFrom(cmds: seq<Cmd>, st: St, rs: seq<W1Cmd>, k: nat, q: nat)
    requires q < |cmds|
  {
    forall j :: k <= j < |rs| ==> !FillsAt(cmds, st, rs, j, q)
  }

  predicate LastFill(cmds: seq<Cmd>, st: St, rs: seq<W1Cmd>, k: nat, q: nat)
    requires k < |rs| && q < |cmds|
  {
    FillsAt(cmds, st, rs, k, q) && NoFillFrom(cmds, st, rs, k + 1, q)
  }

  /** `data` is what the last reply with data for `q` brought, or `was` if there was none. */
  predicate IsLast(cmds: seq<Cmd>, st: St, rs: seq<W1Cmd>, q: nat, was: seq<byte>, data: seq<byte>)
    requires q < |cmds|
  {
    || (NoFillFrom(cmds, st, rs, 0, q) && data == was)
    || exists k :: 0 <= k < |rs| && LastFill(cmds, st, rs, k, q) && data == rs[k].data
  }

  lemma FillsInPrefix(cmds: seq<Cmd>, st: St, rs: seq<W1Cmd>, n: nat, k: nat, q: nat)
    requires k < n <= |rs| && q < |cmds|
    ensures FillsAt(cmds, st, rs[..n], k, q) <==> FillsAt(cmds, st, rs, k, q)
  {
    assert rs[..n][..k + 1] == rs[..k + 1];
  }

  /** One more reply that brings no data to `q` changes nothing for it. */
  lemma IsLastStill(cmds: seq<Cmd>, st: St, rs: seq<W1Cmd>, q: nat, was: seq<byte>, data: seq<byte>)
    requires rs != [] && q < |cmds| && IsLast(cmds, st, rs[..|rs| - 1], q, was, data)
    requires !FillsAt(cmds, st, rs, |rs| - 1, q)
    ensures IsLast(cmds, st, rs, q, was, data)
  {
    hide FillsAt;
    var n := |rs| - 1;
    forall k | 0 <= k < n
      ensures FillsAt(cmds, st, rs[..n], k, q) <==> FillsAt(cmds, st, rs, k, q)
    {
      FillsInPrefix(cmds, st, rs, n, k, q);
    }
    if !(NoFillFrom(cmds, st, rs[..n], 0, q) && data == was) {
      var k: nat :| k < n && LastFill(cmds, st, rs[..n], k, q) && data == rs[..n][k].data;
      assert LastFill(cmds, st, rs, k, q);
    }
  }

  lemma StoreApart(mem: seq<byte>, c: Cmd, data: seq<byte>, d: Cmd)
    requires Within(c, mem) && |data| == c.len && Within(d, mem) && (Apart(c, d) || Apart(d, c))
    ensures DataOf(d, Store(mem, c, data)) == DataOf(d, mem)
  {
    StoreParts(mem, c, data);
    assert forall j :: 0 <= j < |mem| && Inside(d, j) ==> !Inside(c, j);
  }

  lemma OthersKept(cmds: seq<Cmd>, mem: seq<byte>, p: nat, q: nat, data: seq<byte>)
    requires OwnBuffers(cmds) && p < |cmds| && q < |cmds| && p != q && Needs(cmds[p]) && Needs(cmds[q])
    requires |data| == cmds[p].len && Within(cmds[q], mem)
    ensures DataOf(cmds[q], Store(mem, cmds[p], data)) == DataOf(cmds[q], mem)
  {
    assert Apart(cmds[if p < q then p else q], cmds[if p < q then q else p]);
    if Within(cmds[p], mem) {
      StoreApart(mem, cmds[p], data, cmds[q]);
    }
  }

  lemma {:induction false} BufferHoldsLast(cmds: seq<Cmd>, st: St, rs: seq<W1Cmd>, q: nat)
    requires OwnBuffers(cmds) && q < |cmds| && Needs(cmds[q]) && Within(cmds[q], st.mem)
    ensures IsLast(cmds, st, rs, q, DataOf(cmds[q], st.mem), DataOf(cmds[q], TakeAll(cmds, st, rs).0.mem))
    decreases |rs|
  {
    if rs != [] {
      hide IsLast, OwnBuffers, DataOf, Store;
      var n := |rs| - 1;
      var was := DataOf(cmds[q], st.mem);
      BufferHoldsLast(cmds, st, rs[..n], q);
      TakeLast(cmds, st, rs, n);
      assert rs[..n + 1] == rs;
      var p := TakeAll(cmds, st, rs[..n]);
      OneWrite(cmds, p.0, rs[n]);
      var t := TakeAll(cmds, st, rs);
      if FillsAt(cmds, st, rs, n, q) {
        StoreParts(p.0.mem, cmds[q], rs[n].data);
        LastIsLast(cmds, st, rs, q, was);
      } else {
        if !p.1 && !t.1 && Needs(cmds[t.0.at]) && |rs[n].data| > 0 {
          assert TakenAt(cmds, st, rs, n, t.0.at);
          OthersKept(cmds, p.0.mem, t.0.at, q, rs[n].data);
        }
        IsLastStill(cmds, st, rs, q, was, DataOf(cmds[q], t.0.mem));
      }
    }
  }

  lemma LastIsLast(cmds: seq<Cmd>, st: St, rs: seq<W1Cmd>, q: nat, was: seq<byte>)
    requires rs != [] && q < |cmds| && FillsAt(cmds, st, rs, |rs| - 1, q)
    ensures IsLast(cmds, st, rs, q, was, rs[|rs| - 1].data)
  {
    assert LastFill(cmds, st, rs, |rs| - 1, q);
  }

  /** Every buffer of a read or touch holds the data of the last reply that brought some to it, or what
      it held before. */
  predicate BuffersHoldLast(cmds: seq<Cmd>, rs: seq<W1Cmd>, mem: seq<byte>, mem': seq<byte>)
    requires |mem'| == |mem|
  {
    forall q :: 0 <= q < |cmds| && Needs(cmds[q]) && Within(cmds[q], mem) ==>
      IsLast(cmds, Start(mem), rs, q, DataOf(cmds[q], mem), DataOf(cmds[q], mem'))
  }

  /** What some replies make of memory, whatever they are: bytes change only where a read or touch has its
      buffer, and only to what a reply of its own code and length carries; and buffers that do not
      overlap hold just what came last for them. */
  predicate Written(cmds: seq<Cmd>, rs: seq<W1Cmd>, mem: seq<byte>, mem': seq<byte>) {
    Explained(cmds, rs, mem, mem') && (OwnBuffers(cmds) ==> BuffersHoldLast(cmds, rs, mem, mem'))
  }

  /** On any run of messages whatever, memory is what the replies consumed make of it. */
  lemma OnlyRepliesAreWritten(cmds: seq<Cmd>, mem: seq<byte>, more: More, ms: seq<Msg>)
    ensures Written(cmds, Replies(Consumed(cmds, Start(mem), more, ms)), mem,
                    Feed(cmds, Start(mem), more, ms).0.mem)
  {
    hide Explained, IsLast, Consumed, Feed, OwnBuffers, DataOf;
    var rs := Replies(Consumed(cmds, Start(mem), more, ms));
    MemoryOfConsumed(cmds, Start(mem), more, ms);
    TakeAllExplained(cmds, Start(mem), rs);
    if OwnBuffers(cmds) {
      forall q | 0 <= q < |cmds| && Needs(cmds[q]) && Within(cmds[q], mem)
        ensures IsLast(cmds, Start(mem), rs, q, DataOf(cmds[q], mem),
                       DataOf(cmds[q], TakeAll(cmds, Start(mem), rs).0.mem))
      {
        BufferHoldsLast(cmds, Start(mem), rs, q);
      }
    }
  }

  // ---------------------------------------------------------------- messages that never succeed

  /** A read or touch directly behind a command of its own type. */
  predicate BehindItsType(cmds: seq<Cmd>, j: nat) {
    0 < j < |cmds| && Needs(cmds[j]) && cmds[j - 1].typ == cmds[j].typ
  }

  predicate NoneBehindItsType(cmds: seq<Cmd>) {
    forall j :: 0 <= j < |cmds| ==> !BehindItsType(cmds, j)
  }

  /** The index never gets to such a command: all replies of its type are taken by the one in front
      of it, and any other reply is an error. */
  lemma {:induction false} TakeBlocked(cmds: seq<Cmd>, j: nat, st: St, r: W1Cmd)
    requires BehindItsType(cmds, j) && st.at < j
    ensures var t := Take(cmds, st, r);
            if t.1 then t.0.status == NO_MATCH else t.0.at < j && t.0.status == st.status
    decreases j - st.at
  {
    if r.code != Code(cmds[st.at].typ) && (!Needs(cmds[st.at]) || st.hits > 0) && st.at + 1 < j {
      TakeBlocked(cmds, j, st.(at := st.at + 1, hits := 0), r);
    }
  }

  lemma {:induction false} TakeAllBlocked(cmds: seq<Cmd>, j: nat, st: St, rs: seq<W1Cmd>)
    requires BehindItsType(cmds, j) && st.at < j
    ensures var t := TakeAll(cmds, st, rs);
            if t.1 then t.0.status == NO_MATCH else t.0.at < j
    decreases |rs|
  {
    if rs != [] {
      TakeBlocked(cmds, j, st, rs[0]);
      var t := Take(cmds, st, rs[0]);
      if !t.1 {
        TakeAllBlocked(cmds, j, t.0, rs[1..]);
      }
    }
  }

  /** So whatever messages come in, the callback keeps asking for more, or notes an error. */
  lemma {:induction false} NeverContent(cmds: seq<Cmd>, j: nat, st: St, ms: seq<Msg>)
    requires BehindItsType(cmds, j) && st.at < j
    ensures var r := Feed(cmds, st, MoreReq, ms); r.1 == MoreReq || r.0.status != 0
    decreases |ms|
  {
    if ms != [] {
      var m := ms[0];
      TakeAllBlocked(cmds, j, st, m.replies);
      var r := OnMessage(cmds, st, m.status, m.isStatus, m.replies);
      if r.1 == NoMore {
        FeedNothingMore(cmds, r.0, ms[1..]);
      } else {
        assert Ahead(cmds, r.0.at);
        NeverContent(cmds, j, r.0, ms[1..]);
      }
    }
  }
}
