/** Matching replies to executed commands: the callback of w1_msg_exec as a function, what it does
    on in-order replies, and what it does on any replies at all. */
module Matching {
  import opened Bytes
  import opened Frames
  import opened InPlace

  datatype CmdType = Read | Write | Touch | BusReset | WritePullup

  /** A command of a w1 message; its buffer is `len` bytes of the caller's memory from `addr` on (none
      for a null pointer). Buffers of different commands may be the same or overlap. */
  datatype Cmd = Cmd(typ: CmdType, addr: nat, len: nat)

  /** convert_cmd_type in the default build, where the pull-up write has no code of its own. */
  function Code(t: CmdType): byte {
    match t
    case Read => 0
    case Write => 1
    case Touch => 4
    case BusReset => 5
    case WritePullup => 255
  }

  /** IS_RESP_REQUIRED. */
  predicate Needs(c: Cmd) { c.typ == Read || c.typ == Touch }

  const ENOMSG := 42
  /** -ENOMSG stored in the 8-bit status. */
  const NO_MATCH: byte := 256 - ENOMSG
  const UINT_RANGE := 0x1_0000_0000

  /** n_prc_cmds, cmd_msgs and status of the callback data, and the caller's memory. */
  datatype St = St(at: nat, hits: nat, status: byte, mem: seq<byte>)

  predicate Within(c: Cmd, mem: seq<byte>) { c.addr + c.len <= |mem| }

  /** All buffers are in memory. */
  predicate Sized(cmds: seq<Cmd>, mem: seq<byte>) {
    forall q :: 0 <= q < |cmds| ==> Within(cmds[q], mem)
  }

  function DataOf(c: Cmd, mem: seq<byte>): (d: seq<byte>)
    requires Within(c, mem)
    ensures |d| == c.len
  {
    mem[c.addr..c.addr + c.len]
  }

  /** Whether the buffer of a command holds some data. */
  predicate Has(mem: seq<byte>, c: Cmd, data: seq<byte>) { Within(c, mem) && DataOf(c, mem) == data }

  /** Memory after copying data into the buffer of a command. */
  function Store(mem: seq<byte>, c: Cmd, data: seq<byte>): (mem': seq<byte>)
    ensures |mem'| == |mem|
  {
    if c.addr + |data| <= |mem| then Overwrite(mem, c.addr, data) else mem
  }

  lemma StoreNothing(mem: seq<byte>, c: Cmd)
    ensures Store(mem, c, []) == mem
  {
  }

  /** Whether a byte of memory is in the buffer of a command. */
  predicate Inside(c: Cmd, j: int) { c.addr <= j < c.addr + c.len }

  predicate Apart(a: Cmd, b: Cmd) {
    a.len == 0 || b.len == 0 || a.addr + a.len <= b.addr || b.addr + b.len <= a.addr
  }

  /** No two reads or touches put their data into the same memory. */
  predicate OwnBuffers(cmds: seq<Cmd>) {
    forall p, q :: 0 <= p < q < |cmds| && Needs(cmds[p]) && Needs(cmds[q]) ==> Apart(cmds[p], cmds[q])
  }

  lemma StoreParts(mem: seq<byte>, c: Cmd, data: seq<byte>)
    requires Within(c, mem) && |data| == c.len
    ensures DataOf(c, Store(mem, c, data)) == data
    ensures forall j :: 0 <= j < |mem| && !Inside(c, j) ==> Store(mem, c, data)[j] == mem[j]
  {
  }

  function Start(mem: seq<byte>): St { St(0, 0, 0, mem) }

  /** One reply: the index moves on past commands that do not match, then the reply is taken or
      refused. The flag tells that the callback stops here with "no more". */
  function Take(cmds: seq<Cmd>, st: St, r: W1Cmd): (res: (St, bool))
    ensures |res.0.mem| == |st.mem| && st.at <= res.0.at
    ensures st.at <= |cmds| ==> res.0.at <= |cmds|
    decreases |cmds| - st.at
  {
    if st.at >= |cmds| then (st, true)
    else
      var c := cmds[st.at];
      if r.code != Code(c.typ) then
        if !Needs(c) || st.hits > 0 then Take(cmds, st.(at := st.at + 1, hits := 0), r)
        else (st.(status := NO_MATCH), true)
      else
        var st1 := st.(hits := (st.hits + 1) % UINT_RANGE);
        if Needs(c) && |r.data| > 0 then
          if |r.data| != c.len then (st1.(status := NO_MATCH), true)
          else (st1.(mem := Store(st.mem, c, r.data)), false)
        else (st1, false)
  }

  function TakeAll(cmds: seq<Cmd>, st: St, rs: seq<W1Cmd>): (res: (St, bool))
    ensures |res.0.mem| == |st.mem|
    decreases |rs|
  {
    if rs == [] then (st, false)
    else
      var r := Take(cmds, st, rs[0]);
      if r.1 then r else TakeAll(cmds, r.0, rs[1..])
  }

  /** Whether a read or touch is still ahead of the index. */
  predicate Ahead(cmds: seq<Cmd>, from: int) {
    exists q :: from < q < |cmds| && 0 <= q && Needs(cmds[q])
  }

  function Verdict(cmds: seq<Cmd>, r: (St, bool)): More {
    if r.1 then NoMore else if Ahead(cmds, r.0.at) then MoreReq else MoreOpt
  }

  /** w1msg_exec_cb on one message carrying the replies `rs`. */
  function OnMessage(cmds: seq<Cmd>, st: St, status: byte, isStatus: bool, rs: seq<W1Cmd>): (res: (St, More))
    ensures |res.0.mem| == |st.mem|
  {
    if st.at >= |cmds| then (st, NoMore)
    else if isStatus && status != 0 then (st.(status := status), NoMore)
    else
      var r := TakeAll(cmds, st, rs);
      (r.0, Verdict(cmds, r))
  }

  /** A first reply of another type for a read or touch, or data of another length, is no match:
      -ENOMSG, as a byte. */
  lemma Unmatched(cmds: seq<Cmd>, st: St, r: W1Cmd)
    requires st.at < |cmds| && (cmds[st.at].typ == Read || cmds[st.at].typ == Touch)
    ensures r.code != Code(cmds[st.at].typ) && st.hits == 0 ==> Take(cmds, st, r) == (st.(status := 214), true)
    ensures r.code == Code(cmds[st.at].typ) && 0 < |r.data| != cmds[st.at].len ==>
      Take(cmds, st, r) == (st.(hits := (st.hits + 1) % 0x1_0000_0000, status := 214), true)
  {
  }

  // ---------------------------------------------------------------- folding lemmas

  lemma {:induction false} TakeAllAppend(cmds: seq<Cmd>, st: St, xs: seq<W1Cmd>, ys: seq<W1Cmd>)
    ensures var r := TakeAll(cmds, st, xs);
            TakeAll(cmds, st, xs + ys) == if r.1 then r else TakeAll(cmds, r.0, ys)
    decreases |xs|
  {
    if xs == [] {
      assert xs + ys == ys;
    } else {
      assert (xs + ys)[1..] == xs[1..] + ys;
      var r := Take(cmds, st, xs[0]);
      if !r.1 {
        TakeAllAppend(cmds, r.0, xs[1..], ys);
      }
    }
  }

  lemma TakeLast(cmds: seq<Cmd>, st: St, rs: seq<W1Cmd>, k: nat)
    requires k < |rs|
    ensures var r := TakeAll(cmds, st, rs[..k]);
            TakeAll(cmds, st, rs[..k + 1]) == if r.1 then r else Take(cmds, r.0, rs[k])
  {
    var r := TakeAll(cmds, st, rs[..k]);
    assert rs[..k + 1] == rs[..k] + [rs[k]];
    TakeAllAppend(cmds, st, rs[..k], [rs[k]]);
    if !r.1 {
      var t := Take(cmds, r.0, rs[k]);
      assert [rs[k]][1..] == [];
      assert TakeAll(cmds, t.0, []) == (t.0, false);
    }
  }

  // ---------------------------------------------------------------- how replies are cut into messages

  datatype Msg = Msg(status: byte, isStatus: bool, replies: seq<W1Cmd>)

  predicate Fine(m: Msg) { !(m.isStatus && m.status != 0) }

  function Replies(ms: seq<Msg>): seq<W1Cmd> {
    if ms == [] then [] else ms[0].replies + Replies(ms[1..])
  }

  /** The callback over a run of messages; none is handed to it after "no more". */
  function Feed(cmds: seq<Cmd>, st: St, more: More, ms: seq<Msg>): (res: (St, More))
    ensures |res.0.mem| == |st.mem|
    decreases |ms|
  {
    if ms == [] || more == NoMore then (st, more)
    else
      var r := OnMessage(cmds, st, ms[0].status, ms[0].isStatus, ms[0].replies);
      Feed(cmds, r.0, r.1, ms[1..])
  }

  /** The callback data after any run of error-free messages depends on the replies alone, not on
      their division into messages. */
  lemma {:induction false} CutsDoNotMatter(cmds: seq<Cmd>, st: St, more: More, ms: seq<Msg>)
    requires more != NoMore
    requires forall m <- ms :: Fine(m)
    ensures Feed(cmds, st, more, ms).0 == TakeAll(cmds, st, Replies(ms)).0
    decreases |ms|
  {
    if ms == [] {
    } else {
      var m, rest := ms[0], Replies(ms[1..]);
      assert Fine(m);
      TakeAllAppend(cmds, st, m.replies, rest);
      var r := OnMessage(cmds, st, m.status, m.isStatus, m.replies);
      if st.at >= |cmds| {
        assert r == (st, NoMore);
      } else if r.1 != NoMore {
        CutsDoNotMatter(cmds, r.0, r.1, ms[1..]);
      }
    }
  }

  // ---------------------------------------------------------------- in-order replies

  /** The owner before reply `k`, `prev` standing for what came before the stream. */
  function Before(prev: int, own: seq<nat>, k: nat): int
    requires k <= |own|
  {
    if k == 0 then prev else own[k - 1]
  }

  /** A reply to command `i` behind one to command `prev`: no read or touch is skipped, and a read
      or touch is answered first by its data, of its own length, and then by empty echoes only. */
  predicate Proper(cmds: seq<Cmd>, prev: int, i: nat, r: W1Cmd) {
    && prev <= i < |cmds| && r.code == Code(cmds[i].typ)
    && (forall q :: prev < q < i && 0 <= q ==> !Needs(cmds[q]))
    && (Needs(cmds[i]) ==> |r.data| == if prev < i then cmds[i].len else 0)
  }

  /** `own[k]` is the command reply `k` was sent for. */
  predicate InOrder(cmds: seq<Cmd>, prev: int, own: seq<nat>, rs: seq<W1Cmd>) {
    && |own| == |rs|
    && forall k {:trigger Before(prev, own, k)} :: 0 <= k < |rs| ==>
         Proper(cmds, Before(prev, own, k), own[k], rs[k])
  }

  /** A read or touch `i` just behind a reply to `prev` is of another type than `prev`. */
  predicate Differs(cmds: seq<Cmd>, prev: int, i: nat) {
    0 <= prev < i < |cmds| && Needs(cmds[i]) ==> cmds[prev].typ != cmds[i].typ
  }

  predicate TypeChanges(cmds: seq<Cmd>, prev: int, own: seq<nat>) {
    forall k {:trigger Before(prev, own, k)} :: 0 <= k < |own| ==> Differs(cmds, Before(prev, own, k), own[k])
  }

  /** The index may lag behind the command replied to last, but over no read or touch. */
  predicate Lag(cmds: seq<Cmd>, prev: int, st: St) {
    if prev < 0 then st.at == 0 && st.hits == 0
    else
      && st.at <= prev < |cmds| && st.hits > 0
      && cmds[st.at].typ == cmds[prev].typ
      && forall q :: st.at < q <= prev ==> !Needs(cmds[q])
  }

  /** The reply for command `i` is taken at the first command of its type from the index on. */
  lemma {:induction false} Seek(cmds: seq<Cmd>, st: St, i: nat, r: W1Cmd)
    requires st.hits < UINT_RANGE - 1
    requires st.at <= i < |cmds| && r.code == Code(cmds[i].typ)
    requires forall q :: st.at < q < i ==> !Needs(cmds[q])
    requires Needs(cmds[st.at]) && st.at < i ==> st.hits > 0
    requires Needs(cmds[i]) && st.at < i ==> cmds[st.at].typ != cmds[i].typ
    requires Needs(cmds[i]) ==> |r.data| == 0 || |r.data| == cmds[i].len
    ensures var t := Take(cmds, st, r);
            && !t.1 && t.0.status == st.status && t.0.hits <= st.hits + 1
            && st.at <= t.0.at && Lag(cmds, i, t.0)
            && t.0.mem == if Needs(cmds[i]) && |r.data| > 0 then Store(st.mem, cmds[i], r.data) else st.mem
    decreases i - st.at
  {
    if r.code != Code(cmds[st.at].typ) {
      Seek(cmds, st.(at := st.at + 1, hits := 0), i, r);
    }
  }

  lemma OneReply(cmds: seq<Cmd>, prev: int, st: St, i: nat, r: W1Cmd)
    requires -1 <= prev && st.hits < UINT_RANGE - 1
    requires Lag(cmds, prev, st) && Proper(cmds, prev, i, r) && Differs(cmds, prev, i)
    ensures var t := Take(cmds, st, r);
            && !t.1 && t.0.status == st.status && t.0.hits <= st.hits + 1
            && Lag(cmds, i, t.0)
            && t.0.mem == if Needs(cmds[i]) && prev < i then Store(st.mem, cmds[i], r.data) else st.mem
  {
    Seek(cmds, st, i, r);
    StoreNothing(st.mem, cmds[i]);
  }

  predicate Ranged(cmds: seq<Cmd>, own: seq<nat>) { forall k :: 0 <= k < |own| ==> own[k] < |cmds| }

  /** What in-order replies put into the buffers. */
  function Fill(cmds: seq<Cmd>, prev: int, own: seq<nat>, rs: seq<W1Cmd>, mem: seq<byte>): (mem': seq<byte>)
    requires |own| == |rs|
    requires Ranged(cmds, own)
    ensures |mem'| == |mem|
    decreases |rs|
  {
    if rs == [] then mem
    else Fill(cmds, own[0], own[1..], rs[1..],
              if Needs(cmds[own[0]]) && prev < own[0] then Store(mem, cmds[own[0]], rs[0].data) else mem)
  }

  lemma TailInOrder(cmds: seq<Cmd>, prev: int, own: seq<nat>, rs: seq<W1Cmd>)
    requires InOrder(cmds, prev, own, rs) && rs != []
    ensures Proper(cmds, prev, own[0], rs[0]) && InOrder(cmds, own[0], own[1..], rs[1..])
    ensures TypeChanges(cmds, prev, own) ==>
      Differs(cmds, prev, own[0]) && TypeChanges(cmds, own[0], own[1..])
  {
    assert Proper(cmds, Before(prev, own, 0), own[0], rs[0]);
    forall k | 0 <= k < |rs| - 1
      ensures Proper(cmds, Before(own[0], own[1..], k), own[1..][k], rs[1..][k])
    {
      assert Before(own[0], own[1..], k) == Before(prev, own, k + 1);
      assert Proper(cmds, Before(prev, own, k + 1), own[k + 1], rs[k + 1]);
    }
    if TypeChanges(cmds, prev, own) {
      assert Differs(cmds, Before(prev, own, 0), own[0]);
      forall k | 0 <= k < |own| - 1 ensures Differs(cmds, Before(own[0], own[1..], k), own[1..][k]) {
        assert Differs(cmds, Before(prev, own, k + 1), own[k + 1]);
      }
    }
  }

  lemma OwnersInRange(cmds: seq<Cmd>, prev: int, own: seq<nat>, rs: seq<W1Cmd>)
    requires InOrder(cmds, prev, own, rs)
    ensures Ranged(cmds, own)
  {
    forall k | 0 <= k < |own| ensures own[k] < |cmds| {
      assert Proper(cmds, Before(prev, own, k), own[k], rs[k]);
    }
  }

  lemma {:induction false} InOrderRun(cmds: seq<Cmd>, prev: int, own: seq<nat>, rs: seq<W1Cmd>, st: St)
    requires -1 <= prev && st.hits + |rs| < UINT_RANGE
    requires Lag(cmds, prev, st) && InOrder(cmds, prev, own, rs) && TypeChanges(cmds, prev, own)
    ensures Ranged(cmds, own)
    ensures var t := TakeAll(cmds, st, rs);
            && !t.1 && t.0.status == st.status && t.0.hits <= st.hits + |rs|
            && Lag(cmds, Before(prev, own, |own|), t.0)
            && t.0.mem == Fill(cmds, prev, own, rs, st.mem)
    decreases |rs|
  {
    OwnersInRange(cmds, prev, own, rs);
    if rs == [] {
    } else {
      TailInOrder(cmds, prev, own, rs);
      OneReply(cmds, prev, st, own[0], rs[0]);
      var t := Take(cmds, st, rs[0]).0;
      InOrderRun(cmds, own[0], own[1..], rs[1..], t);
    }
  }

  /** Reply `k` is the data of a read or touch. */
  predicate IsData(cmds: seq<Cmd>, prev: int, own: seq<nat>, k: nat)
    requires k < |own| && own[k] < |cmds|
  {
    Needs(cmds[own[k]]) && Before(prev, own, k) < own[k]
  }

  /** No data reply is put where byte `j` is. */
  predicate Untouched(cmds: seq<Cmd>, prev: int, own: seq<nat>, j: nat)
    requires Ranged(cmds, own)
  {
    forall k :: 0 <= k < |own| && IsData(cmds, prev, own, k) ==> !Inside(cmds[own[k]], j)
  }

  lemma TailUntouched(cmds: seq<Cmd>, prev: int, own: seq<nat>, j: nat)
    requires Ranged(cmds, own) && own != []
    requires Untouched(cmds, prev, own, j)
    ensures Untouched(cmds, own[0], own[1..], j)
  {
    forall k | 0 <= k < |own| - 1 && IsData(cmds, own[0], own[1..], k) ensures !Inside(cmds[own[1..][k]], j) {
      assert Before(prev, own, k + 1) == Before(own[0], own[1..], k);
      assert IsData(cmds, prev, own, k + 1);
    }
  }

  lemma InOrderAt(cmds: seq<Cmd>, prev: int, own: seq<nat>, rs: seq<W1Cmd>, k: nat)
    requires InOrder(cmds, prev, own, rs) && k < |own|
    ensures Before(prev, own, k) <= own[k] < |cmds|
  {
    assert Proper(cmds, Before(prev, own, k), own[k], rs[k]);
  }

  lemma {:induction false} Ascending(cmds: seq<Cmd>, prev: int, own: seq<nat>, rs: seq<W1Cmd>, k: nat)
    requires InOrder(cmds, prev, own, rs) && k < |own|
    ensures prev <= Before(prev, own, k) <= own[k] < |cmds|
    decreases k
  {
    hide InOrder;
    InOrderAt(cmds, prev, own, rs, k);
    if k > 0 {
      Ascending(cmds, prev, own, rs, k - 1);
    }
  }

  /** With buffers of their own, no reply behind one to command `i` goes where its data is. */
  lemma OwnDataUntouched(cmds: seq<Cmd>, i: nat, own: seq<nat>, rs: seq<W1Cmd>, j: nat)
    requires InOrder(cmds, i, own, rs) && Ranged(cmds, own)
    requires OwnBuffers(cmds) && i < |cmds| && Needs(cmds[i]) && Inside(cmds[i], j)
    ensures Untouched(cmds, i, own, j)
  {
    forall k | 0 <= k < |own| && IsData(cmds, i, own, k) ensures !Inside(cmds[own[k]], j) {
      Ascending(cmds, i, own, rs, k);
      assert Apart(cmds[i], cmds[own[k]]);
    }
  }

  lemma {:induction false} FillTouchesBuffersOnly(
      cmds: seq<Cmd>, prev: int, own: seq<nat>, rs: seq<W1Cmd>, mem: seq<byte>, j: nat)
    requires InOrder(cmds, prev, own, rs) && Ranged(cmds, own)
    requires Sized(cmds, mem) && j < |mem| && Untouched(cmds, prev, own, j)
    ensures Fill(cmds, prev, own, rs, mem)[j] == mem[j]
    decreases |rs|
  {
    if rs != [] {
      hide InOrder, Untouched, Store, Sized;
      var i := own[0];
      TailInOrder(cmds, prev, own, rs);
      TailUntouched(cmds, prev, own, j);
      var b := if Needs(cmds[i]) && prev < i then Store(mem, cmds[i], rs[0].data) else mem;
      StillSized(cmds, mem, b);
      FillTouchesBuffersOnly(cmds, i, own[1..], rs[1..], b, j);
      if Needs(cmds[i]) && prev < i {
        FirstUntouched(cmds, prev, own, mem, j);
        StoreParts(mem, cmds[i], rs[0].data);
      }
    }
  }

  lemma FirstUntouched(cmds: seq<Cmd>, prev: int, own: seq<nat>, mem: seq<byte>, j: nat)
    requires Ranged(cmds, own) && own != [] && Sized(cmds, mem)
    requires Untouched(cmds, prev, own, j) && Needs(cmds[own[0]]) && prev < own[0]
    ensures !Inside(cmds[own[0]], j) && Within(cmds[own[0]], mem)
  {
    assert IsData(cmds, prev, own, 0);
  }

  lemma StillSized(cmds: seq<Cmd>, mem: seq<byte>, mem': seq<byte>)
    requires Sized(cmds, mem) && |mem'| == |mem|
    ensures Sized(cmds, mem')
  {
  }

  /** What is put into a buffer stays there if later replies leave it alone. */
  lemma FirstStays(
      cmds: seq<Cmd>, i: nat, own: seq<nat>, rs: seq<W1Cmd>, mem: seq<byte>, data: seq<byte>)
    requires InOrder(cmds, i, own, rs) && Ranged(cmds, own)
    requires Sized(cmds, mem) && OwnBuffers(cmds)
    requires i < |cmds| && Needs(cmds[i]) && |data| == cmds[i].len
    ensures Has(Fill(cmds, i, own, rs, Store(mem, cmds[i], data)), cmds[i], data)
  {
    assert |own| == |rs|;
    hide InOrder, OwnBuffers, Store, Sized, Fill, Untouched;
    var b := Store(mem, cmds[i], data);
    var f := Fill(cmds, i, own, rs, b);
    StillSized(cmds, mem, b);
    StillSized(cmds, mem, f);
    InMemory(cmds, mem, i);
    InMemory(cmds, f, i);
    StoreParts(mem, cmds[i], data);
    forall j: nat | Inside(cmds[i], j) ensures f[j] == b[j] {
      OwnDataUntouched(cmds, i, own, rs, j);
      FillTouchesBuffersOnly(cmds, i, own, rs, b, j);
    }
    assert DataOf(cmds[i], f) == DataOf(cmds[i], b);
  }

  lemma FillStep(cmds: seq<Cmd>, prev: int, own: seq<nat>, rs: seq<W1Cmd>, mem: seq<byte>)
    requires |own| == |rs| && rs != [] && Ranged(cmds, own)
    ensures Fill(cmds, prev, own, rs, mem)
         == Fill(cmds, own[0], own[1..], rs[1..],
                 if Needs(cmds[own[0]]) && prev < own[0] then Store(mem, cmds[own[0]], rs[0].data) else mem)
  {
  }

  lemma {:induction false} FillSplit(
      cmds: seq<Cmd>, prev: int, own: seq<nat>, rs: seq<W1Cmd>, mem: seq<byte>, k: nat)
    requires |own| == |rs| && Ranged(cmds, own) && k <= |own|
    ensures Ranged(cmds, own[..k]) && Ranged(cmds, own[k..])
    ensures Fill(cmds, prev, own, rs, mem)
         == Fill(cmds, Before(prev, own, k), own[k..], rs[k..], Fill(cmds, prev, own[..k], rs[..k], mem))
    decreases k
  {
    if k == 0 {
      assert own[0..] == own && rs[0..] == rs;
    } else {
      hide Fill, Store, Needs;
      var b := if Needs(cmds[own[0]]) && prev < own[0] then Store(mem, cmds[own[0]], rs[0].data) else mem;
      FillSplit(cmds, own[0], own[1..], rs[1..], b, k - 1);
      assert Before(own[0], own[1..], k - 1) == Before(prev, own, k);
      FillStep(cmds, prev, own, rs, mem);
      FillStep(cmds, prev, own[..k], rs[..k], mem);
      assert own[1..][k - 1..] == own[k..] && rs[1..][k - 1..] == rs[k..];
      assert own[1..][..k - 1] == own[..k][1..] && rs[1..][..k - 1] == rs[..k][1..];
    }
  }

  lemma {:induction false} InOrderFrom(cmds: seq<Cmd>, prev: int, own: seq<nat>, rs: seq<W1Cmd>, k: nat)
    requires InOrder(cmds, prev, own, rs) && k < |own|
    ensures InOrder(cmds, own[k], own[k + 1..], rs[k + 1..])
    decreases k
  {
    assert |own| == |rs| && rs != [];
    hide InOrder, Proper, TypeChanges;
    TailInOrder(cmds, prev, own, rs);
    if k > 0 {
      InOrderFrom(cmds, own[0], own[1..], rs[1..], k - 1);
      assert own[1..][k..] == own[k + 1..] && rs[1..][k..] == rs[k + 1..];
    }
  }

  /** With buffers of their own, every data reply ends up in that of the command it was sent for. */
  lemma FillIsRight(cmds: seq<Cmd>, prev: int, own: seq<nat>, rs: seq<W1Cmd>, mem: seq<byte>, k: nat)
    requires InOrder(cmds, prev, own, rs) && Ranged(cmds, own)
    requires Sized(cmds, mem) && OwnBuffers(cmds)
    requires k < |own| && IsData(cmds, prev, own, k)
    ensures Has(Fill(cmds, prev, own, rs, mem), cmds[own[k]], rs[k].data)
  {
    assert Proper(cmds, Before(prev, own, k), own[k], rs[k]);
    InOrderFrom(cmds, prev, own, rs, k);
    hide InOrder, OwnBuffers, Store, Sized, Has, Fill, Before;
    FillSplit(cmds, prev, own, rs, mem, k);
    var m := Fill(cmds, prev, own[..k], rs[..k], mem);
    FillStep(cmds, Before(prev, own, k), own[k..], rs[k..], m);
    assert own[k..][1..] == own[k + 1..] && rs[k..][1..] == rs[k + 1..];
    StillSized(cmds, mem, m);
    FirstStays(cmds, own[k], own[k + 1..], rs[k + 1..], m, rs[k].data);
  }

  lemma InMemory(cmds: seq<Cmd>, mem: seq<byte>, q: nat)
    requires Sized(cmds, mem) && q < |cmds|
    ensures Within(cmds[q], mem)
  {
  }

  /** Memory in which every data reply is in the buffer of the command it was sent for, and outside
      these buffers nothing has changed. */
  predicate RepliesInPlace(cmds: seq<Cmd>, own: seq<nat>, rs: seq<W1Cmd>, mem: seq<byte>, mem': seq<byte>)
    requires |own| == |rs| && Ranged(cmds, own)
  {
    && |mem'| == |mem|
    && (OwnBuffers(cmds) ==> forall k :: 0 <= k < |own| && IsData(cmds, -1, own, k) ==>
          Has(mem', cmds[own[k]], rs[k].data))
    && (forall j :: 0 <= j < |mem| && Untouched(cmds, -1, own, j) ==> mem'[j] == mem[j])
  }

  /** Reply matching is right: whatever messages carry the replies, no error is raised, every data
      reply is in the buffer of the command it was sent for, and no other memory has changed. */
  lemma EveryReplyInItsOwnBuffer(
      cmds: seq<Cmd>, mem: seq<byte>, own: seq<nat>, ms: seq<Msg>, more: More)
    requires Sized(cmds, mem) && more != NoMore
    requires InOrder(cmds, -1, own, Replies(ms)) && TypeChanges(cmds, -1, own)
    requires |Replies(ms)| < UINT_RANGE
    requires forall m <- ms :: Fine(m)
    ensures Ranged(cmds, own)
    ensures var st := Feed(cmds, Start(mem), more, ms).0;
            st.status == 0 && RepliesInPlace(cmds, own, Replies(ms), mem, st.mem)
  {
    var rs := Replies(ms);
    CutsDoNotMatter(cmds, Start(mem), more, ms);
    InOrderRun(cmds, -1, own, rs, Start(mem));
    var f := Fill(cmds, -1, own, rs, mem);
    if OwnBuffers(cmds) {
      forall k | 0 <= k < |own| && IsData(cmds, -1, own, k)
        ensures Has(f, cmds[own[k]], rs[k].data)
      {
        FillIsRight(cmds, -1, own, rs, mem, k);
      }
    }
    forall j | 0 <= j < |mem| && Untouched(cmds, -1, own, j) ensures f[j] == mem[j] {
      FillTouchesBuffersOnly(cmds, -1, own, rs, mem, j);
    }
  }

  // ---------------------------------------------------------------- exactly when matching is right

  /** After reply `k` the index is at the command the reply was sent for. */
  predicate TakenByOwner(cmds: seq<Cmd>, mem: seq<byte>, own: seq<nat>, rs: seq<W1Cmd>, k: nat)
    requires k < |own| == |rs|
  {
    var r := TakeAll(cmds, Start(mem), rs[..k + 1]);
    !r.1 && r.0.at == own[k]
  }

  lemma PrefixInOrder(cmds: seq<Cmd>, own: seq<nat>, rs: seq<W1Cmd>, n: nat)
    requires InOrder(cmds, -1, own, rs) && n <= |rs|
    requires forall k :: 0 <= k < n ==> Differs(cmds, Before(-1, own, k), own[k])
    ensures InOrder(cmds, -1, own[..n], rs[..n]) && TypeChanges(cmds, -1, own[..n])
  {
    forall k | 0 <= k < n
      ensures Proper(cmds, Before(-1, own[..n], k), own[..n][k], rs[..n][k])
      ensures Differs(cmds, Before(-1, own[..n], k), own[..n][k])
    {
      assert Before(-1, own[..n], k) == Before(-1, own, k);
      assert Proper(cmds, Before(-1, own, k), own[k], rs[k]);
    }
  }

  /** The state just before reply `n`, when all types changed up to there. */
  lemma StateBefore(cmds: seq<Cmd>, mem: seq<byte>, own: seq<nat>, rs: seq<W1Cmd>, n: nat)
    requires InOrder(cmds, -1, own, rs) && n <= |rs| < UINT_RANGE
    requires forall k :: 0 <= k < n ==> Differs(cmds, Before(-1, own, k), own[k])
    ensures var r := TakeAll(cmds, Start(mem), rs[..n]);
            && !r.1 && r.0.hits <= n && Lag(cmds, Before(-1, own, n), r.0)
  {
    PrefixInOrder(cmds, own, rs, n);
    InOrderRun(cmds, -1, own[..n], rs[..n], Start(mem));
    assert Before(-1, own[..n], n) == Before(-1, own, n);
  }

  lemma RightReply(cmds: seq<Cmd>, mem: seq<byte>, own: seq<nat>, rs: seq<W1Cmd>, k: nat)
    requires InOrder(cmds, -1, own, rs) && k < |rs| < UINT_RANGE
    requires forall j :: 0 <= j <= k ==> Differs(cmds, Before(-1, own, j), own[j])
    requires own[k] < |cmds| && Needs(cmds[own[k]])
    ensures TakenByOwner(cmds, mem, own, rs, k)
  {
    StateBefore(cmds, mem, own, rs, k);
    var st := TakeAll(cmds, Start(mem), rs[..k]).0;
    assert Proper(cmds, Before(-1, own, k), own[k], rs[k]);
    OneReply(cmds, Before(-1, own, k), st, own[k], rs[k]);
    TakeLast(cmds, Start(mem), rs, k);
  }

  lemma WrongReply(cmds: seq<Cmd>, mem: seq<byte>, own: seq<nat>, rs: seq<W1Cmd>, k: nat)
    requires InOrder(cmds, -1, own, rs) && k < |rs| < UINT_RANGE
    requires forall j :: 0 <= j < k ==> Differs(cmds, Before(-1, own, j), own[j])
    requires !Differs(cmds, Before(-1, own, k), own[k])
    ensures !TakenByOwner(cmds, mem, own, rs, k)
  {
    StateBefore(cmds, mem, own, rs, k);
    assert Proper(cmds, Before(-1, own, k), own[k], rs[k]);
    TakeLast(cmds, Start(mem), rs, k);
  }

  /** In-order replies are attributed to the right reads and touches exactly when no read or touch
      is answered directly behind another command of its own type. */
  lemma MatchingRightIffTypesChange(cmds: seq<Cmd>, mem: seq<byte>, own: seq<nat>, rs: seq<W1Cmd>)
    requires InOrder(cmds, -1, own, rs) && |rs| < UINT_RANGE
    ensures Ranged(cmds, own)
    ensures (forall k :: 0 <= k < |own| && IsData(cmds, -1, own, k) ==> TakenByOwner(cmds, mem, own, rs, k))
       <==> TypeChanges(cmds, -1, own)
  {
    OwnersInRange(cmds, -1, own, rs);
    if TypeChanges(cmds, -1, own) {
      forall k | 0 <= k < |own| && IsData(cmds, -1, own, k) ensures TakenByOwner(cmds, mem, own, rs, k) {
        RightReply(cmds, mem, own, rs, k);
      }
    } else {
      var k := FirstSame(cmds, own);
      WrongReply(cmds, mem, own, rs, k);
      assert IsData(cmds, -1, own, k);
    }
  }

  lemma FirstSame(cmds: seq<Cmd>, own: seq<nat>) returns (k: nat)
    requires !TypeChanges(cmds, -1, own)
    ensures k < |own| && !Differs(cmds, Before(-1, own, k), own[k])
    ensures forall j :: 0 <= j < k ==> Differs(cmds, Before(-1, own, j), own[j])
  {
    hide Differs, Before;
    k := 0;
    while Differs(cmds, Before(-1, own, k), own[k])
      invariant k < |own|
      invariant forall j :: 0 <= j < k ==> Differs(cmds, Before(-1, own, j), own[j])
      invariant exists j :: k <= j < |own| && !Differs(cmds, Before(-1, own, j), own[j])
      decreases |own| - k
    {
      k := k + 1;
    }
  }

  /** Two one-byte reads in a row: the second reply lands in the first buffer, with no error. */
  lemma TwoReadsExample(a: byte, b: byte, x: byte, y: byte)
    ensures var cmds := [Cmd(Read, 0, 1), Cmd(Read, 1, 1)];
            var rs := [W1Cmd(0, 0, [a]), W1Cmd(0, 0, [b])];
            && InOrder(cmds, -1, [0, 1], rs)
            && TakeAll(cmds, Start([x, y]), rs) == (St(0, 2, 0, [b, y]), false)
  {
    var cmds := [Cmd(Read, 0, 1), Cmd(Read, 1, 1)];
    var rs := [W1Cmd(0, 0, [a]), W1Cmd(0, 0, [b])];
    assert rs[1..] == [W1Cmd(0, 0, [b])];
    assert rs[1..][1..] == [];
    assert Store([x, y], cmds[0], [a]) == [a, y] && Store([a, y], cmds[0], [b]) == [b, y];
    assert Take(cmds, Start([x, y]), rs[0]) == (St(0, 1, 0, [a, y]), false);
    assert Take(cmds, St(0, 1, 0, [a, y]), rs[1]) == (St(0, 2, 0, [b, y]), false);
    assert TakeAll(cmds, St(0, 1, 0, [a, y]), rs[1..]) == (St(0, 2, 0, [b, y]), false);
  }

  // ---------------------------------------------------------------- the verdict

  /** Some read or touch has not had its data yet. */
  predicate Outstanding(cmds: seq<Cmd>, own: seq<nat>) {
    Ahead(cmds, Before(-1, own, |own|))
  }

  /** Nothing has been replied, and only the first command is owed data: the callback overlooks it. */
  predicate Blind(cmds: seq<Cmd>, own: seq<nat>)
    requires cmds != []
  {
    own == [] && Needs(cmds[0]) && !Ahead(cmds, 0)
  }

  lemma {:induction false} LastVerdict(cmds: seq<Cmd>, st: St, more: More, ms: seq<Msg>)
    requires more != NoMore && ms != [] && st.at < |cmds|
    requires forall m <- ms :: Fine(m)
    ensures Feed(cmds, st, more, ms).1 == Verdict(cmds, TakeAll(cmds, st, Replies(ms)))
    decreases |ms|
  {
    var m := ms[0];
    assert Fine(m);
    var r := OnMessage(cmds, st, m.status, m.isStatus, m.replies);
    TakeAllAppend(cmds, st, m.replies, Replies(ms[1..]));
    if ms[1..] == [] {
      assert Replies(ms) == m.replies + [];
      assert m.replies + [] == m.replies;
    } else if r.1 != NoMore {
      StaysInside(cmds, st, m.replies);
      LastVerdict(cmds, r.0, r.1, ms[1..]);
    }
  }

  lemma {:induction false} StaysInside(cmds: seq<Cmd>, st: St, rs: seq<W1Cmd>)
    requires st.at < |cmds|
    ensures var t := TakeAll(cmds, st, rs); t.0.at <= |cmds| && (!t.1 ==> t.0.at < |cmds|)
    decreases |rs|
  {
    if rs == [] {
    } else {
      TakeInside(cmds, st, rs[0]);
      var r := Take(cmds, st, rs[0]);
      if !r.1 {
        StaysInside(cmds, r.0, rs[1..]);
      }
    }
  }

  lemma {:induction false} TakeInside(cmds: seq<Cmd>, st: St, r: W1Cmd)
    requires st.at <= |cmds|
    ensures var t := Take(cmds, st, r); t.0.at <= |cmds| && (!t.1 ==> t.0.at < |cmds|)
    decreases |cmds| - st.at
  {
    if st.at < |cmds| && r.code != Code(cmds[st.at].typ) && (!Needs(cmds[st.at]) || st.hits > 0) {
      TakeInside(cmds, st.(at := st.at + 1, hits := 0), r);
    }
  }

  /** On in-order replies the last verdict is "more required" exactly while data is outstanding,
      except for one case: nothing has been replied yet and only the very first command is owed
      data, which the callback does not look at. */
  lemma VerdictTellsOutstanding(
      cmds: seq<Cmd>, mem: seq<byte>, own: seq<nat>, ms: seq<Msg>, more: More)
    requires cmds != [] && ms != [] && more != NoMore
    requires InOrder(cmds, -1, own, Replies(ms)) && TypeChanges(cmds, -1, own)
    requires |Replies(ms)| < UINT_RANGE
    requires forall m <- ms :: Fine(m)
    ensures var verdict := Feed(cmds, Start(mem), more, ms).1;
            && verdict != NoMore
            && ((verdict == MoreReq <==> Outstanding(cmds, own))
                <==> !Blind(cmds, own))
  {
    LastVerdict(cmds, Start(mem), more, ms);
    InOrderRun(cmds, -1, own, Replies(ms), Start(mem));
    var st := TakeAll(cmds, Start(mem), Replies(ms)).0;
    var last := Before(-1, own, |own|);
    if Ahead(cmds, st.at) {
      var q :| st.at < q < |cmds| && 0 <= q && Needs(cmds[q]);
      assert last < q;
    }
    if own == [] && Ahead(cmds, -1) && !Ahead(cmds, 0) {
      var q :| -1 < q < |cmds| && 0 <= q && Needs(cmds[q]);
      assert q == 0;
    }
    if own == [] && Needs(cmds[0]) {
      assert Ahead(cmds, -1);
    }
  }

  /** The index has stayed behind the command replied to last, at one of the same type, with a read or
      touch in between or at that command. */
  predicate Behind(cmds: seq<Cmd>, last: int, st: St) {
    st.at < last < |cmds| && cmds[st.at].typ == cmds[last].typ && NeedIn(cmds, st.at, last)
  }

  predicate NeedIn(cmds: seq<Cmd>, after: nat, to: nat)
    requires to < |cmds|
  {
    exists n :: after < n <= to && Needs(cmds[n])
  }

  /** Once behind, the index cannot catch up: what it meets first of the read or touch `n` and a command
      of the reply's type either takes the reply too early or does not match it at all. */
  lemma {:induction false} SkipBlocked(cmds: seq<Cmd>, st: St, n: nat, i: nat, r: W1Cmd)
    requires st.at <= n < i < |cmds| && Needs(cmds[n]) && r.code == Code(cmds[i].typ)
    requires st.at == n ==> st.hits == 0
    ensures var t := Take(cmds, st, r);
            if t.1 then t.0.status == NO_MATCH else Behind(cmds, i, t.0)
    decreases n - st.at
  {
    if r.code == Code(cmds[st.at].typ) {
      assert Needs(cmds[if st.at < n then n else i]);
    } else if st.at < n && (!Needs(cmds[st.at]) || st.hits > 0) {
      SkipBlocked(cmds, st.(at := st.at + 1, hits := 0), n, i, r);
    }
  }

  lemma StaysBehind(cmds: seq<Cmd>, last: nat, st: St, i: nat, r: W1Cmd)
    requires Behind(cmds, last, st) && last <= i < |cmds| && r.code == Code(cmds[i].typ)
    ensures var t := Take(cmds, st, r);
            if t.1 then t.0.status == NO_MATCH else Behind(cmds, i, t.0)
  {
    var n: nat :| st.at < n <= last && Needs(cmds[n]);
    if n < i {
      SkipBlocked(cmds, st, n, i, r);
    } else {
      assert NeedIn(cmds, st.at, i);
    }
  }

  lemma {:induction false} BehindForGood(cmds: seq<Cmd>, prev: nat, own: seq<nat>, rs: seq<W1Cmd>, st: St)
    requires InOrder(cmds, prev, own, rs) && Behind(cmds, prev, st)
    ensures var t := TakeAll(cmds, st, rs);
            if t.1 then t.0.status == NO_MATCH else Behind(cmds, Before(prev, own, |own|), t.0)
    decreases |rs|
  {
    if rs != [] {
      hide Behind;
      TailInOrder(cmds, prev, own, rs);
      StaysBehind(cmds, prev, st, own[0], rs[0]);
      var t := Take(cmds, st, rs[0]);
      if !t.1 {
        BehindForGood(cmds, own[0], own[1..], rs[1..], t.0);
        assert Before(own[0], own[1..], |own| - 1) == Before(prev, own, |own|);
      }
    }
  }

  /** The first reply that is taken by the wrong read or touch leaves the index behind. */
  lemma FallsBehind(cmds: seq<Cmd>, prev: int, st: St, i: nat, r: W1Cmd)
    requires Lag(cmds, prev, st) && Proper(cmds, prev, i, r) && !Differs(cmds, prev, i)
    ensures var t := Take(cmds, st, r);
            if t.1 then t.0.status == NO_MATCH else Behind(cmds, i, t.0)
  {
    assert st.at == prev;
    assert NeedIn(cmds, prev, i);
  }

  lemma TakeAllSplit(cmds: seq<Cmd>, st: St, rs: seq<W1Cmd>, k: nat)
    requires k <= |rs|
    ensures var r := TakeAll(cmds, st, rs[..k]);
            TakeAll(cmds, st, rs) == if r.1 then r else TakeAll(cmds, r.0, rs[k..])
  {
    assert rs == rs[..k] + rs[k..];
    TakeAllAppend(cmds, st, rs[..k], rs[k..]);
  }

  lemma BehindIsAhead(cmds: seq<Cmd>, last: int, st: St)
    requires Behind(cmds, last, st)
    ensures Ahead(cmds, st.at)
  {
  }

  lemma BlockedFor(cmds: seq<Cmd>, prev: nat, own: seq<nat>, rs: seq<W1Cmd>, st: St)
    requires InOrder(cmds, prev, own, rs) && Behind(cmds, prev, st)
    ensures var t := TakeAll(cmds, st, rs);
            if t.1 then t.0.status == NO_MATCH else Ahead(cmds, t.0.at)
  {
    hide InOrder, Behind, Before, TakeAll, Ahead;
    BehindForGood(cmds, prev, own, rs, st);
    var t := TakeAll(cmds, st, rs);
    if !t.1 {
      BehindIsAhead(cmds, Before(prev, own, |own|), t.0);
    }
  }

  /** The state just behind the first reply whose type does not change. */
  lemma FirstBehind(cmds: seq<Cmd>, mem: seq<byte>, own: seq<nat>, rs: seq<W1Cmd>, k: nat)
    requires InOrder(cmds, -1, own, rs) && k < |rs| < UINT_RANGE && !Differs(cmds, Before(-1, own, k), own[k])
    requires forall j :: 0 <= j < k ==> Differs(cmds, Before(-1, own, j), own[j])
    ensures var t := TakeAll(cmds, Start(mem), rs[..k + 1]);
            if t.1 then t.0.status == NO_MATCH else Behind(cmds, own[k], t.0)
  {
    StateBefore(cmds, mem, own, rs, k);
    assert Proper(cmds, Before(-1, own, k), own[k], rs[k]);
    hide InOrder, Proper, Lag, Differs, Behind, Before, TakeAll, Take;
    var st := TakeAll(cmds, Start(mem), rs[..k]).0;
    FallsBehind(cmds, Before(-1, own, k), st, own[k], rs[k]);
    TakeLast(cmds, Start(mem), rs, k);
  }

  lemma BlockedFromFirst(cmds: seq<Cmd>, mem: seq<byte>, own: seq<nat>, rs: seq<W1Cmd>, k: nat)
    requires InOrder(cmds, -1, own, rs) && k < |own| == |rs| < UINT_RANGE
    requires !Differs(cmds, Before(-1, own, k), own[k])
    requires forall j :: 0 <= j < k ==> Differs(cmds, Before(-1, own, j), own[j])
    ensures var t := TakeAll(cmds, Start(mem), rs);
            if t.1 then t.0.status == NO_MATCH else Ahead(cmds, t.0.at)
  {
    hide InOrder, Behind, Before, TakeAll, Differs, Ahead;
    FirstBehind(cmds, mem, own, rs, k);
    TakeAllSplit(cmds, Start(mem), rs, k + 1);
    var t := TakeAll(cmds, Start(mem), rs[..k + 1]);
    if !t.1 {
      InOrderFrom(cmds, -1, own, rs, k);
      BlockedFor(cmds, own[k], own[k + 1..], rs[k + 1..], t.0);
    }
  }

  /** In-order replies whose types do not change end in an error or leave a read or touch ahead. */
  lemma SameTypeBlocks(cmds: seq<Cmd>, mem: seq<byte>, own: seq<nat>, rs: seq<W1Cmd>)
    requires InOrder(cmds, -1, own, rs) && !TypeChanges(cmds, -1, own) && |rs| < UINT_RANGE
    ensures var t := TakeAll(cmds, Start(mem), rs);
            if t.1 then t.0.status == NO_MATCH else Ahead(cmds, t.0.at)
  {
    hide TypeChanges, TakeAll, Differs, Ahead, Proper;
    var k := FirstSame(cmds, own);
    BlockedFromFirst(cmds, mem, own, rs, k);
  }

  /** So on in-order, error-free messages the callback is never content unless all types change. */
  lemma ContentOnlyIfTypesChange(
      cmds: seq<Cmd>, mem: seq<byte>, own: seq<nat>, ms: seq<Msg>, more: More)
    requires cmds != [] && ms != [] && more != NoMore
    requires InOrder(cmds, -1, own, Replies(ms)) && !TypeChanges(cmds, -1, own)
    requires |Replies(ms)| < UINT_RANGE
    requires forall m <- ms :: Fine(m)
    ensures var r := Feed(cmds, Start(mem), more, ms); r.1 == MoreReq || r.0.status != 0
  {
    SameTypeBlocks(cmds, mem, own, Replies(ms));
    CutsDoNotMatter(cmds, Start(mem), more, ms);
    LastVerdict(cmds, Start(mem), more, ms);
  }

  /** A message without replies makes the callback content although the only read is unanswered. */
  lemma EmptyMessageExample(x: byte)
    ensures Feed([Cmd(Read, 0, 1)], Start([x]), MoreReq, [Msg(0, true, [])]) == (Start([x]), MoreOpt)
  {
    var cmds, ms := [Cmd(Read, 0, 1)], [Msg(0, true, [])];
    assert ms[1..] == [];
    assert !Ahead(cmds, 0);
    assert OnMessage(cmds, Start([x]), 0, true, []) == (Start([x]), MoreOpt);
  }
}
