/** Listing bus masters and searching for slaves: both callbacks append whole ids to a bounded list. */
module Listing {
  import opened Bytes
  import opened Frames
  import opened InPlace
  import opened Matching

  /** One list element: a master id of 4 bytes or a slave id of 8. */
  type Id = seq<byte>
  type IdSize = e: nat | e == 4 || e == 8 witness 4

  /** n / elem_sz, for the two element sizes there are. */
  function Quotient(n: nat, e: IdSize): nat { if e == 4 then n / 4 else n / 8 }

  /** elem_sz, max_elems and srch_cmd of the callback data; `search` tells which callback it is. */
  datatype Kind = Kind(elemSz: IdSize, maxElems: nat, search: bool, srchCmd: byte)

  /** The list buffer, n_elems, n_recv_elems and status. */
  datatype LSt = LSt(list: seq<Id>, nElems: nat, nRecv: nat, status: byte)

  predicate Roomy(kind: Kind, st: LSt) {
    st.nElems <= kind.maxElems == |st.list|
  }

  function Min(a: nat, b: nat): nat { if a < b then a else b }

  /** The whole elements in a chunk of received bytes; a remainder is dropped. */
  function Split(e: IdSize, chunk: seq<byte>): (ids: seq<Id>)
    ensures |ids| == Quotient(|chunk|, e)
    decreases |chunk|
  {
    if |chunk| < e then [] else [chunk[..e]] + Split(e, chunk[e..])
  }

  function Join(ids: seq<Id>): seq<byte> {
    if ids == [] then [] else ids[0] + Join(ids[1..])
  }

  /** Splitting cuts a chunk into elements of the right size and drops less than one element. */
  lemma {:induction false} SplitCutsAll(e: IdSize, chunk: seq<byte>)
    ensures (forall id <- Split(e, chunk) :: |id| == e)
    ensures Join(Split(e, chunk)) <= chunk && |chunk| - |Join(Split(e, chunk))| < e
    decreases |chunk|
  {
    if |chunk| >= e {
      SplitCutsAll(e, chunk[e..]);
      assert Split(e, chunk)[1..] == Split(e, chunk[e..]);
    } else {
    }
  }

  /** Counting the elements of one chunk and __COPY_LIST_ELEMS. */
  function AddChunk(kind: Kind, st: LSt, chunk: seq<byte>): (st': LSt)
    requires Roomy(kind, st)
    ensures Roomy(kind, st')
  {
    var n := Quotient(|chunk|, kind.elemSz);
    var counted := st.(nRecv := st.nRecv + n);
    if n > 0 && st.nElems < kind.maxElems then
      var copied := Min(n, kind.maxElems - st.nElems);
      counted.(nElems := st.nElems + copied,
               list := Overwrite(st.list, st.nElems, Split(kind.elemSz, chunk)[..copied]))
    else counted
  }

  /** The search walk; the flag tells that a command of another kind stopped it. */
  function AddCmds(kind: Kind, st: LSt, cs: seq<W1Cmd>): (r: (LSt, bool))
    requires Roomy(kind, st)
    ensures Roomy(kind, r.0)
    decreases |cs|
  {
    if cs == [] then (st, false)
    else if cs[0].code != kind.srchCmd then (st.(status := NO_MATCH), true)
    else AddCmds(kind, AddChunk(kind, st, cs[0].data), cs[1..])
  }

  /** list_masts_cb and search_slavs_cb. */
  function ListMessage(kind: Kind, st: LSt, m: W1Msg, isStatus: bool): (r: (LSt, More))
    requires Roomy(kind, st)
    ensures Roomy(kind, r.0)
  {
    var more := if isStatus then NoMore else MoreOpt;
    var st1 := if isStatus then st.(status := m.status) else st;
    if isStatus && m.status != 0 then (st1, NoMore)
    else if kind.search then
      var r := AddCmds(kind, st1, ParseCmds(m.data));
      (r.0, if r.1 then NoMore else more)
    else (AddChunk(kind, st1, m.data), more)
  }

  // ---------------------------------------------------------------- the callback data, in place

  class Lister {
    const kind: Kind
    const list: array<Id>
    var nElems: nat
    var nRecvElems: nat
    var status: byte

    ghost predicate Valid()
      reads this, list
    {
      Roomy(kind, State())
    }

    ghost function State(): LSt
      reads this, list
    {
      LSt(list[..], nElems, nRecvElems, status)
    }

    constructor (kind: Kind, list: array<Id>)
      requires list.Length == kind.maxElems
      ensures Valid() && this.kind == kind && this.list == list
      ensures State() == LSt(list[..], 0, 0, 0)
    {
      this.kind := kind;
      this.list := list;
      nElems, nRecvElems, status := 0, 0, 0;
    }

    method CopyElems(chunk: seq<byte>)
      requires Valid()
      modifies this, list
      ensures Valid() && State() == AddChunk(kind, old(State()), chunk)
    {
      hide Split, Overwrite;
      var n := Quotient(|chunk|, kind.elemSz);
      if n > 0 && nElems < kind.maxElems {
        var copied := Min(n, kind.maxElems - nElems);
        CopyOver(list, nElems, Split(kind.elemSz, chunk)[..copied]);
        nElems := nElems + copied;
      }
      nRecvElems := nRecvElems + n;
    }

    /** Both listing callbacks. */
    method Callback(m: W1Msg, isStatus: bool) returns (more: More)
      requires Valid()
      modifies this, list
      ensures Valid() && (State(), more) == ListMessage(kind, old(State()), m, isStatus)
    {
      hide AddChunk;
      more := MoreOpt;
      if isStatus {
        more := NoMore;
        status := m.status;
        if m.status != 0 {
          return;
        }
      }
      if kind.search {
        var err := WalkCmds(m.data);
        if err {
          more := NoMore;
        }
      } else {
        CopyElems(m.data);
      }
    }

    method WalkCmds(data: Blob) returns (err: bool)
      requires Valid()
      modifies this, list
      ensures Valid() && (State(), err) == AddCmds(kind, old(State()), ParseCmds(data))
    {
      hide AddChunk, AddCmds, ParseCmds, Roomy;
      var pos: nat := 0;
      assert data[0..] == data;
      while CmdOk(data[pos..])
        invariant pos <= |data| && Valid()
        invariant AddCmds(kind, old(State()), ParseCmds(data))
               == AddCmds(kind, State(), ParseCmds(data[pos..]))
        decreases |data| - pos
      {
        var c := CmdAt(data[pos..]);
        var size := CMD_HDRLEN + |c.data|;
        SubSlice(data, pos, |data|, size, |data| - pos);
        AddCmdsStep(kind, State(), data[pos..], c, data[pos + size..]);
        if c.code != kind.srchCmd {
          status := NO_MATCH;
          return true;
        }
        CopyElems(c.data);
        pos := pos + size;
      }
      NoCmds(kind, State(), data[pos..]);
      err := false;
    }
  }

  lemma AddCmdsStep(kind: Kind, st: LSt, d: seq<byte>, c: W1Cmd, rest: seq<byte>)
    requires Roomy(kind, st) && CmdOk(d) && c == CmdAt(d) && rest == d[CMD_HDRLEN + |c.data|..]
    ensures AddCmds(kind, st, ParseCmds(d))
         == if c.code != kind.srchCmd then (st.(status := NO_MATCH), true)
            else AddCmds(kind, AddChunk(kind, st, c.data), ParseCmds(rest))
  {
    assert ([c] + ParseCmds(rest))[1..] == ParseCmds(rest);
  }

  lemma NoCmds(kind: Kind, st: LSt, d: seq<byte>)
    requires Roomy(kind, st) && !CmdOk(d)
    ensures AddCmds(kind, st, ParseCmds(d)) == (st, false)
  {
  }

  // ---------------------------------------------------------------- the result is a bounded prefix

  /** The state after `ids` have been received into the buffer `list0`: as many as fit are at its
      front, the rest of the buffer is as it was, and all are counted. */
  function Summary(kind: Kind, list0: seq<Id>, ids: seq<Id>): (st: LSt)
    requires |list0| == kind.maxElems
    ensures Roomy(kind, st)
  {
    var k := Min(|ids|, kind.maxElems);
    LSt(ids[..k] + list0[k..], k, |ids|, 0)
  }

  /** Putting `more` behind a prefix `ids` of the buffer makes `ids + more` the prefix. */
  lemma OverwriteExtends(list0: seq<Id>, ids: seq<Id>, more: seq<Id>)
    requires |ids| + |more| <= |list0|
    ensures Overwrite(ids + list0[|ids|..], |ids|, more) == ids + more + list0[|ids| + |more|..]
  {
    var k, c := |ids|, |more|;
    var l := ids + list0[k..];
    assert l[..k] == ids;
    assert l[k + c..] == list0[k + c..];
  }

  lemma SummaryStep(kind: Kind, list0: seq<Id>, ids: seq<Id>, chunk: seq<byte>)
    requires |list0| == kind.maxElems
    ensures AddChunk(kind, Summary(kind, list0, ids), chunk)
         == Summary(kind, list0, ids + Split(kind.elemSz, chunk))
  {
    hide Split, Overwrite;
    var more, max := Split(kind.elemSz, chunk), kind.maxElems;
    if |ids| < max {
      var c := Min(|more|, max - |ids|);
      OverwriteExtends(list0, ids, more[..c]);
      TakeJoined(ids, more, c);
      assert ids[..|ids|] == ids;
      if more == [] {
        assert ids + more == ids;
      }
    } else {
      TakeFirst(ids, more, max);
    }
  }

  lemma TakeJoined(a: seq<Id>, b: seq<Id>, c: nat)
    requires c <= |b|
    ensures (a + b)[..|a| + c] == a + b[..c]
  {
  }

  lemma TakeFirst(a: seq<Id>, b: seq<Id>, n: nat)
    requires n <= |a|
    ensures (a + b)[..n] == a[..n]
  {
  }

  /** The whole elements in a run of chunks. */
  function Ids(e: IdSize, chunks: seq<seq<byte>>): seq<Id> {
    if chunks == [] then [] else Split(e, chunks[0]) + Ids(e, chunks[1..])
  }

  function AddChunks(kind: Kind, st: LSt, chunks: seq<seq<byte>>): (st': LSt)
    requires Roomy(kind, st)
    decreases |chunks|
  {
    if chunks == [] then st else AddChunks(kind, AddChunk(kind, st, chunks[0]), chunks[1..])
  }

  lemma {:induction false} ChunksSummed(
      kind: Kind, list0: seq<Id>, ids: seq<Id>, chunks: seq<seq<byte>>)
    requires |list0| == kind.maxElems
    ensures AddChunks(kind, Summary(kind, list0, ids), chunks)
         == Summary(kind, list0, ids + Ids(kind.elemSz, chunks))
    decreases |chunks|
  {
    hide Summary, AddChunk, Split;
    if chunks == [] {
      assert ids + [] == ids;
    } else {
      var e := kind.elemSz;
      SummaryStep(kind, list0, ids, chunks[0]);
      ChunksSummed(kind, list0, ids + Split(e, chunks[0]), chunks[1..]);
      Associate(ids, Split(e, chunks[0]), Ids(e, chunks[1..]));
    }
  }

  // ---------------------------------------------------------------- over whole replies

  function Datas(cs: seq<W1Cmd>): (ds: seq<seq<byte>>)
    ensures |ds| == |cs|
  {
    seq(|cs|, i requires 0 <= i < |cs| => cs[i].data)
  }

  /** The chunks of one message. */
  function Chunks(kind: Kind, m: W1Msg): seq<seq<byte>> {
    if kind.search then Datas(ParseCmds(m.data)) else [m.data]
  }

  /** The chunks of the messages that get through: all up to and including the first status report. */
  function Through(kind: Kind, ms: seq<(W1Msg, bool)>): seq<seq<byte>> {
    if ms == [] then []
    else Chunks(kind, ms[0].0) + if ms[0].1 then [] else Through(kind, ms[1..])
  }

  /** The callback over a run of messages. */
  function ListFeed(kind: Kind, st: LSt, more: More, ms: seq<(W1Msg, bool)>): LSt
    requires Roomy(kind, st)
    decreases |ms|
  {
    if ms == [] || more == NoMore then st
    else
      var r := ListMessage(kind, st, ms[0].0, ms[0].1);
      ListFeed(kind, r.0, r.1, ms[1..])
  }

  predicate Good(kind: Kind, m: (W1Msg, bool)) {
    && !(m.1 && m.0.status != 0)
    && (kind.search ==> forall c <- ParseCmds(m.0.data) :: c.code == kind.srchCmd)
  }

  predicate AllGood(kind: Kind, ms: seq<(W1Msg, bool)>) {
    forall m <- ms :: Good(kind, m)
  }

  lemma {:induction false} CmdsAreChunks(kind: Kind, st: LSt, cs: seq<W1Cmd>)
    requires Roomy(kind, st) && forall c <- cs :: c.code == kind.srchCmd
    ensures AddCmds(kind, st, cs) == (AddChunks(kind, st, Datas(cs)), false)
    decreases |cs|
  {
    if cs != [] {
      assert cs[0] in cs;
      assert Datas(cs)[1..] == Datas(cs[1..]);
      CmdsAreChunks(kind, AddChunk(kind, st, cs[0].data), cs[1..]);
    }
  }

  lemma {:induction false} ChunksAppend(kind: Kind, st: LSt, xs: seq<seq<byte>>, ys: seq<seq<byte>>)
    requires Roomy(kind, st)
    ensures Roomy(kind, AddChunks(kind, st, xs))
    ensures AddChunks(kind, st, xs + ys) == AddChunks(kind, AddChunks(kind, st, xs), ys)
    decreases |xs|
  {
    if xs == [] {
      assert xs + ys == ys;
    } else {
      assert (xs + ys)[1..] == xs[1..] + ys;
      ChunksAppend(kind, AddChunk(kind, st, xs[0]), xs[1..], ys);
    }
  }

  lemma {:induction false} FeedIsChunks(kind: Kind, st: LSt, more: More, ms: seq<(W1Msg, bool)>)
    requires Roomy(kind, st) && st.status == 0 && more != NoMore && AllGood(kind, ms)
    ensures ListFeed(kind, st, more, ms) == AddChunks(kind, st, Through(kind, ms))
    decreases |ms|
  {
    if ms == [] {
    } else {
      assert ms[0] in ms;
      var m, isStatus := ms[0].0, ms[0].1;
      var cs := ParseCmds(m.data);
      var rest := if isStatus then [] else Through(kind, ms[1..]);
      ChunksAppend(kind, st, Chunks(kind, m), rest);
      if kind.search {
        CmdsAreChunks(kind, st, cs);
      } else {
        assert [m.data][1..] == [];
      }
      var st1 := AddChunks(kind, st, Chunks(kind, m));
      assert ListMessage(kind, st, m, isStatus) == (st1, if isStatus then NoMore else MoreOpt);
      StatusKept(kind, st, Chunks(kind, m));
      if !isStatus {
        FeedIsChunks(kind, st1, MoreOpt, ms[1..]);
      }
    }
  }

  lemma {:induction false} StatusKept(kind: Kind, st: LSt, chunks: seq<seq<byte>>)
    requires Roomy(kind, st)
    ensures AddChunks(kind, st, chunks).status == st.status
    decreases |chunks|
  {
    if chunks != [] {
      StatusKept(kind, AddChunk(kind, st, chunks[0]), chunks[1..]);
    }
  }

  // ---------------------------------------------------------------- exactly when a listing is good

  /** The messages the callback is handed: all up to the first status report or bad message. */
  function Handed(kind: Kind, ms: seq<(W1Msg, bool)>): seq<(W1Msg, bool)> {
    if ms == [] then []
    else [ms[0]] + if ms[0].1 || !Good(kind, ms[0]) then [] else Handed(kind, ms[1..])
  }

  lemma {:induction false} WrongCmdNoted(kind: Kind, st: LSt, cs: seq<W1Cmd>)
    requires Roomy(kind, st) && !(forall c <- cs :: c.code == kind.srchCmd)
    ensures AddCmds(kind, st, cs).1 && AddCmds(kind, st, cs).0.status == NO_MATCH
    decreases |cs|
  {
    if cs[0].code == kind.srchCmd {
      assert cs == [cs[0]] + cs[1..];
      WrongCmdNoted(kind, AddChunk(kind, st, cs[0].data), cs[1..]);
    }
  }

  /** One message: a good one keeps status 0, and stops the listing only if it is a status report; a
      bad one stops it with another status. */
  lemma OneListed(kind: Kind, st: LSt, m: (W1Msg, bool))
    requires Roomy(kind, st) && st.status == 0
    ensures var r := ListMessage(kind, st, m.0, m.1);
            && (r.0.status == 0 <==> Good(kind, m))
            && (r.1 == NoMore <==> m.1 || !Good(kind, m))
  {
    if !(m.1 && m.0.status != 0) && kind.search {
      var cs := ParseCmds(m.0.data);
      if Good(kind, m) {
        CmdsAreChunks(kind, st, cs);
        StatusKept(kind, st, Datas(cs));
      } else {
        WrongCmdNoted(kind, st, cs);
      }
    }
  }

  /** Only what is handed to the callback matters, and the status is 0 exactly when all of it is good. */
  lemma {:induction false} StatusIffGood(kind: Kind, st: LSt, more: More, ms: seq<(W1Msg, bool)>)
    requires Roomy(kind, st) && st.status == 0 && more != NoMore
    ensures ListFeed(kind, st, more, ms) == ListFeed(kind, st, more, Handed(kind, ms))
    ensures ListFeed(kind, st, more, ms).status == 0 <==> AllGood(kind, Handed(kind, ms))
    decreases |ms|
  {
    if ms != [] {
      hide Good, ListMessage;
      var m, h := ms[0], Handed(kind, ms);
      var r := ListMessage(kind, st, m.0, m.1);
      OneListed(kind, st, m);
      if r.1 == NoMore {
        assert h == [m] && h[1..] == [];
        assert ListFeed(kind, r.0, r.1, ms[1..]) == r.0 == ListFeed(kind, r.0, r.1, []);
      } else {
        assert h == [m] + Handed(kind, ms[1..]) && h[1..] == Handed(kind, ms[1..]);
        StatusIffGood(kind, r.0, r.1, ms[1..]);
        assert AllGood(kind, h) <==> Good(kind, m) && AllGood(kind, h[1..]);
      }
    }
  }

  /** After any run of successful replies the list is the longest prefix of the received elements
      that fits, the buffer behind it is untouched, and all elements are counted. The result depends
      on the received elements alone, not on how they were cut into commands and messages. */
  lemma ListIsBoundedPrefix(kind: Kind, list0: seq<Id>, more: More, ms: seq<(W1Msg, bool)>)
    requires |list0| == kind.maxElems
    requires more != NoMore && AllGood(kind, ms)
    ensures ListFeed(kind, LSt(list0, 0, 0, 0), more, ms)
         == Summary(kind, list0, Ids(kind.elemSz, Through(kind, ms)))
  {
    var chunks := Through(kind, ms);
    FeedIsChunks(kind, LSt(list0, 0, 0, 0), more, ms);
    ChunksSummed(kind, list0, [], chunks);
    assert [] + Ids(kind.elemSz, chunks) == Ids(kind.elemSz, chunks);
    assert Summary(kind, list0, []) == LSt(list0, 0, 0, 0);
  }
}
