/** The callback of w1_msg_exec with its private data and the caller's memory, updated in place. */
module ExecCallback {
  import opened Bytes
  import opened Frames
  import opened InPlace
  import opened Matching

  lemma TakeAllStep(cmds: seq<Cmd>, st: St, d: seq<byte>, c: W1Cmd, rest: seq<byte>)
    requires CmdOk(d) && c == CmdAt(d) && rest == d[CMD_HDRLEN + |c.data|..]
    ensures var t := Take(cmds, st, c);
            TakeAll(cmds, st, ParseCmds(d)) == if t.1 then t else TakeAll(cmds, t.0, ParseCmds(rest))
  {
    assert ([c] + ParseCmds(rest))[1..] == ParseCmds(rest);
  }

  lemma NoReplies(cmds: seq<Cmd>, st: St, d: seq<byte>)
    requires !CmdOk(d)
    ensures TakeAll(cmds, st, ParseCmds(d)) == (st, false)
  {
  }

  lemma Exhausted(cmds: seq<Cmd>, st: St, d: seq<byte>)
    requires st.at >= |cmds|
    ensures CmdOk(d) ==> TakeAll(cmds, st, ParseCmds(d)) == (st, true)
  {
  }

  lemma CmdSize(d: seq<byte>, c: W1Cmd)
    requires CmdOk(d) && c == CmdAt(d)
    ensures CMD_HDRLEN + |c.data| <= |d|
  {
  }

  datatype ReplyEnd = Taken | GiveUp | NextCommand

  class Exec {
    const cmds: seq<Cmd>
    // the memory the commands' buffers are in
    const mem: array<byte>
    var nPrcCmds: nat
    var cmdMsgs: nat
    var status: byte

    ghost predicate Valid() {
      forall q :: 0 <= q < |cmds| ==> cmds[q].addr + cmds[q].len <= mem.Length
    }

    ghost function State(): (st: St)
      reads this, mem
    {
      St(nPrcCmds, cmdMsgs, status, mem[..])
    }

    constructor (cmds: seq<Cmd>, mem: array<byte>)
      requires Sized(cmds, mem[..])
      ensures Valid() && this.cmds == cmds && this.mem == mem
      ensures State() == Start(mem[..])
    {
      this.cmds := cmds;
      this.mem := mem;
      nPrcCmds, cmdMsgs, status := 0, 0, 0;
    }

    /** Copies reply data into the buffer of the current command. */
    method CopyData(data: seq<byte>)
      requires Valid() && nPrcCmds < |cmds| && |data| == cmds[nPrcCmds].len
      modifies mem
      ensures State() == old(State()).(mem := Store(old(mem[..]), cmds[nPrcCmds], data))
    {
      CopyOver(mem, cmds[nPrcCmds].addr, data);
    }

    /** One reply and the current command: the reply is taken, or refused with an error, or the index
        moves on and the reply is still to be dealt with. */
    method OneReply(c: W1Cmd) returns (end: ReplyEnd)
      requires Valid() && nPrcCmds < |cmds|
      modifies this, mem
      ensures nPrcCmds == old(nPrcCmds) + if end == NextCommand then 1 else 0
      ensures var t := Take(cmds, old(State()), c);
              match end
              case Taken => t == (State(), false)
              case GiveUp => t == (State(), true)
              case NextCommand => t == Take(cmds, State(), c)
    {
      var cmd := cmds[nPrcCmds];
      var execCmd := Code(cmd.typ);
      if c.code != execCmd {
        if !Needs(cmd) || cmdMsgs > 0 {
          cmdMsgs := 0;
          nPrcCmds := nPrcCmds + 1;
          return NextCommand;
        } else {
          status := NO_MATCH;
          return GiveUp;
        }
      }
      cmdMsgs := (cmdMsgs + 1) % UINT_RANGE;
      if Needs(cmd) && |c.data| > 0 {
        if |c.data| != cmd.len {
          status := NO_MATCH;
          return GiveUp;
        }
        CopyData(c.data);
      }
      end := Taken;
    }

    /** The walk over the replies from `pos` on, for the current command: it comes to the end of the
        data, gives up with an error, or has to go on with the next command at the same reply. */
    method WalkReplies(data: Blob, pos: nat) returns (end: ReplyEnd, pos': nat)
      requires Valid() && nPrcCmds < |cmds| && pos <= |data|
      modifies this, mem
      ensures pos' <= |data| && nPrcCmds == old(nPrcCmds) + if end == NextCommand then 1 else 0
      ensures var all := TakeAll(cmds, old(State()), ParseCmds(data[pos..]));
              match end
              case Taken => all == (State(), false)
              case GiveUp => all == (State(), true)
              case NextCommand =>
                CmdOk(data[pos'..]) && all == TakeAll(cmds, State(), ParseCmds(data[pos'..]))
    {
      hide TakeAll, ParseCmds, Take, CmdAt;
      pos' := pos;
      while CmdOk(data[pos'..])
        invariant pos' <= |data| && nPrcCmds == old(nPrcCmds)
        invariant TakeAll(cmds, old(State()), ParseCmds(data[pos..]))
               == TakeAll(cmds, State(), ParseCmds(data[pos'..]))
        decreases |data| - pos'
      {
        var c := CmdAt(data[pos'..]);
        CmdSize(data[pos'..], c);
        var size := CMD_HDRLEN + |c.data|;
        SubSlice(data, pos', |data|, size, |data| - pos');
        TakeAllStep(cmds, State(), data[pos'..], c, data[pos' + size..]);
        end := OneReply(c);
        if end == NextCommand {
          TakeAllStep(cmds, State(), data[pos'..], c, data[pos' + size..]);
          return;
        }
        if end == GiveUp {
          return;
        }
        pos' := pos' + size;
      }
      NoReplies(cmds, State(), data[pos'..]);
      end := Taken;
    }

    /** Whether some later command is owed data. */
    method StillRequired() returns (more: More)
      requires Valid() && nPrcCmds < |cmds|
      ensures more == if Ahead(cmds, nPrcCmds) then MoreReq else MoreOpt
    {
      for i := nPrcCmds + 1 to |cmds|
        invariant forall q :: nPrcCmds < q < i ==> !Needs(cmds[q])
      {
        if Needs(cmds[i]) {
          return MoreReq;
        }
      }
      more := MoreOpt;
    }

    /** w1msg_exec_cb: whatever the message holds, index, counter, status, buffers and verdict become
        what `Matching.OnMessage` says. */
    method Callback(msg: W1Msg, isStatus: bool) returns (more: More)
      requires Valid()
      modifies this, mem
      ensures (State(), more)
           == OnMessage(cmds, old(State()), msg.status, isStatus, ParseCmds(msg.data))
    {
      hide TakeAll, ParseCmds, CmdAt, CmdOk, Ahead;
      ghost var replies := ParseCmds(msg.data);
      ghost var st0 := State();
      ghost var final := TakeAll(cmds, st0, replies);
      var pos: nat := 0;
      ghost var moved := false;
      assert msg.data[0..] == msg.data;
      while true
        invariant pos <= |msg.data|
        invariant !moved ==> State() == st0
        invariant moved ==> !(isStatus && msg.status != 0) && st0.at < |cmds| && CmdOk(msg.data[pos..])
        invariant final == TakeAll(cmds, State(), ParseCmds(msg.data[pos..]))
        decreases |cmds| - nPrcCmds
      {
        if nPrcCmds >= |cmds| {
          Exhausted(cmds, State(), msg.data[pos..]);
          return NoMore;
        }
        if isStatus && msg.status != 0 {
          status := msg.status;
          return NoMore;
        }
        var end;
        end, pos := WalkReplies(msg.data, pos);
        if end == GiveUp {
          return NoMore;
        }
        if end == Taken {
          more := StillRequired();
          return;
        }
        moved := true;
      }
    }
  }
}
