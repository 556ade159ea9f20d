/**
  The handover of a background rewrite: the parent buffers what it logs, sends
  pieces of the buffer through a pipe, and the child appends them to the snapshot
  it writes, until a '!' each way stops the sending.
 */
module AofHandover {

  /**
    Where the child is: writing and reading diffs, waiting for the answer to its '!', answered, exited well, or
    dead.
   */
  datatype Phase = Rewriting | Asked | Acked | Finished | Gone

  /**
    fed: the bytes logged since the fork. snapshot: what the child writes for the dataset at
    the fork. buffered: the parent's blocks. pipe: sent and not yet read. stop: the parent
    sends no more. ask, ack: a '!' under way to the parent, to the child. diff: what the child
    has read. temp: the child's file.
   */
  datatype Handover = Handover(
    fed: string, snapshot: string, buffered: string, pipe: string, stop: bool, ask: bool, ack: bool,
    diff: string, temp: string, phase: Phase)

  datatype Action =
    | Feed(bytes: string)
    | Send(n: nat)
    | Read(n: nat)
    | Ask
    | Answer(delivered: bool)
    | GetAck
    | Finish
    | Fail

  function Start(snapshot: string): Handover {
    Handover("", snapshot, "", "", false, false, false, "", "", Rewriting)
  }

  predicate Enabled(h: Handover, a: Action) {
    match a
    case Feed(_) => true
    case Send(n) => n <= |h.buffered| && (n > 0 ==> !h.stop)
    case Read(n) => n <= |h.pipe| && (h.phase == Rewriting || h.phase == Acked)
    case Ask => h.phase == Rewriting
    case Answer(_) => h.ask
    case GetAck => h.phase == Asked && h.ack
    case Finish => h.phase == Acked && h.pipe == ""
    case Fail => h.phase != Finished
  }

  function Step(h: Handover, a: Action): Handover
    requires Enabled(h, a)
  {
    match a
    case Feed(bytes) => h.(fed := h.fed + bytes, buffered := h.buffered + bytes)
    case Send(n) => h.(pipe := h.pipe + h.buffered[..n], buffered := h.buffered[n..])
    case Read(n) => h.(diff := h.diff + h.pipe[..n], pipe := h.pipe[n..])
    case Ask => h.(ask := true, phase := Asked)
    case Answer(delivered) => h.(ask := false, stop := true, ack := delivered)
    case GetAck => h.(ack := false, phase := Acked)
    case Finish => h.(temp := h.snapshot + h.diff, phase := Finished)
    case Fail => h.(phase := Gone)
  }

  /** Nothing is lost or duplicated on the way, and a child that was answered is one that gets no more. */
  ghost predicate Kept(h: Handover) {
    && h.diff + h.pipe + h.buffered == h.fed
    && (h.ack || h.phase == Acked || h.phase == Finished ==> h.stop)
    && (h.phase == Finished ==> h.pipe == "" && h.temp == h.snapshot + h.diff)
  }

  lemma {:induction false} StepKeeps(h: Handover, a: Action)
    requires Kept(h) && Enabled(h, a)
    ensures Kept(Step(h, a)) && Step(h, a).snapshot == h.snapshot
  {
    match a {
      case Feed(bytes) =>
        assert h.diff + h.pipe + (h.buffered + bytes) == (h.diff + h.pipe + h.buffered) + bytes;
      case Send(n) =>
        assert h.diff + (h.pipe + h.buffered[..n]) + h.buffered[n..] == h.diff + h.pipe + h.buffered;
      case Read(n) =>
        assert (h.diff + h.pipe[..n]) + h.pipe[n..] + h.buffered == h.diff + h.pipe + h.buffered;
      case Ask =>
      case Answer(_) =>
      case GetAck =>
      case Finish =>
      case Fail =>
    }
  }

  /**
    When the child has exited well, its file and the rest of the buffer are the snapshot and everything logged
    since the fork.
   */
  lemma {:induction false} FinishedIsExact(h: Handover)
    requires Kept(h) && h.phase == Finished
    ensures h.temp + h.buffered == h.snapshot + h.fed
  {
    assert h.diff + h.pipe == h.diff;
    assert h.temp + h.buffered == h.snapshot + (h.diff + h.buffered);
  }

  ghost predicate Run(h: Handover, actions: seq<Action>, g: Handover)
    decreases |actions|
  {
    if actions == [] then h == g
    else Enabled(h, actions[0]) && Run(Step(h, actions[0]), actions[1..], g)
  }

  function FedBy(actions: seq<Action>): string {
    if actions == [] then ""
    else (if actions[0].Feed? then actions[0].bytes else "") + FedBy(actions[1..])
  }

  lemma {:induction false} RunKeeps(h: Handover, actions: seq<Action>, g: Handover)
    requires Kept(h) && Run(h, actions, g)
    ensures Kept(g) && g.snapshot == h.snapshot && g.fed == h.fed + FedBy(actions)
    decreases |actions|
  {
    hide Kept;
    if actions != [] {
      StepKeeps(h, actions[0]);
      RunKeeps(Step(h, actions[0]), actions[1..], g);
      var b := if actions[0].Feed? then actions[0].bytes else "";
      assert (h.fed + b) + FedBy(actions[1..]) == h.fed + (b + FedBy(actions[1..]));
      assert h.fed + "" == h.fed;
    }
  }

  /**
    For every interleaving of logging, partial pipe writes, reads and the two '!': when the
    child has exited well, its file followed by the parent's remaining buffer is the snapshot
    followed by exactly the bytes that were logged.
   */
  lemma {:induction false} HandoverIsExact(snapshot: string, actions: seq<Action>, g: Handover)
    requires Run(Start(snapshot), actions, g) && g.phase == Finished
    ensures g.temp + g.buffered == snapshot + FedBy(actions)
  {
    assert "" + FedBy(actions) == FedBy(actions);
    RunKeeps(Start(snapshot), actions, g);
    FinishedIsExact(g);
  }

  /** Why the last read must drain the pipe: ending with bytes still in it is exact only if there are none. */
  lemma {:induction false} DrainIsNeeded(h: Handover)
    requires Kept(h)
    ensures (h.snapshot + h.diff) + h.buffered == h.snapshot + h.fed <==> h.pipe == ""
  {
    assert |h.fed| == |h.diff| + |h.pipe| + |h.buffered|;
    if h.pipe == "" {
      assert h.diff + h.pipe == h.diff;
      assert (h.snapshot + h.diff) + h.buffered == h.snapshot + (h.diff + h.buffered);
    }
  }
}
