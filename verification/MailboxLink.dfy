/** The mailbox handshake of lib/mailbox-link.c: sixteen data registers and the event latches
    RCV (A) and ACK (B), a sending thread with its ACK handler on one processor and the RCV
    handler on the other, interleaved register access by register access. */
module MailboxLink {

  const DATA_REGS := 16

  /** `mbox_link_send`: `Write(i)`, `i` data registers written; at 16 RCV is raised. */
  datatype ThreadPc = Idle | Write(i: nat) | Poll | ClearAck

  /** `mbox_isr` and `handle_ack` on the sender's processor; the thread waits meanwhile. */
  datatype AckIsr = NoIsr | AckCause | SetFlag | ClearB

  /** `mbox_isr` and `handle_cmd` on the receiver's processor. */
  datatype RcvIsr = Waiting | RcvCause | Read(i: nat) | ClearRcv | SetAck | Enqueue

  datatype State = State(
    data: seq<int>, rcv: bool, ack: bool,
    thread: ThreadPc, msg: seq<int>, txAcked: bool, isr: AckIsr, sent: seq<seq<int>>, acked: seq<seq<int>>,
    rpc: RcvIsr, buf: seq<int>, queued: seq<seq<int>>)

  /** A message with the remaining registers zero. */
  function Padded(m: seq<int>): (p: seq<int>)
    requires |m| <= DATA_REGS
    ensures |p| == DATA_REGS && p[..|m|] == m && forall k | |m| <= k < DATA_REGS :: p[k] == 0
  {
    m + seq(DATA_REGS - |m|, i => 0)
  }

  /** The sending thread; `next` is the message when a send begins. */
  function ThreadStep(s: State, next: seq<int>): State
    requires |s.data| == DATA_REGS && |next| <= DATA_REGS
  {
    match s.thread
    case Idle => s.(thread := Write(0), msg := next, txAcked := false, sent := s.sent + [next])
    case Write(i) =>
      if i < DATA_REGS then s.(data := s.data[i := if i < |s.msg| then s.msg[i] else 0], thread := Write(i + 1))
      else s.(rcv := true, thread := Poll)
    case Poll => if s.txAcked then s.(thread := ClearAck) else s
    case ClearAck => s.(ack := false, thread := Idle, acked := s.acked + [s.msg])
  }

  /** The ACK interrupt is taken while the latch is up. */
  function AckStep(s: State): State
  {
    match s.isr
    case NoIsr => if s.ack then s.(isr := AckCause) else s
    case AckCause => s.(isr := if s.ack then SetFlag else NoIsr)
    case SetFlag => s.(txAcked := true, isr := ClearB)
    case ClearB => s.(ack := false, isr := NoIsr)
  }

  /** The RCV handler; `swapped` raises ACK before clearing RCV. */
  function RcvStep(s: State, swapped: bool): State
    requires |s.data| == DATA_REGS
  {
    match s.rpc
    case Waiting => if s.rcv then s.(rpc := RcvCause) else s
    case RcvCause => if s.rcv then s.(rpc := Read(0), buf := []) else s.(rpc := Waiting)
    case Read(i) =>
      var next := if i < DATA_REGS - 1 then Read(i + 1) else if swapped then SetAck else ClearRcv;
      s.(buf := if i < DATA_REGS then s.buf + [s.data[i]] else s.buf, rpc := next)
    case ClearRcv => s.(rcv := false, rpc := if swapped then Enqueue else SetAck)
    case SetAck => s.(ack := true, rpc := if swapped then ClearRcv else Enqueue)
    case Enqueue => s.(queued := s.queued + [s.buf], rpc := Waiting)
  }

  ghost predicate Next(swapped: bool, s: State, s': State)
  {
    |s.data| == DATA_REGS &&
    (s' == RcvStep(s, swapped) || s' == AckStep(s)
     || (s.isr == NoIsr && exists m: seq<int> :: |m| <= DATA_REGS && s' == ThreadStep(s, m)))
  }

  ghost predicate Initial(s: State)
  {
    && |s.data| == DATA_REGS && !s.rcv && !s.ack && s.thread == Idle && s.isr == NoIsr && s.rpc == Waiting
    && s.sent == [] && s.acked == [] && s.queued == []
  }

  ghost predicate Run(swapped: bool, trace: seq<State>): (run: bool)
    ensures run ==> |trace| > 0
  {
    && |trace| > 0 && Initial(trace[0])
    && forall i, j | 0 <= i < j < |trace| && j == i + 1 :: Next(swapped, trace[i], trace[j])
  }

  function Last(trace: seq<State>): State
    requires |trace| > 0
  {
    trace[|trace| - 1]
  }

  /** Messages taken out of the data registers: queued, or about to be. */
  function Got(s: State): seq<seq<int>>
  {
    if s.rpc == Enqueue then s.queued + [s.buf] else s.queued
  }

  /** Exactly the first `n` messages sent, padded, were read: once each and in order. */
  ghost predicate GotFirst(s: State, n: nat)
  {
    && n <= |s.sent| && |Got(s)| == n && (forall k | 0 <= k < |s.sent| :: |s.sent[k]| <= DATA_REGS)
    && forall k | 0 <= k < n :: Got(s)[k] == Padded(s.sent[k])
  }

  ghost predicate Sending(s: State)
  {
    |s.msg| <= DATA_REGS && |s.sent| > 0 && s.sent[|s.sent| - 1] == s.msg && s.acked == s.sent[..|s.sent| - 1]
  }

  /** The receiver is not between reading and acknowledging. */
  predicate Quiet(s: State) { s.rpc == Waiting || s.rpc == Enqueue }

  /** A complete message lies in the data registers and is being picked up. */
  ghost predicate PickingUp(s: State)
    requires |s.data| == DATA_REGS
  {
    match s.rpc
    case Waiting => s.rcv
    case Enqueue => s.rcv
    case RcvCause => s.rcv
    case Read(i) => s.rcv && i < DATA_REGS && s.buf == s.data[..i]
    case ClearRcv => s.rcv && s.buf == s.data
    case SetAck => !s.rcv && s.buf == s.data
  }

  ghost predicate Inv(s: State)
  {
    && |s.data| == DATA_REGS
    && match s.thread
       case Idle => !s.rcv && !s.ack && s.isr == NoIsr && Quiet(s) && GotFirst(s, |s.sent|) && s.acked == s.sent
       case Write(i) =>
         && !s.rcv && !s.ack && s.isr == NoIsr && Quiet(s) && Sending(s) && GotFirst(s, |s.sent| - 1) && !s.txAcked
         && i <= DATA_REGS && s.data[..i] == Padded(s.msg)[..i]
       case Poll =>
         && Sending(s) && s.data == Padded(s.msg)
         && (if !s.ack && !s.txAcked then s.isr == NoIsr && GotFirst(s, |s.sent| - 1) && PickingUp(s)
             else
               && !s.rcv && Quiet(s) && GotFirst(s, |s.sent|)
               && (if s.ack then s.txAcked == (s.isr == ClearB) else s.isr == NoIsr))
       case ClearAck =>
         Sending(s) && s.data == Padded(s.msg) && !s.rcv && !s.ack && s.isr == NoIsr && s.txAcked && Quiet(s)
         && GotFirst(s, |s.sent|)
  }

  lemma InitialInv(s: State)
    requires Initial(s)
    ensures Inv(s)
  {
  }

  lemma ThreadKeeps(s: State, m: seq<int>)
    requires Inv(s) && s.isr == NoIsr && |m| <= DATA_REGS
    ensures Inv(ThreadStep(s, m))
  {
    match s.thread
    case Write(i) => WriteKeeps(s, m);
    case _ =>
  }

  lemma WriteKeeps(s: State, m: seq<int>)
    requires Inv(s) && s.thread.Write? && |m| <= DATA_REGS
    ensures Inv(ThreadStep(s, m))
  {
    var i, p := s.thread.i, Padded(s.msg);
    if i < DATA_REGS {
      var d := s.data[i := p[i]];
      assert i < |s.msg| ==> p[i] == s.msg[i];
      assert d[..i + 1] == s.data[..i] + [p[i]] && p[..i + 1] == p[..i] + [p[i]];
    } else {
      assert s.data == s.data[..i] && p == p[..i];
    }
  }

  lemma AckKeeps(s: State)
    requires Inv(s)
    ensures Inv(AckStep(s))
  {
  }

  lemma RcvKeeps(s: State)
    requires Inv(s)
    ensures Inv(RcvStep(s, false))
  {
    hide Padded;
    match s.rpc
    case Read(i) => ReadKeeps(s);
    case _ =>
  }

  lemma ReadKeeps(s: State)
    requires Inv(s) && s.rpc.Read?
    ensures Inv(RcvStep(s, false))
  {
    hide Padded;
    var i := s.rpc.i;
    assert s.data[..i + 1] == s.data[..i] + [s.data[i]];
    assert s.data == s.data[..DATA_REGS];
  }

  lemma {:induction false} RunsKeepInv(trace: seq<State>)
    requires Run(false, trace)
    ensures Inv(Last(trace))
    decreases |trace|
  {
    hide Inv, ThreadStep, AckStep, RcvStep, Initial;
    var n := |trace| - 1;
    if n == 0 {
      InitialInv(trace[0]);
    } else {
      RunsKeepInv(trace[..n]);
      var s, s' := trace[n - 1], trace[n];
      assert Next(false, s, s');
      if s' == RcvStep(s, false) {
        RcvKeeps(s);
      } else if s' == AckStep(s) {
        AckKeeps(s);
      } else {
        var m: seq<int> :| |m| <= DATA_REGS && s' == ThreadStep(s, m);
        ThreadKeeps(s, m);
      }
    }
  }

  /** What every interleaving guarantees. */
  ghost predicate Safe(s: State)
    requires |s.data| == DATA_REGS
  {
    // each send that returned was read exactly once, in order
    && GotFirst(s, |Got(s)|) && |s.acked| <= |Got(s)| <= |s.sent| <= |Got(s)| + 1
    && (forall k | 0 <= k < |s.acked| :: s.acked[k] == s.sent[k])
    // data registers are read only when complete, and written only when everything before was read
    && (s.rpc.Read? ==> s.thread == Poll && |s.msg| <= DATA_REGS && s.data == Padded(s.msg))
    && (s.thread.Write? ==> Quiet(s) && |Got(s)| == |s.sent| - 1)
    // RCV is already clear when ACK is raised
    && (s.rpc == SetAck ==> !s.rcv)
  }

  lemma Handshake(trace: seq<State>)
    requires Run(false, trace)
    ensures |Last(trace).data| == DATA_REGS && Safe(Last(trace))
  {
    RunsKeepInv(trace);
  }

  /** The sender waits for an acknowledgement and nothing that could bring it is pending. */
  predicate Stuck(s: State)
  {
    s.thread == Poll && !s.txAcked && s.isr == NoIsr && !s.ack && !s.rcv && s.rpc == Waiting
  }

  lemma NeverStuck(trace: seq<State>)
    requires Run(false, trace)
    ensures !Stuck(Last(trace))
  {
    RunsKeepInv(trace);
  }

  lemma Push(swapped: bool, trace: seq<State>, s: State) returns (longer: seq<State>)
    requires Run(swapped, trace) && Next(swapped, Last(trace), s)
    ensures Run(swapped, longer) && Last(longer) == s
  {
    hide Initial, Next;
    longer := trace + [s];
    forall i, j | 0 <= i < j < |longer| && j == i + 1
      ensures Next(swapped, longer[i], longer[j])
    {
      if j < |trace| {
        assert Next(swapped, trace[i], trace[j]);
      }
    }
  }

  lemma Thread(trace: seq<State>) returns (longer: seq<State>)
    requires Run(true, trace) && |Last(trace).data| == DATA_REGS && Last(trace).isr == NoIsr
    ensures Run(true, longer) && Last(longer) == ThreadStep(Last(trace), [])
  {
    hide ThreadStep, RcvStep, Initial, Run;
    var m: seq<int> := [];
    assert |m| <= DATA_REGS && ThreadStep(Last(trace), []) == ThreadStep(Last(trace), m);
    longer := Push(true, trace, ThreadStep(Last(trace), []));
  }

  lemma Ack(trace: seq<State>) returns (longer: seq<State>)
    requires Run(true, trace) && |Last(trace).data| == DATA_REGS
    ensures Run(true, longer) && Last(longer) == AckStep(Last(trace))
  {
    hide AckStep, Initial, Run;
    longer := Push(true, trace, AckStep(Last(trace)));
  }

  lemma Rcv(trace: seq<State>) returns (longer: seq<State>)
    requires Run(true, trace) && |Last(trace).data| == DATA_REGS
    ensures Run(true, longer) && Last(longer) == RcvStep(Last(trace), true)
  {
    hide RcvStep, Initial, Run;
    longer := Push(true, trace, RcvStep(Last(trace), true));
  }

  function Zero(): (z: seq<int>)
    ensures |z| == DATA_REGS
  {
    seq(DATA_REGS, i => 0)
  }

  /** The thread alone writes an empty message over zeros. */
  lemma {:induction false} WritesAll(trace: seq<State>) returns (longer: seq<State>)
    requires Run(true, trace)
    requires var s := Last(trace);
             s.data == Zero() && s.msg == [] && s.isr == NoIsr && s.thread.Write?
             && s.thread.i <= DATA_REGS
    ensures Run(true, longer) && Last(longer) == Last(trace).(thread := Write(DATA_REGS))
    decreases DATA_REGS - Last(trace).thread.i
  {
    hide Run;
    if Last(trace).thread.i == DATA_REGS {
      longer := trace;
    } else {
      var next := Thread(trace);
      assert Last(next).data == Zero();
      longer := WritesAll(next);
    }
  }

  /** The receiver alone reads all registers. */
  lemma {:induction false} ReadsAll(trace: seq<State>) returns (longer: seq<State>)
    requires Run(true, trace)
    requires var s := Last(trace);
             |s.data| == DATA_REGS && s.rpc.Read? && s.rpc.i < DATA_REGS
             && s.buf == s.data[..s.rpc.i]
    ensures Run(true, longer) && Last(longer) == Last(trace).(buf := Last(trace).data, rpc := SetAck)
    decreases DATA_REGS - Last(trace).rpc.i
  {
    hide Run;
    var s := Last(trace);
    var next := Rcv(trace);
    assert Last(next).buf == s.data[..s.rpc.i + 1];
    if s.rpc.i == DATA_REGS - 1 {
      assert s.data == s.data[..DATA_REGS];
      longer := next;
    } else {
      longer := ReadsAll(next);
    }
  }

  /** The thread alone begins a send and raises RCV. */
  lemma Posts(trace: seq<State>) returns (longer: seq<State>)
    requires Run(true, trace)
    requires Last(trace).thread == Idle && Last(trace).isr == NoIsr && Last(trace).data == Zero()
    ensures Run(true, longer)
    ensures var s := Last(trace);
            Last(longer) == s.(thread := Poll, msg := [], txAcked := false, sent := s.sent + [[]], rcv := true)
  {
    hide Run;
    longer := Thread(trace);
    longer := WritesAll(longer);
    longer := Thread(longer);
  }

  /** With ACK raised before RCV is cleared: a second message is sent in between, its RCV is
      cleared with the first one's, and the sender waits for ever. */
  lemma SwappedSticks() returns (trace: seq<State>)
    ensures Run(true, trace) && Stuck(Last(trace))
  {
    hide Run;
    var start := State(Zero(), false, false, Idle, [], false, NoIsr, [], [], Waiting, [], []);
    trace := [start];
    assert Run(true, trace) by { StartOfRun(start); }
    trace := Posts(trace);
    trace := Rcv(trace);
    trace := Rcv(trace);
    trace := ReadsAll(trace);
    trace := Rcv(trace);
    trace := HandlesAck(trace);
    trace := Posts(trace);
    trace := Rcv(trace);
    trace := Rcv(trace);
  }

  lemma StartOfRun(s: State)
    requires Initial(s)
    ensures Run(true, [s])
  {
  }

  /** The sender's handler and thread alone finish a send whose ACK is up. */
  lemma HandlesAck(trace: seq<State>) returns (longer: seq<State>)
    requires Run(true, trace)
    requires var s := Last(trace); |s.data| == DATA_REGS && s.thread == Poll && s.isr == NoIsr && s.ack
    ensures Run(true, longer)
    ensures var s := Last(trace);
            Last(longer) == s.(txAcked := true, ack := false, thread := Idle, acked := s.acked + [s.msg])
  {
    hide Run;
    longer := Ack(trace);
    longer := Ack(longer);
    longer := Ack(longer);
    longer := Ack(longer);
    longer := Thread(longer);
    longer := Thread(longer);
  }

  /** The order demanded of the RCV handler is the one that never strands a sender. */
  lemma OrderExact(swapped: bool)
    ensures (forall trace | Run(swapped, trace) :: !Stuck(Last(trace))) <==> !swapped
  {
    hide Run;
    if swapped {
      var trace := SwappedSticks();
    } else {
      forall trace | Run(swapped, trace)
        ensures !Stuck(Last(trace))
      {
        NeverStuck(trace);
      }
    }
  }
}
