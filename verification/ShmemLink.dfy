/** The NEW/ACK handshake of lib/shmem-link.c between two processors, as interleaved single
    loads and stores on the shared region of lib/shmem.c. */
module ShmemLink {
  import opened Words

  const MSG_SIZE := 64
  const NEW: bv32 := 1
  const ACK: bv32 := 2

  /** Where the sender is in `shmem_link_send`. `Copy(j)`: `j` bytes of the data area are
      written, whole words of the message first, then its last bytes, then zeros; at 64 the
      status is loaded. `StoreNew(v)` and `StoreAck(v)`: a status word was loaded and is yet to
      be written back. */
  datatype SenderPc = Idle | Copy(j: nat) | StoreNew(v: bv32) | PollAck | LoadAck | StoreNoAck(v: bv32)

  /** Where the receiver is in `shmem_link_recv`; at 16 words read the status is loaded. */
  datatype ReceiverPc = PollNew | Read(i: nat) | StoreNoNew(v: bv32) | LoadForAck | StoreAck(v: bv32)

  datatype State = State(
    data: seq<u8>, status: bv32,
    spc: SenderPc, msg: seq<u8>, sent: seq<seq<u8>>, acked: seq<seq<u8>>,
    rpc: ReceiverPc, buf: seq<u8>, delivered: seq<seq<u8>>)

  /** The next access of the sender; `next` is the message when a send begins. */
  function SenderStep(s: State, next: seq<u8>): State
    requires |s.data| == MSG_SIZE && |next| <= MSG_SIZE
  {
    match s.spc
    case Idle => s.(spc := Copy(0), msg := next, sent := s.sent + [next])
    case Copy(j) =>
      if j + 4 <= |s.msg| && j + 4 <= MSG_SIZE then s.(data := Splice(s.data, j, s.msg[j..j + 4]), spc := Copy(j + 4))
      else if j < |s.msg| && j < MSG_SIZE then s.(data := s.data[j := s.msg[j]], spc := Copy(j + 1))
      else if j < MSG_SIZE then s.(data := s.data[j := 0], spc := Copy(j + 1))
      else s.(spc := StoreNew(s.status))
    case StoreNew(v) => s.(status := v | NEW, spc := PollAck)
    case PollAck => if s.status & ACK != 0 then s.(spc := LoadAck) else s
    case LoadAck => s.(spc := StoreNoAck(s.status))
    case StoreNoAck(v) => s.(status := v & !ACK, spc := Idle, acked := s.acked + [s.msg])
  }

  /** The next access of the receiver. A message counts as delivered when the call that read it
      returns. */
  function ReceiverStep(s: State): State
    requires |s.data| == MSG_SIZE
  {
    match s.rpc
    case PollNew => if s.status & NEW != 0 then s.(rpc := Read(0), buf := []) else s
    case Read(i) =>
      if 4 * i + 4 <= MSG_SIZE then s.(buf := s.buf + s.data[4 * i..4 * i + 4], rpc := Read(i + 1))
      else s.(rpc := StoreNoNew(s.status))
    case StoreNoNew(v) => s.(status := v & !NEW, rpc := LoadForAck)
    case LoadForAck => s.(rpc := StoreAck(s.status))
    case StoreAck(v) => s.(status := v | ACK, rpc := PollNew, delivered := s.delivered + [s.buf])
  }

  /** A send that waits gives up. */
  function TimeOut(s: State): State
  {
    if s.spc == PollAck && s.status & ACK == 0 then s.(spc := Idle) else s
  }

  /** One access by either processor; sends may give up when `timeouts`. */
  ghost predicate Next(timeouts: bool, s: State, s': State)
  {
    |s.data| == MSG_SIZE &&
    (s' == ReceiverStep(s)
     || (timeouts && s' == TimeOut(s))
     || exists m: seq<u8> :: |m| <= MSG_SIZE && s' == SenderStep(s, m))
  }

  ghost predicate Initial(s: State)
  {
    && |s.data| == MSG_SIZE && s.status == 0 && s.spc == Idle && s.rpc == PollNew
    && s.sent == [] && s.delivered == [] && s.acked == [] && |s.msg| <= MSG_SIZE
  }

  /** A message with zeros up to 64 bytes. */
  function Padded(m: seq<u8>): (p: seq<u8>)
    requires |m| <= MSG_SIZE
    ensures |p| == MSG_SIZE && p[..|m|] == m && forall k | |m| <= k < MSG_SIZE :: p[k] == 0
  {
    m + seq(MSG_SIZE - |m|, i => 0)
  }

  ghost predicate Messages(sent: seq<seq<u8>>)
  {
    forall k | 0 <= k < |sent| :: |sent[k]| <= MSG_SIZE
  }

  /** The first `n` messages sent, padded, are what was delivered. */
  ghost predicate DeliveredFirst(s: State, n: nat)
  {
    && Messages(s.sent) && n <= |s.sent| && |s.delivered| == n
    && forall k | 0 <= k < n :: s.delivered[k] == Padded(s.sent[k])
  }

  /** A send is under way; its message is the last one in `sent`, all earlier ones arrived. */
  ghost predicate Sending(s: State)
  {
    |s.msg| <= MSG_SIZE && |s.sent| > 0 && s.sent[|s.sent| - 1] == s.msg && s.acked == s.sent[..|s.sent| - 1]
  }

  ghost predicate Written(s: State)
  {
    |s.msg| <= MSG_SIZE && s.data == Padded(s.msg)
  }

  /** The receiver has the message and has not yet returned from reading it. */
  ghost predicate Reading(s: State)
    requires |s.data| == MSG_SIZE
  {
    match s.rpc
    case PollNew => s.status == NEW
    case Read(i) => s.status == NEW && i <= 16 && s.buf == s.data[..4 * i]
    case StoreNoNew(v) => s.status == NEW && v == NEW && s.buf == s.data
    case LoadForAck => s.status == 0 && s.buf == s.data
    case StoreAck(v) => s.status == 0 && v == 0 && s.buf == s.data
  }

  ghost predicate Inv(s: State)
  {
    && |s.data| == MSG_SIZE
    && match s.spc
       case Idle => s.rpc == PollNew && s.status == 0 && DeliveredFirst(s, |s.sent|) && s.acked == s.sent
       case Copy(j) =>
         && s.rpc == PollNew && s.status == 0 && Sending(s) && DeliveredFirst(s, |s.sent| - 1)
         && j <= MSG_SIZE && s.data[..j] == Padded(s.msg)[..j]
       case StoreNew(v) =>
         s.rpc == PollNew && s.status == 0 && v == 0 && Sending(s) && DeliveredFirst(s, |s.sent| - 1) && Written(s)
       case PollAck =>
         && Sending(s) && Written(s)
         && ((DeliveredFirst(s, |s.sent| - 1) && Reading(s))
             || (DeliveredFirst(s, |s.sent|) && s.rpc == PollNew && s.status == ACK))
       case LoadAck => Sending(s) && Written(s) && DeliveredFirst(s, |s.sent|) && s.rpc == PollNew && s.status == ACK
       case StoreNoAck(v) =>
         Sending(s) && Written(s) && DeliveredFirst(s, |s.sent|) && s.rpc == PollNew && s.status == ACK && v == ACK
  }

  lemma StatusBits()
    ensures (0 as bv32) & NEW == 0 && (0 as bv32) & ACK == 0 && NEW & ACK == 0 && NEW & NEW != 0 && ACK & ACK != 0
        && ACK & NEW == 0
    ensures (0 as bv32) | NEW == NEW && NEW & !NEW == 0 && (0 as bv32) | ACK == ACK && ACK & !ACK == 0
  {
  }

  lemma InitialInv(s: State)
    requires Initial(s)
    ensures Inv(s)
  {
  }

  lemma SenderKeeps(s: State, m: seq<u8>)
    requires Inv(s) && |m| <= MSG_SIZE
    ensures Inv(SenderStep(s, m))
  {
    StatusBits();
    match s.spc
    case Copy(j) => CopyKeeps(s, m);
    case _ =>
  }

  lemma CopyKeeps(s: State, m: seq<u8>)
    requires Inv(s) && s.spc.Copy? && |m| <= MSG_SIZE
    ensures Inv(SenderStep(s, m))
  {
    var j := s.spc.j;
    var p := Padded(s.msg);
    if j + 4 <= |s.msg| {
      var d := Splice(s.data, j, s.msg[j..j + 4]);
      assert d[..j + 4] == s.data[..j] + s.msg[j..j + 4];
      assert p[..j + 4] == p[..j] + p[j..j + 4] && p[j..j + 4] == s.msg[j..j + 4];
    } else if j < MSG_SIZE {
      var d := s.data[j := p[j]];
      assert d[..j + 1] == s.data[..j] + [p[j]] && p[..j + 1] == p[..j] + [p[j]];
      assert j < |s.msg| ==> p[j] == s.msg[j];
    } else {
      assert s.data == s.data[..j] && p == p[..j];
    }
  }

  lemma ReceiverKeeps(s: State)
    requires Inv(s)
    ensures Inv(ReceiverStep(s))
  {
    StatusBits();
    match s.rpc
    case Read(i) =>
      if i < 16 {
        assert s.data[..4 * i + 4] == s.data[..4 * i] + s.data[4 * i..4 * i + 4];
      } else {
        assert s.data[..4 * i] == s.data;
      }
    case _ =>
  }

  /** A run, from the initial state, of any interleaving. */
  ghost predicate Run(timeouts: bool, trace: seq<State>): (run: bool)
    ensures run ==> |trace| > 0
  {
    && |trace| > 0 && Initial(trace[0])
    && forall i, j | 0 <= i < j < |trace| && j == i + 1 :: Next(timeouts, trace[i], trace[j])
  }

  lemma {:induction false} RunsKeepInv(trace: seq<State>)
    requires Run(false, trace)
    ensures Inv(trace[|trace| - 1])
    decreases |trace|
  {
    hide Inv, SenderStep, ReceiverStep, Initial;
    var n := |trace| - 1;
    if n == 0 {
      InitialInv(trace[0]);
    } else {
      RunsKeepInv(trace[..n]);
      var s, s' := trace[n - 1], trace[n];
      assert Next(false, s, s');
      if s' == ReceiverStep(s) {
        ReceiverKeeps(s);
      } else {
        var m: seq<u8> :| |m| <= MSG_SIZE && s' == SenderStep(s, m);
        SenderKeeps(s, m);
      }
    }
  }

  /** Messages whose send returned as acknowledged have been delivered: once each, in order,
      untorn, padded with zeros. */
  ghost predicate AckedDelivered(s: State)
  {
    && Messages(s.acked) && |s.acked| <= |s.delivered|
    && forall k | 0 <= k < |s.acked| :: s.delivered[k] == Padded(s.acked[k])
  }

  /** Nothing but the messages sent is delivered, and at most the last one is missing. */
  ghost predicate Faithful(s: State)
  {
    && AckedDelivered(s) && DeliveredFirst(s, |s.delivered|) && |s.sent| <= |s.delivered| + 1
    && (s.spc == Idle ==> s.acked == s.sent && |s.delivered| == |s.sent|)
  }

  /** A status word loaded and not yet written back. */
  function SenderHolds(s: State): Option<bv32>
  {
    if s.spc.StoreNew? || s.spc.StoreNoAck? then Some(s.spc.v) else None
  }

  function ReceiverHolds(s: State): Option<bv32>
  {
    if s.rpc.StoreNoNew? || s.rpc.StoreAck? then Some(s.rpc.v) else None
  }

  /** The two read-modify-writes never overlap, and each writes back what it loaded with only
      its own bit changed: no update of a status bit is lost. */
  ghost predicate NoLostUpdate(s: State)
  {
    && !(SenderHolds(s).Some? && ReceiverHolds(s).Some?)
    && (SenderHolds(s).Some? ==> SenderHolds(s).value == s.status)
    && (ReceiverHolds(s).Some? ==> ReceiverHolds(s).value == s.status)
  }

  /** The property of every interleaving with one sender and one receiver and no timeout. */
  lemma Handshake(trace: seq<State>)
    requires Run(false, trace)
    ensures Faithful(trace[|trace| - 1]) && NoLostUpdate(trace[|trace| - 1])
  {
    RunsKeepInv(trace);
  }

  /** Accesses left until the send under way returns, as far as the state tells. */
  function Work(s: State): nat
  {
    match s.spc
    case Idle => 0
    case StoreNoAck(_) => 1
    case LoadAck => 2
    case PollAck =>
      if s.status & ACK != 0 then 3
      else (match s.rpc
        case StoreAck(_) => 4
        case LoadForAck => 5
        case StoreNoNew(_) => 6
        case Read(i) => 7 + (if i <= 16 then 16 - i else 0)
        case PollNew => 24)
    case StoreNew(_) => 25
    case Copy(j) => 26 + (if j <= MSG_SIZE then MSG_SIZE - j else 0)
  }

  /** A send under way never stalls: whoever moves next brings it closer to returning or does
      nothing but poll, and never do both only poll. */
  lemma Progress(s: State, m: seq<u8>)
    requires Inv(s) && s.spc != Idle && |m| <= MSG_SIZE
    ensures var a, b := SenderStep(s, m), ReceiverStep(s);
            && (a == s || Work(a) < Work(s)) && (b == s || Work(b) < Work(s))
            && (Work(a) < Work(s) || Work(b) < Work(s))
  {
    hide DeliveredFirst, Written, Sending;
    StatusBits();
    match s.spc
    case Copy(j) =>
    case PollAck => PollProgress(s, m);
    case _ =>
  }

  lemma PollProgress(s: State, m: seq<u8>)
    requires Inv(s) && s.spc == PollAck && |m| <= MSG_SIZE
    ensures var a, b := SenderStep(s, m), ReceiverStep(s);
            && (a == s || Work(a) < Work(s)) && (b == s || Work(b) < Work(s))
            && (Work(a) < Work(s) || Work(b) < Work(s))
  {
    hide DeliveredFirst, Written, Sending;
    StatusBits();
    if s.status != ACK {
      assert s.status & ACK == 0;
    }
  }

  function Last(trace: seq<State>): State
    requires |trace| > 0
  {
    trace[|trace| - 1]
  }

  lemma Push(timeouts: bool, trace: seq<State>, s: State) returns (longer: seq<State>)
    requires Run(timeouts, trace) && Next(timeouts, Last(trace), s)
    ensures Run(timeouts, longer) && Last(longer) == s
  {
    hide Initial, Next;
    longer := trace + [s];
    forall i, j | 0 <= i < j < |longer| && j == i + 1
      ensures Next(timeouts, longer[i], longer[j])
    {
      if j < |trace| {
        assert Next(timeouts, trace[i], trace[j]);
      }
    }
  }

  lemma Sends(timeouts: bool, trace: seq<State>, m: seq<u8>) returns (longer: seq<State>)
    requires Run(timeouts, trace) && |Last(trace).data| == MSG_SIZE && |m| <= MSG_SIZE
    ensures Run(timeouts, longer) && Last(longer) == SenderStep(Last(trace), m)
  {
    hide SenderStep, ReceiverStep, Initial, Run;
    longer := Push(timeouts, trace, SenderStep(Last(trace), m));
  }

  lemma Receives(timeouts: bool, trace: seq<State>) returns (longer: seq<State>)
    requires Run(timeouts, trace) && |Last(trace).data| == MSG_SIZE
    ensures Run(timeouts, longer) && Last(longer) == ReceiverStep(Last(trace))
  {
    hide SenderStep, ReceiverStep, Initial, Run;
    longer := Push(timeouts, trace, ReceiverStep(Last(trace)));
  }

  /** The sender alone copies a full-size message. */
  lemma {:induction false} CopiesAll(timeouts: bool, trace: seq<State>) returns (longer: seq<State>)
    requires Run(timeouts, trace)
    requires var s := Last(trace);
             s.spc.Copy? && |s.data| == MSG_SIZE && |s.msg| == MSG_SIZE && s.spc.j <= MSG_SIZE && s.spc.j % 4 == 0
             && s.data[..s.spc.j] == s.msg[..s.spc.j]
    ensures Run(timeouts, longer) && Last(longer) == Last(trace).(data := Last(trace).msg, spc := Copy(MSG_SIZE))
    decreases MSG_SIZE - Last(trace).spc.j
  {
    hide Run, ReceiverStep;
    var s := Last(trace);
    if s.spc.j == MSG_SIZE {
      assert s.data == s.data[..MSG_SIZE] && s.msg == s.msg[..MSG_SIZE];
      longer := trace;
    } else {
      var next := Sends(timeouts, trace, s.msg);
      var j := s.spc.j;
      assert Last(next).data[..j + 4] == s.data[..j] + s.msg[j..j + 4] == s.msg[..j + 4];
      longer := CopiesAll(timeouts, next);
    }
  }

  /** The receiver alone reads the whole data area. */
  lemma {:induction false} ReadsAll(timeouts: bool, trace: seq<State>) returns (longer: seq<State>)
    requires Run(timeouts, trace)
    requires var s := Last(trace);
             s.rpc.Read? && |s.data| == MSG_SIZE && s.rpc.i <= 16 && s.buf == s.data[..4 * s.rpc.i]
    ensures Run(timeouts, longer) && Last(longer) == Last(trace).(buf := Last(trace).data, rpc := Read(16))
    decreases 16 - Last(trace).rpc.i
  {
    hide Run, SenderStep;
    var s := Last(trace);
    if s.rpc.i == 16 {
      assert s.data == s.data[..64];
      longer := trace;
    } else {
      var next := Receives(timeouts, trace);
      var i := s.rpc.i;
      assert Last(next).buf == s.data[..4 * i] + s.data[4 * i..4 * i + 4] == s.data[..4 * i + 4];
      longer := ReadsAll(timeouts, next);
    }
  }

  function Full(b: u8): (m: seq<u8>)
    ensures |m| == MSG_SIZE && m[0] == b
  {
    seq(MSG_SIZE, i => b)
  }

  /** Post a full message: from idle to waiting for the acknowledgement. */
  lemma Posts(timeouts: bool, trace: seq<State>, m: seq<u8>) returns (longer: seq<State>)
    requires Run(timeouts, trace) && Last(trace).spc == Idle && |Last(trace).data| == MSG_SIZE && |m| == MSG_SIZE
    ensures Run(timeouts, longer)
    ensures var s := Last(trace);
            Last(longer) == s.(data := m, status := s.status | NEW, spc := PollAck, msg := m, sent := s.sent + [m])
  {
    hide Run;
    longer := Sends(timeouts, trace, m);
    longer := CopiesAll(timeouts, longer);
    longer := Sends(timeouts, longer, m);
    longer := Sends(timeouts, longer, m);
  }

  /** The receiver alone takes a posted message. */
  lemma Takes(timeouts: bool, trace: seq<State>) returns (longer: seq<State>)
    requires Run(timeouts, trace) && Last(trace).rpc == PollNew && |Last(trace).data| == MSG_SIZE
        && Last(trace).status == NEW
    ensures Run(timeouts, longer)
    ensures var s := Last(trace);
            Last(longer) == s.(status := ACK, buf := s.data, delivered := s.delivered + [s.data])
  {
    hide Run;
    StatusBits();
    longer := Receives(timeouts, trace);
    longer := ReadsAll(timeouts, longer);
    longer := Receives(timeouts, longer);
    longer := Receives(timeouts, longer);
    longer := Receives(timeouts, longer);
    longer := Receives(timeouts, longer);
  }

  /** A late acknowledgement of a send that gave up is taken for that of the next one. */
  lemma LateAck() returns (trace: seq<State>)
    ensures Run(true, trace) && !AckedDelivered(Last(trace))
  {
    hide Run, SenderStep, ReceiverStep, Padded;
    var first, second := Full(1), Full(2);
    trace := [State(Full(0), 0, Idle, [], [], [], PollNew, [], [])];
    assert Run(true, trace) by { StartOfRun(trace[0]); }
    StatusBits();
    trace := Posts(true, trace, first);
    trace := Push(true, trace, TimeOut(Last(trace)));
    trace := Takes(true, trace);
    trace := Posts(true, trace, second);
    trace := Acknowledged(trace, second);
    assert Padded(second) == second by { PaddedFull(second); }
    assert first[0] != second[0];
    assert Last(trace).delivered[0] == first && Last(trace).acked[0] == second;
  }

  lemma StartOfRun(s: State)
    requires Initial(s)
    ensures Run(true, [s])
  {
  }

  lemma PaddedFull(m: seq<u8>)
    requires |m| == MSG_SIZE
    ensures Padded(m) == m
  {
  }

  /** With the ACK bit up a send returns. */
  lemma Acknowledged(trace: seq<State>, m: seq<u8>) returns (longer: seq<State>)
    requires Run(true, trace) && Last(trace).spc == PollAck && |Last(trace).data| == MSG_SIZE && |m| <= MSG_SIZE
    requires Last(trace).status & ACK != 0
    ensures Run(true, longer)
    ensures var s := Last(trace); Last(longer) == s.(status := s.status & !ACK, spc := Idle, acked := s.acked + [s.msg])
  {
    hide Run;
    longer := Sends(true, trace, m);
    longer := Sends(true, longer, m);
    longer := Sends(true, longer, m);
  }

  /** The delivery guarantee holds of every run exactly when no send can time out. */
  lemma DeliveryExact(timeouts: bool)
    ensures (forall trace | Run(timeouts, trace) :: AckedDelivered(Last(trace))) <==> !timeouts
  {
    hide Run, AckedDelivered;
    if timeouts {
      var trace := LateAck();
    } else {
      forall trace | Run(timeouts, trace)
        ensures AckedDelivered(Last(trace))
      {
        HandshakeAcked(trace);
      }
    }
  }

  lemma HandshakeAcked(trace: seq<State>)
    requires Run(false, trace)
    ensures AckedDelivered(Last(trace))
  {
    Handshake(trace);
  }
}
