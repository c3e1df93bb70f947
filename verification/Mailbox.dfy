/** drivers/mailbox.c: the data registers and event latches of mailboxes, and the interrupt
    routine that finds the ones to serve. */
module Mailbox {
  import opened MailboxLink

  const MAX_MBOXES := 64

  datatype Event = EventA | EventB

  /** A mailbox as claimed by this processor: its latches, the interrupt lines it is mapped to,
      its data registers, whether a callback is installed, and the flag its ACK callback sets. */
  datatype Mbox = Mbox(valid: bool, rcv: bool, ack: bool, lines: set<nat>, data: seq<int>, callback: bool,
                       txAcked: bool) {
    predicate Raised(event: Event) { if event == EventA then rcv else ack }

    /** The two tests of the interrupt routine. */
    predicate Selected(event: Event, line: nat) { valid && Raised(event) && line in lines }

    /** The mailbox after its instance handler ran. */
    function Served(event: Event): Mbox
    {
      match event
      case EventA => if callback then this.(rcv := false, ack := true) else this.(rcv := false)
      case EventB => if callback then this.(ack := false, txAcked := true) else this.(ack := false)
    }
  }

  /** Interrupt line of event A or B of interrupt index `i`. */
  function Line(event: Event, i: nat): nat { if event == EventA then 2 * i else 2 * i + 1 }

  /** Mailboxes served, in the order of the array, and the messages their callbacks read. */
  function ServeAll(boxes: seq<Mbox>, event: Event, line: nat): (r: seq<Mbox>)
    ensures |r| == |boxes|
    ensures forall i | 0 <= i < |boxes| :: r[i] == Outcome(boxes[i], event, line)
  {
    seq(|boxes|, i requires 0 <= i < |boxes| => Outcome(boxes[i], event, line))
  }

  function Outcome(b: Mbox, event: Event, line: nat): Mbox
  {
    if b.Selected(event, line) then b.Served(event) else b
  }

  function ReadBy(boxes: seq<Mbox>, event: Event, line: nat): seq<seq<int>>
  {
    if |boxes| == 0 then []
    else
      var b := boxes[|boxes| - 1];
      ReadBy(boxes[..|boxes| - 1], event, line)
      + (if event == EventA && b.Selected(event, line) && b.callback then [b.data] else [])
  }

  /** A second interrupt for the same event finds nothing left to serve. */
  lemma ServedOnce(boxes: seq<Mbox>, event: Event, line: nat)
    ensures forall i | 0 <= i < |boxes| :: !ServeAll(boxes, event, line)[i].Selected(event, line)
    ensures ServeAll(ServeAll(boxes, event, line), event, line) == ServeAll(boxes, event, line)
  {
  }

  /** After an interrupt every message that was taken is acknowledged, every acknowledgement
      that was taken is noted, and the event served is down; data stay. */
  lemma Answered(boxes: seq<Mbox>, event: Event, line: nat, i: nat)
    requires i < |boxes| && boxes[i].Selected(event, line)
    ensures var b := ServeAll(boxes, event, line)[i];
            && !b.Raised(event) && b.data == boxes[i].data
            && (event == EventA ==> b.ack == (boxes[i].callback || boxes[i].ack) && b.txAcked == boxes[i].txAcked)
            && (event == EventB ==> b.txAcked == (boxes[i].callback || boxes[i].txAcked) && b.rcv == boxes[i].rcv)
  {
  }

  /** Register accesses of the RCV handler, in the order it makes them. */
  function RcvSteps(s: State, n: nat): State
    requires |s.data| == DATA_REGS
    decreases n
  {
    if n == 0 then s else RcvSteps(RcvStep(s, false), n - 1)
  }

  /** The mailbox of a handshake state. */
  predicate Shows(s: State, b: Mbox)
  {
    s.data == b.data && s.rcv == b.rcv && s.ack == b.ack && s.txAcked == b.txAcked
  }

  lemma {:induction false} ReadSteps(s: State, i: nat)
    requires |s.data| == DATA_REGS && i < DATA_REGS && s.rpc == Read(i) && s.buf == s.data[..i]
    ensures RcvSteps(s, DATA_REGS - i) == s.(rpc := ClearRcv, buf := s.data)
    decreases DATA_REGS - i
  {
    var next := RcvStep(s, false);
    assert next.buf == s.data[..i + 1];
    if i < DATA_REGS - 1 {
      ReadSteps(next, i + 1);
    } else {
      assert s.data[..DATA_REGS] == s.data;
      assert RcvSteps(next, 0) == next;
    }
  }

  lemma {:induction false} StepsSplit(s: State, m: nat, n: nat)
    requires |s.data| == DATA_REGS
    ensures |RcvSteps(s, m).data| == DATA_REGS && RcvSteps(s, m + n) == RcvSteps(RcvSteps(s, m), n)
    decreases m
  {
    if m > 0 {
      StepsSplit(RcvStep(s, false), m - 1, n);
    }
  }

  /** Serving event A is the RCV handler of the handshake run to its end: cause read, sixteen
      data registers read, RCV cleared, ACK raised, message queued. */
  lemma ServedIsHandler(b: Mbox, s: State)
    requires |s.data| == DATA_REGS && Shows(s, b) && b.callback && b.rcv && s.rpc == RcvCause
    ensures var t := RcvSteps(s, DATA_REGS + 4);
            Shows(t, b.Served(EventA)) && t.queued == s.queued + [b.data] && t.rpc == Waiting
  {
    var s1 := RcvStep(s, false);
    ReadSteps(s1, 0);
    StepsSplit(s1, DATA_REGS, 3);
    var s2 := s1.(rpc := ClearRcv, buf := s.data);
    ThreeSteps(s2);
  }

  lemma ThreeSteps(s: State)
    requires |s.data| == DATA_REGS && s.rpc == ClearRcv
    ensures RcvSteps(s, 3) == s.(rcv := false, ack := true, queued := s.queued + [s.buf], rpc := Waiting)
  {
    var s1 := RcvStep(s, false);
    var s2 := RcvStep(s1, false);
    assert RcvSteps(s, 3) == RcvSteps(s1, 2) == RcvSteps(s2, 1) == RcvSteps(RcvStep(s2, false), 0);
  }

  /** Serving event B is the ACK handler from its cause read to its end. */
  lemma ServedIsAckHandler(b: Mbox, s: State)
    requires Shows(s, b) && b.callback && b.ack && s.isr == AckCause
    ensures var t := AckStep(AckStep(AckStep(s))); Shows(t, b.Served(EventB)) && t.isr == NoIsr
  {
  }

  /** A mailbox claimed for one event and interrupt index (drivers/mailbox.c:173-186) is left
      alone by every other interrupt. */
  lemma OtherLinesApart(boxes: seq<Mbox>, m: nat, event: Event, i: nat, f: Event, j: nat)
    requires m < |boxes| && boxes[m].lines == {Line(f, j)}
    ensures ServeAll(boxes, event, Line(event, i))[m] != boxes[m] ==> event == f && i == j
    ensures Line(event, i) == Line(f, j) <==> event == f && i == j
  {
  }

  /** Mailbox `m` with other data. */
  function WithData(boxes: seq<Mbox>, m: nat, data: seq<int>): (r: seq<Mbox>)
    requires m < |boxes|
    ensures |r| == |boxes|
  {
    boxes[m := boxes[m].(data := data)]
  }

  lemma DataSet(boxes: seq<Mbox>, m: nat, d: seq<int>, e: seq<int>)
    requires m < |boxes|
    ensures WithData(WithData(boxes, m, d), m, e) == WithData(boxes, m, e)
    ensures WithData(boxes, m, e)[m].data == e && (boxes[m].data == d ==> WithData(boxes, m, d) == boxes)
  {
  }

  lemma IsPadded(words: seq<int>, d: seq<int>)
    requires |words| <= DATA_REGS && |d| == DATA_REGS && d[..|words|] == words
    requires forall k | |words| <= k < DATA_REGS :: d[k] == 0
    ensures d == Padded(words)
  {
  }

  class Controller {
    const boxes: array<Mbox>
    var queue: seq<seq<int>>

    ghost predicate Valid()
      reads boxes
    {
      boxes.Length == MAX_MBOXES && forall i | 0 <= i < MAX_MBOXES :: |boxes[i].data| == DATA_REGS
    }

    /** One data register written. */
    method WriteReg(m: nat, i: nat, x: int)
      requires Valid() && m < MAX_MBOXES && i < DATA_REGS
      modifies boxes
      ensures Valid() && boxes[..] == WithData(old(boxes[..]), m, old(boxes[m].data)[i := x])
    {
      boxes[m] := boxes[m].(data := boxes[m].data[i := x]);
    }

    /** `mbox_send`: `sz` bytes, given as words, then zeros in the remaining registers. */
    method Send(m: nat, words: seq<int>, sz: nat) returns (n: nat)
      requires Valid() && m < MAX_MBOXES && sz <= 4 * DATA_REGS && |words| == (sz + 3) / 4
      modifies boxes
      ensures n == sz && Valid() && boxes[..] == WithData(old(boxes[..]), m, Padded(words))
    {
      hide Padded, WithData;
      var len := sz / 4;
      if sz % 4 != 0 {
        len := len + 1;
      }
      ghost var before, d := boxes[..], boxes[m].data;
      DataSet(before, m, d, d);
      var i := 0;
      while i < len
        invariant 0 <= i <= len && |d| == DATA_REGS && d[..i] == words[..i]
        invariant Valid() && boxes[..] == WithData(before, m, d) && boxes[m].data == d
      {
        DataSet(before, m, d, d[i := words[i]]);
        WriteReg(m, i, words[i]);
        d := d[i := words[i]];
        i := i + 1;
      }
      while i < DATA_REGS
        invariant len <= i <= DATA_REGS && |d| == DATA_REGS && d[..len] == words && forall k | len <= k < i :: d[k] == 0
        invariant Valid() && boxes[..] == WithData(before, m, d) && boxes[m].data == d
      {
        DataSet(before, m, d, d[i := 0]);
        WriteReg(m, i, 0);
        d := d[i := 0];
        i := i + 1;
      }
      IsPadded(words, d);
      n := sz;
    }

    /** `mbox_read`: as many whole registers as the buffer has room for. */
    method Read(m: nat, sz: nat) returns (msg: seq<int>, n: nat)
      requires Valid() && m < MAX_MBOXES
      ensures var k := if (sz + 3) / 4 < DATA_REGS then (sz + 3) / 4 else DATA_REGS;
              msg == boxes[m].data[..k] && n == 4 * k
    {
      var len := sz / 4;
      if sz % 4 != 0 {
        len := len + 1;
      }
      var i := 0;
      msg := [];
      while i < len && i < DATA_REGS
        invariant 0 <= i <= len && i <= DATA_REGS && msg == boxes[m].data[..i]
      {
        msg := msg + [boxes[m].data[i]];
        i := i + 1;
      }
      n := i * 4;
    }

    /** `mbox_instance_rcv_isr` with `handle_cmd`, `mbox_instance_ack_isr` with `handle_ack`. */
    method Serve(m: nat, event: Event)
      requires Valid() && m < MAX_MBOXES
      modifies this`queue, boxes
      ensures Valid() && boxes[..] == old(boxes[..])[m := old(boxes[m]).Served(event)]
      ensures queue == old(queue) + (if event == EventA && old(boxes[m]).callback then [old(boxes[m]).data] else [])
    {
      var b := boxes[m];
      match event
      case EventA =>
        if b.callback {
          var msg, n := Read(m, 4 * DATA_REGS);
          assert msg == b.data;
          boxes[m] := boxes[m].(rcv := false);
          boxes[m] := boxes[m].(ack := true);
          queue := queue + [msg];
        } else {
          boxes[m] := boxes[m].(rcv := false);
        }
      case EventB =>
        if b.callback {
          boxes[m] := boxes[m].(txAcked := true);
        }
        boxes[m] := boxes[m].(ack := false);
    }

    /** `mbox_isr`: every claimed mailbox with the event raised and mapped to the line is served
        once, in order; no other changes. */
    method Isr(event: Event, line: nat) returns (handled: bool)
      requires Valid()
      modifies this`queue, boxes
      ensures Valid() && boxes[..] == ServeAll(old(boxes[..]), event, line)
      ensures queue == old(queue) + ReadBy(old(boxes[..]), event, line)
      ensures handled <==> exists i :: 0 <= i < MAX_MBOXES && old(boxes[..])[i].Selected(event, line)
    {
      hide Mbox.Served, ServeAll, ReadBy;
      handled := false;
      ghost var before := boxes[..];
      NoneServed(event, line);
      for i := 0 to MAX_MBOXES
        invariant Valid() && boxes[..i] == ServeAll(before[..i], event, line) && boxes[i..] == before[i..]
        invariant queue == old(queue) + ReadBy(before[..i], event, line)
        invariant handled <==> exists k :: 0 <= k < i && before[k].Selected(event, line)
      {
        OneMoreServed(before, event, line, i);
        ghost var now := boxes[..];
        assert now[i] == before[i];
        if boxes[i].valid && boxes[i].Raised(event) && line in boxes[i].lines {
          handled := true;
          Serve(i, event);
        }
        assert boxes[..] == now[i := Outcome(before[i], event, line)];
        assert boxes[..i + 1] == now[..i] + [Outcome(before[i], event, line)];
      }
      assert before[..MAX_MBOXES] == before;
    }

    /** `mbox_rcv_isr` and `mbox_ack_isr`: one interrupt line each. */
    method RcvIsr(intIdx: nat) returns (handled: bool)
      requires Valid()
      modifies this`queue, boxes
      ensures Valid() && boxes[..] == ServeAll(old(boxes[..]), EventA, Line(EventA, intIdx))
      ensures queue == old(queue) + ReadBy(old(boxes[..]), EventA, Line(EventA, intIdx))
    {
      handled := Isr(EventA, 2 * intIdx);
    }

    method AckIsr(intIdx: nat) returns (handled: bool)
      requires Valid()
      modifies this`queue, boxes
      ensures Valid() && boxes[..] == ServeAll(old(boxes[..]), EventB, Line(EventB, intIdx))
      ensures queue == old(queue) + ReadBy(old(boxes[..]), EventB, Line(EventB, intIdx))
    {
      handled := Isr(EventB, 2 * intIdx + 1);
    }
  }

  lemma NoneServed(event: Event, line: nat)
    ensures ServeAll([], event, line) == [] && ReadBy([], event, line) == []
  {
  }

  lemma OneMoreServed(boxes: seq<Mbox>, event: Event, line: nat, i: nat)
    requires i < |boxes|
    ensures ServeAll(boxes[..i + 1], event, line)
            == ServeAll(boxes[..i], event, line) + [Outcome(boxes[i], event, line)]
    ensures ReadBy(boxes[..i + 1], event, line) ==
            ReadBy(boxes[..i], event, line)
            + (if event == EventA && boxes[i].Selected(event, line) && boxes[i].callback then [boxes[i].data] else [])
  {
    assert boxes[..i + 1][..i] == boxes[..i];
  }
}
