/** The shared region of lib/shmem.c: the data area and the status word, and the calls of
    lib/shmem-link.c on it as one processor runs them undisturbed. */
module Shmem {
  import opened Words
  import opened ShmemLink

  class Region {
    const data: array<u8>
    var status: bv32

    ghost predicate Valid()
    {
      data.Length == MSG_SIZE
    }

    constructor ()
      ensures Valid() && fresh(data) && status == 0
    {
      data := new u8[MSG_SIZE](i => 0);
      status := 0;
    }

    /** `shmem_send`: whole words, then single bytes, then zeros up to the end. */
    method Send(msg: seq<u8>) returns (sz: nat)
      requires Valid() && |msg| <= MSG_SIZE
      modifies data
      ensures sz == |msg| && data[..] == Padded(msg)
    {
      var j := 0;
      while |msg| - j >= 4
        invariant 0 <= j <= |msg| && j % 4 == 0 && data[..j] == msg[..j]
      {
        data[j], data[j + 1], data[j + 2], data[j + 3] := msg[j], msg[j + 1], msg[j + 2], msg[j + 3];
        j := j + 4;
      }
      while j < |msg|
        invariant 0 <= j <= |msg| && data[..j] == msg[..j]
      {
        data[j] := msg[j];
        j := j + 1;
      }
      while j < MSG_SIZE
        invariant |msg| <= j <= MSG_SIZE && data[..|msg|] == msg && forall k | |msg| <= k < j :: data[k] == 0
      {
        data[j] := 0;
        j := j + 1;
      }
      sz := |msg|;
    }

    /** `shmem_recv`: the whole data area, word by word. */
    method Recv(msg: array<u8>) returns (sz: nat)
      requires Valid() && msg.Length >= MSG_SIZE && msg != data
      modifies msg
      ensures sz == MSG_SIZE && msg[..MSG_SIZE] == data[..] && msg[MSG_SIZE..] == old(msg[MSG_SIZE..])
    {
      var j := 0;
      while MSG_SIZE - j >= 4
        invariant 0 <= j <= MSG_SIZE && j % 4 == 0 && msg[..j] == data[..j] && msg[MSG_SIZE..] == old(msg[MSG_SIZE..])
      {
        msg[j], msg[j + 1], msg[j + 2], msg[j + 3] := data[j], data[j + 1], data[j + 2], data[j + 3];
        j := j + 4;
      }
      sz := MSG_SIZE;
    }

    predicate IsNew() reads this { status & NEW != 0 }
    predicate IsAck() reads this { status & ACK != 0 }

    method SetNew(val: bool)
      modifies this
      ensures IsNew() == val && IsAck() == old(IsAck())
      ensures status & !NEW == old(status) & !NEW
    {
      if val {
        status := status | NEW;
      } else {
        status := status & !NEW;
      }
    }

    method SetAck(val: bool)
      modifies this
      ensures IsAck() == val && IsNew() == old(IsNew())
      ensures status & !ACK == old(status) & !ACK
    {
      if val {
        status := status | ACK;
      } else {
        status := status & !ACK;
      }
    }
  }

  /** What `shmem_link_send` does before it waits. */
  method Post(out: Region, buf: seq<u8>) returns (rc: nat)
    requires out.Valid() && |buf| <= MSG_SIZE
    modifies out, out.data
    ensures rc == |buf| && out.data[..] == Padded(buf) && out.IsNew() && out.IsAck() == old(out.IsAck())
  {
    rc := out.Send(buf);
    out.SetNew(true);
  }

  /** `shmem_link_recv`: nothing unless NEW; otherwise the message, NEW cleared, ACK set. */
  method Take(inward: Region, buf: array<u8>) returns (rc: nat)
    requires inward.Valid() && buf.Length >= MSG_SIZE && buf != inward.data
    modifies inward, buf
    ensures inward.data[..] == old(inward.data[..])
    ensures !old(inward.IsNew()) ==> rc == 0 && inward.status == old(inward.status) && buf[..] == old(buf[..])
    ensures old(inward.IsNew()) ==>
      rc == MSG_SIZE && buf[..MSG_SIZE] == inward.data[..] && !inward.IsNew() && inward.IsAck()
  {
    if inward.IsNew() {
      rc := inward.Recv(buf);
      inward.SetNew(false);
      inward.SetAck(true);
      return rc;
    }
    rc := 0;
  }

  /** Undisturbed, a message posted is the message taken, with zeros behind it. */
  method PostThenTake(link: Region, msg: seq<u8>, buf: array<u8>) returns (rc: nat)
    requires link.Valid() && |msg| <= MSG_SIZE && buf.Length >= MSG_SIZE && buf != link.data
    modifies link, link.data, buf
    ensures rc == MSG_SIZE && buf[..MSG_SIZE] == Padded(msg) && !link.IsNew() && link.IsAck()
  {
    var sz := Post(link, msg);
    rc := Take(link, buf);
  }
}
