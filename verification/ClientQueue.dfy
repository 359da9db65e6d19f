/** The per-client queue of fixed-length records, shared by the server and one client thread. */
module ClientQueue {
  import opened Bytes
  import opened FrameV2

  const RECORD_SIZE: nat := 1120

  // ------------------------------------------------------- the channel as a value

  /** struct nbspq_st: the stored records, the counter and the status flags. */
  datatype Channel = Channel(records: seq<seq<byte>>, n: nat, soft: bool, hard: bool, dberror: bool)

  datatype Limits = Limits(soft: int, hard: int)

  const EMPTY := Channel([], 0, false, false, false)

  predicate Reached(n: nat, limit: int) {
    limit > 0 && n >= limit
  }

  /** nbspqt_snd(): 0, 1 soft limit reached, 2 refused at the hard limit, -1 the data base failed. */
  function Snd(c: Channel, lim: Limits, record: seq<byte>, putOk: bool): (Channel, int) {
    if Reached(c.n, lim.hard) then (c.(hard := true), 2)
    else if !putOk then (c.(hard := false, dberror := true), -1)
    else
      var soft := Reached(c.n + 1, lim.soft);
      (Channel(c.records + [record], c.n + 1, soft, false, false), if soft then 1 else 0)
  }

  /** nbspqt_rcv() came back: with a record, a time-out (1) or an error (-1, or the truncate's own). */
  datatype Received = Got(record: seq<byte>) | NoRecord(status: int) | Lost(status: int)

  /**
   nbspqt_rcv(). A queue found empty gives a time-out or a wait error. The truncate that follows the
   last record may fail after the record is already consumed.
   */
  function Rcv(c: Channel, waitStatus: int, getOk: bool, truncateStatus: int): (Channel, Received) {
    if c.n == 0 || c.records == [] then (c, NoRecord(if waitStatus == 1 then 1 else -1))
    else if !getOk then (c, NoRecord(-1))
    else
      var c' := c.(records := c.records[1..], n := c.n - 1);
      if c'.n == 0 && truncateStatus != 0 then (c'.(records := []), Lost(truncateStatus))
      else (if c'.n == 0 then c'.(records := []) else c', Got(c.records[0]))
  }

  // ------------------------------------------------------------ accounting over runs

  datatype Op =
    | DoSnd(record: seq<byte>, putOk: bool)
    | DoRcv(waitStatus: int, getOk: bool, truncateStatus: int)

  /** A channel with the history of what was accepted, what left it, and the last send's status. */
  datatype Log = Log(chan: Channel, accepted: seq<seq<byte>>, left: seq<seq<byte>>, lastSnd: int)

  function StepLog(l: Log, lim: Limits, op: Op): Log {
    match op
    case DoSnd(record, putOk) =>
      var (c, status) := Snd(l.chan, lim, record, putOk);
      Log(c, if status == 0 || status == 1 then l.accepted + [record] else l.accepted, l.left, status)
    case DoRcv(w, g, t) =>
      var (c, r) := Rcv(l.chan, w, g, t);
      var nothing := r.NoRecord? || l.chan.records == [];
      Log(c, l.accepted, if nothing then l.left else l.left + [l.chan.records[0]], l.lastSnd)
  }

  function RunLog(lim: Limits, ops: seq<Op>): Log {
    if ops == [] then Log(EMPTY, [], [], 0)
    else StepLog(RunLog(lim, ops[..|ops| - 1]), lim, ops[|ops| - 1])
  }

  /**
   Under every interleaving of sends and receives: the counter is the number of stored records and
   never passes a positive hard limit, records leave in the order in which they were accepted, none
   lost in between, and the hard flag says exactly whether the last send was refused.
   */
  lemma {:induction false} Accounting(lim: Limits, ops: seq<Op>)
    ensures var l := RunLog(lim, ops);
            && l.chan.n == |l.chan.records|
            && (lim.hard > 0 ==> l.chan.n <= lim.hard)
            && l.accepted == l.left + l.chan.records
            && (l.chan.hard <==> l.lastSnd == 2)
  {
    if ops != [] {
      var before, op := RunLog(lim, ops[..|ops| - 1]), ops[|ops| - 1];
      Accounting(lim, ops[..|ops| - 1]);
      match op
      case DoSnd(record, putOk) =>
        assert before.left + (before.chan.records + [record]) == before.left + before.chan.records + [record];
      case DoRcv(w, g, t) =>
        var records := before.chan.records;
        if records != [] {
          assert records == [records[0]] + records[1..];
          assert before.left + records == before.left + [records[0]] + records[1..];
        }
    }
  }

  // ----------------------------------------------------------------------- records

  /** The data base pads short records with blanks. */
  function Padded(frame: seq<byte>): (r: seq<byte>)
    requires |frame| <= RECORD_SIZE
    ensures |r| == RECORD_SIZE
  {
    frame + Fill(32, RECORD_SIZE - |frame|)
  }

  /** The payload a client thread takes from a record. */
  function PayloadOf(record: seq<byte>): seq<byte>
    requires |record| >= 4
  {
    var size := Unpack(record);
    if 4 + size <= |record| then record[4..4 + size] else record[4..]
  }

  /** Framing, padding and unframing give the payload back. */
  lemma PayloadOfPadded(payload: seq<byte>)
    requires |payload| <= 1116
    ensures PayloadOf(Padded(Envelope(payload))) == payload
  {
    hide Unpack, Pack;
    var e := Envelope(payload);
    UnpackOfEnvelope(payload);
    UnpackOfPrefix(e, Padded(e));
    assert Padded(e)[4..4 + |payload|] == payload;
  }

  lemma UnpackOfPrefix(s: seq<byte>, t: seq<byte>)
    requires 4 <= |s| && s <= t
    ensures Unpack(s) == Unpack(t)
  {
    assert s[0] == t[0] && s[1] == t[1] && s[2] == t[2] && s[3] == t[3];
  }

  // --------------------------------------------------------------------- the program

  /** A table with one channel, as each client has. */
  class QueueTable {
    var records: seq<seq<byte>>
    var n: nat
    var soft: bool
    var hard: bool
    var dberror: bool
    const limits: Limits

    constructor (limits: Limits)
      ensures this.limits == limits && Contents() == EMPTY
    {
      this.limits := limits;
      records, n, soft, hard, dberror := [], 0, false, false, false;
    }

    function Contents(): Channel
      reads this
    {
      Channel(records, n, soft, hard, dberror)
    }

    method Send(record: seq<byte>, putOk: bool) returns (status: int)
      modifies this
      ensures (Contents(), status) == Snd(old(Contents()), limits, record, putOk)
    {
      status := 0;
      var count := n;
      if limits.hard > 0 && count >= limits.hard {
        status := 2;
      }
      if status == 0 {
        hard := false;
        if putOk {
          records := records + [record];
          n := n + 1;
        } else {
          status := -1;
        }
      }
      if status == 0 {
        dberror := false;
        if limits.soft > 0 && count + 1 >= limits.soft {
          status := 1;
        }
      }
      if status == 0 {
        soft := false;
      } else if status == -1 {
        dberror := true;
      } else if status == 1 {
        soft := true;
      } else if status == 2 {
        hard := true;
      }
    }

    method Receive(waitStatus: int, getOk: bool, truncateStatus: int) returns (r: Received)
      requires n == |records|
      modifies this
      ensures (Contents(), r) == Rcv(old(Contents()), waitStatus, getOk, truncateStatus)
    {
      if n == 0 {
        return NoRecord(if waitStatus == 1 then 1 else -1);
      }
      if !getOk {
        return NoRecord(-1);
      }
      var record := records[0];
      records := records[1..];
      n := n - 1;
      if n == 0 {
        records := [];
        if truncateStatus != 0 {
          return Lost(truncateStatus);
        }
      }
      return Got(record);
    }
  }
}
