/**
 The spool: the daemon saves arriving blocks as files named by a sequence-number key, and the
 queue runner joins them. A temporary queue file exists for each product being received and a
 queue record for each product that has seen its last block.
 */
module Spool {
  import opened Bytes

  type Name = seq<byte>

  /** One decoded block handed to save_emwin_packet. */
  datatype Arrival = Arrival(name: Name, blockno: int, numblocks: int, data: seq<byte>)

  /** struct emwin_file_qinfo, kept in the temporary queue file. */
  datatype QInfo = QInfo(key: int, numblocks: int, rcvblocks: nat)

  /** A line of the queue file; the numbers are in the order in which they are written. */
  datatype QRecord = QRecord(key: int, number1: int, number2: nat)

  datatype State = State(key: int,                           // the static key counter
                         open: map<Name, QInfo>,             // qfiles/<name>.t
                         blocks: map<(int, int), seq<byte>>, // data/<key>.<block>
                         queued: map<Name, QRecord>)         // qfiles/<name>.q

  // -------------------------------------------------------------------- keys

  const KEY_FIRST: int := 123456
  const KEY_LAST: int := 923456
  const KEY_COUNT: int := 800001

  function NextKey(key: int): int {
    if key == KEY_LAST then KEY_FIRST else key + 1
  }

  /** The key handed out by the n-th call. */
  function KeyAfter(key: int, n: nat): int {
    if n == 0 then key else NextKey(KeyAfter(key, n - 1))
  }

  ghost function IssuedKeys(key: int, n: nat): set<int> {
    if n == 0 then {} else IssuedKeys(key, n - 1) + {KeyAfter(key, n)}
  }

  lemma {:induction false} KeyClosedForm(key: int, n: nat)
    requires KEY_FIRST <= key <= KEY_LAST
    ensures KeyAfter(key, n) == KEY_FIRST + (key - KEY_FIRST + n) % KEY_COUNT
  {
    if n > 0 { KeyClosedForm(key, n - 1); }
  }

  lemma ModDifference(x: int, y: int)
    ensures x % KEY_COUNT == y % KEY_COUNT <==> (y - x) % KEY_COUNT == 0
  {
    var qx, rx, qy, ry := x / KEY_COUNT, x % KEY_COUNT, y / KEY_COUNT, y % KEY_COUNT;
    var q, r := (y - x) / KEY_COUNT, (y - x) % KEY_COUNT;
    assert KEY_COUNT * (q + qx - qy) == ry - rx - r;
  }

  /** Two calls hand out the same key exactly when their distance is a multiple of 800001. */
  lemma SameKey(key: int, i: nat, j: nat)
    requires KEY_FIRST <= key <= KEY_LAST
    ensures KeyAfter(key, i) == KeyAfter(key, j) <==> (j - i) % KEY_COUNT == 0
  {
    hide KeyAfter;
    KeyClosedForm(key, i);
    KeyClosedForm(key, j);
    ModDifference(key - KEY_FIRST + i, key - KEY_FIRST + j);
  }

  lemma {:induction false} KeyFresh(key: int, n: nat, later: nat)
    requires KEY_FIRST <= key <= KEY_LAST
    requires n < later <= KEY_COUNT
    ensures KeyAfter(key, later) !in IssuedKeys(key, n)
  {
    if n > 0 {
      KeyFresh(key, n - 1, later);
      SameKey(key, n, later);
    }
  }

  // ------------------------------------------------- saving and joining blocks

  function Save(s: State, a: Arrival): State {
    if a.blockno != 1 && a.name !in s.open then
      s // not being received: dropped
    else
      var key := if a.blockno == 1 then NextKey(s.key) else s.key;
      var q := if a.blockno == 1 then QInfo(key, a.numblocks, 0) else s.open[a.name];
      var blocks := s.blocks[(q.key, a.blockno) := a.data];
      if a.blockno == a.numblocks then
        State(key, s.open - {a.name}, blocks,
              s.queued[a.name := QRecord(q.key, q.numblocks, q.rcvblocks + 1)])
      else
        State(key, s.open[a.name := q.(rcvblocks := q.rcvblocks + 1)], blocks, s.queued)
  }

  predicate AllPresent(blocks: map<(int, int), seq<byte>>, key: int, n: nat) {
    forall i :: 1 <= i <= n ==> (key, i) in blocks
  }

  function Joined(blocks: map<(int, int), seq<byte>>, key: int, n: nat): seq<byte>
    requires AllPresent(blocks, key, n)
  {
    if n == 0 then [] else Joined(blocks, key, n - 1) + blocks[(key, n)]
  }

  function WithoutBlocks(blocks: map<(int, int), seq<byte>>, key: int, n: nat): map<(int, int), seq<byte>> {
    map kb | kb in blocks && !(kb.0 == key && 1 <= kb.1 <= n) :: blocks[kb]
  }

  /**
   One turn of the queue runner. It takes the second number of the record for the number of
   parts, although the daemon wrote the received count there.
   */
  function Process(s: State, name: Name): (State, Option<seq<byte>>) {
    if name !in s.queued then (s, None) else
    var rec := s.queued[name];
    var numparts := rec.number2;
    var s' := s.(queued := s.queued - {name});
    if AllPresent(s.blocks, rec.key, numparts) then
      (s'.(blocks := WithoutBlocks(s.blocks, rec.key, numparts)), Some(Joined(s.blocks, rec.key, numparts)))
    else
      (s', None)
  }

  /** An arrival, or a turn of the queue runner on one queue record. */
  datatype Event = Arrive(arrival: Arrival) | RunRecord(name: Name)

  function Step(s: State, e: Event): State {
    match e
    case Arrive(a) => Save(s, a)
    case RunRecord(name) => Process(s, name).0
  }

  function Run(s: State, events: seq<Event>): State {
    if events == [] then s else Step(Run(s, events[..|events| - 1]), events[|events| - 1])
  }

  function Empty(key: int): State {
    State(key, map[], map[], map[])
  }

  // --------------------------------------------------------------- the program

  class SpoolDirectory {
    var key: int
    var open: map<Name, QInfo>
    var blocks: map<(int, int), seq<byte>>
    var queued: map<Name, QRecord>

    constructor ()
      ensures Contents() == Empty(KEY_FIRST)
    {
      key, open, blocks, queued := KEY_FIRST, map[], map[], map[];
    }

    function Contents(): State
      reads this
    {
      State(key, open, blocks, queued)
    }

    method GetSeqnumKey() returns (k: int)
      modifies this`key
      ensures key == k == NextKey(old(key))
    {
      if key == KEY_LAST {
        key := KEY_FIRST;
      } else {
        key := key + 1;
      }
      k := key;
    }

    method SavePacket(a: Arrival)
      modifies this
      ensures Contents() == Save(old(Contents()), a)
    {
      var qinfo: QInfo;
      if a.blockno != 1 {
        if a.name !in open {
          return;
        }
        qinfo := open[a.name];
      } else {
        var k := GetSeqnumKey();
        qinfo := QInfo(k, a.numblocks, 0);
      }
      blocks := blocks[(qinfo.key, a.blockno) := a.data];
      qinfo := qinfo.(rcvblocks := qinfo.rcvblocks + 1);
      open := open[a.name := qinfo];
      if a.blockno == a.numblocks {
        open := open - {a.name};
        queued := queued[a.name := QRecord(qinfo.key, qinfo.numblocks, qinfo.rcvblocks)];
      }
      assert Contents() == Save(old(Contents()), a);
    }

    /** The body of the queue runner's loop up to the move of the joined file. */
    method RunRecord(name: Name) returns (file: Option<seq<byte>>)
      modifies this
      ensures (Contents(), file) == Process(old(Contents()), name)
    {
      if name !in queued {
        return None;
      }
      var rec := queued[name];
      var seqnumkey, numparts := rec.key, rec.number2;
      queued := queued - {name};
      var i := 1;
      while i <= numparts
        invariant 1 <= i <= numparts + 1
        invariant forall j :: 1 <= j < i ==> (seqnumkey, j) in blocks
        invariant Contents() == old(Contents()).(queued := old(queued) - {name})
      {
        if (seqnumkey, i) !in blocks {
          return None;
        }
        i := i + 1;
      }
      var joined: seq<byte> := [];
      i := 1;
      while i <= numparts
        invariant 1 <= i <= numparts + 1
        invariant AllPresent(old(blocks), seqnumkey, i - 1) && joined == Joined(old(blocks), seqnumkey, i - 1)
        invariant blocks == WithoutBlocks(old(blocks), seqnumkey, i - 1)
        invariant Contents() == State(old(key), old(open), blocks, old(queued) - {name})
      {
        joined := joined + blocks[(seqnumkey, i)];
        blocks := blocks - {(seqnumkey, i)};
        i := i + 1;
      }
      return Some(joined);
    }
  }
}
