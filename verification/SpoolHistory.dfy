/** The queue runner's outcome read off the history of arrivals alone. */
module SpoolHistory {
  import opened Bytes
  import opened Spool
  import opened SpoolSessions

  ghost predicate FirstOf(e: Event, name: Name) {
    e.Arrive? && e.arrival.name == name && e.arrival.blockno == 1
  }

  ghost predicate LastOf(e: Event, name: Name) {
    e.Arrive? && e.arrival.name == name && e.arrival.blockno == e.arrival.numblocks
  }

  /** The blocks of one product, in order of arrival. */
  ghost function BlocksOf(events: seq<Event>, name: Name): seq<Arrival> {
    if events == [] then [] else
    var e := events[|events| - 1];
    BlocksOf(events[..|events| - 1], name) + (if e.Arrive? && e.arrival.name == name then [e.arrival] else [])
  }

  /** Event i starts a session of the product that is still being received. */
  ghost predicate OpenFrom(events: seq<Event>, name: Name, i: int) {
    && 0 <= i < |events| && FirstOf(events[i], name)
    && (forall k :: i < k < |events| ==> !FirstOf(events[k], name))
    && (forall k :: i <= k < |events| ==> !LastOf(events[k], name))
  }

  /** Event i starts a session of the product and event j ends it. */
  ghost predicate Session(events: seq<Event>, name: Name, i: int, j: int) {
    && 0 <= i <= j < |events| && FirstOf(events[i], name) && LastOf(events[j], name)
    && (forall k :: i < k <= j ==> !FirstOf(events[k], name))
    && (forall k :: i <= k < j ==> !LastOf(events[k], name))
  }

  /** ... and the queue runner has not come by since, nor has a later session ended. */
  ghost predicate Waiting(events: seq<Event>, name: Name, i: int, j: int) {
    && Session(events, name, i, j)
    && (forall k :: j < k < |events| ==> events[k] != RunRecord(name))
    && (forall i', j' :: j < j' ==> !Session(events, name, i', j'))
  }

  lemma SessionOfPrefix(events: seq<Event>, name: Name, i: int, j: int)
    requires events != [] && j < |events| - 1
    ensures Session(events[..|events| - 1], name, i, j) <==> Session(events, name, i, j)
  {
  }

  lemma ClosingSession(events: seq<Event>, name: Name, i: int)
    requires events != []
    ensures Session(events, name, i, |events| - 1) <==>
            && LastOf(events[|events| - 1], name)
            && (if FirstOf(events[|events| - 1], name) then i == |events| - 1
                else OpenFrom(events[..|events| - 1], name, i))
  {
    var before := events[..|events| - 1];
    assert forall k :: 0 <= k < |before| ==> before[k] == events[k];
  }

  lemma OpenStep(events: seq<Event>, name: Name, i: int)
    requires events != []
    ensures var e := events[|events| - 1];
            OpenFrom(events, name, i) <==>
            && !LastOf(e, name)
            && (if FirstOf(e, name) then i == |events| - 1 else OpenFrom(events[..|events| - 1], name, i))
  {
    var before := events[..|events| - 1];
    assert forall k :: 0 <= k < |before| ==> before[k] == events[k];
  }

  lemma BlocksOfSuffix(events: seq<Event>, name: Name, i: int)
    requires events != [] && 0 <= i <= |events| - 1
    ensures var e := events[|events| - 1];
            BlocksOf(events[i..], name)
            == BlocksOf(events[..|events| - 1][i..], name)
               + (if e.Arrive? && e.arrival.name == name then [e.arrival] else [])
  {
    assert events[i..][..|events[i..]| - 1] == events[..|events| - 1][i..];
  }

  /** What the reference spool holds for a product being received. */
  lemma {:induction false} OpenHistory(events: seq<Event>, name: Name)
    ensures name in RunRef(events).open <==> exists i :: OpenFrom(events, name, i)
    ensures forall i :: OpenFrom(events, name, i) ==>
              name in RunRef(events).open && RunRef(events).open[name] == BlocksOf(events[i..], name)
  {
    if events != [] {
      var before, e := events[..|events| - 1], events[|events| - 1];
      OpenHistory(before, name);
      var r, r' := RunRef(before), RunRef(events);
      forall i ensures OpenFrom(events, name, i) ==>
          name in r'.open && r'.open[name] == BlocksOf(events[i..], name)
      {
        if OpenFrom(events, name, i) {
          OpenStep(events, name, i);
          BlocksOfSuffix(events, name, i);
          if i == |before| {
            assert before[i..] == [];
          }
        }
      }
      if name in r'.open {
        if FirstOf(e, name) {
          OpenStep(events, name, |events| - 1);
        } else {
          var i :| OpenFrom(before, name, i);
          OpenStep(events, name, i);
        }
      }
    }
  }

  /** Whether the last event ends a session, and with which blocks. */
  lemma ClosingBlocks(events: seq<Event>, name: Name, i: int)
    requires Session(events, name, i, |events| - 1)
    ensures name in RunRef(events).queued && RunRef(events).queued[name] == BlocksOf(events[i..], name)
  {
    var before := events[..|events| - 1];
    ClosingSession(events, name, i);
    OpenHistory(before, name);
    BlocksOfSuffix(events, name, i);
    if i == |before| {
      assert before[i..] == [];
    }
  }

  /** The last event ends a session of the product. */
  ghost predicate Closes(events: seq<Event>, name: Name) {
    exists i, j :: j == |events| - 1 && Session(events, name, i, j)
  }

  lemma WaitingStep(events: seq<Event>, name: Name, i: int, j: int)
    requires events != [] && j < |events| - 1
    ensures Waiting(events, name, i, j) <==>
            && Waiting(events[..|events| - 1], name, i, j)
            && events[|events| - 1] != RunRecord(name)
            && !Closes(events, name)
  {
    var before := events[..|events| - 1];
    assert forall k :: 0 <= k < |before| ==> before[k] == events[k];
    SessionOfPrefix(events, name, i, j);
    forall i', j' | j' < |before| ensures Session(before, name, i', j') <==> Session(events, name, i', j') {
      SessionOfPrefix(events, name, i', j');
    }
    forall i', j' | j' >= |before| ensures !Session(before, name, i', j') {
    }
  }

  /** What the reference spool holds for a product waiting for the queue runner. */
  lemma {:induction false} QueuedHistory(events: seq<Event>, name: Name)
    ensures name in RunRef(events).queued <==> exists i, j :: Waiting(events, name, i, j)
    ensures forall i, j :: Waiting(events, name, i, j) ==>
              name in RunRef(events).queued && RunRef(events).queued[name] == BlocksOf(events[i..j + 1], name)
  {
    if events != [] {
      var before, e := events[..|events| - 1], events[|events| - 1];
      QueuedHistory(before, name);
      var r, r' := RunRef(before), RunRef(events);
      var n := |before|;
      if Closes(events, name) {
        var i, j :| j == n && Session(events, name, i, j);
        ClosingBlocks(events, name, i);
        assert Waiting(events, name, i, n);
        forall i', j' | Waiting(events, name, i', j') ensures r'.queued[name] == BlocksOf(events[i'..j' + 1], name) {
          ClosingSession(events, name, i');
          assert j' == n;
          ClosingBlocks(events, name, i');
          assert events[i'..j' + 1] == events[i'..];
        }
      } else {
        NotClosing(events, name);
        forall i, j ensures Waiting(events, name, i, j) <==> Waiting(before, name, i, j) && e != RunRecord(name) {
          if j < n { WaitingStep(events, name, i, j); }
        }
        forall i, j | Waiting(events, name, i, j)
          ensures name in r'.queued && r'.queued[name] == BlocksOf(events[i..j + 1], name)
        {
          assert Waiting(before, name, i, j);
          assert before[i..j + 1] == events[i..j + 1];
        }
        if name in r'.queued {
          var i, j :| Waiting(before, name, i, j);
          assert Waiting(events, name, i, j);
        }
      }
    }
  }

  /** An event that ends no session of the product leaves its queue record, unless it takes it. */
  lemma NotClosing(events: seq<Event>, name: Name)
    requires events != [] && !Closes(events, name)
    ensures var before, e := events[..|events| - 1], events[|events| - 1];
            var r, r' := RunRef(before), RunRef(events);
            && (name in r'.queued <==> name in r.queued && e != RunRecord(name))
            && (name in r'.queued ==> r'.queued[name] == r.queued[name])
  {
    var before, e := events[..|events| - 1], events[|events| - 1];
    OpenHistory(before, name);
    ClosingSession(events, name, |events| - 1);
    if name in RunRef(before).open {
      var i :| OpenFrom(before, name, i);
      ClosingSession(events, name, i);
    }
  }

  // --------------------------------------------------- the files of one session

  /** A session being received stays sound while the keys are good for its product. */
  lemma {:induction false} OpenSound(key: int, events: seq<Event>, name: Name, i: int, exact: bool)
    requires OpenFrom(events, name, i) && FreshFrom(key, events, name, i, exact)
    ensures Sound(Run(Empty(key), events), RunRef(events), OpenSlot(name), exact)
  {
    var before, e := events[..|events| - 1], events[|events| - 1];
    var s, r, x := Run(Empty(key), before), RunRef(before), OpenSlot(name);
    OpenStep(events, name, i);
    FreshStep(key, events, name, i, exact);
    if FirstOf(e, name) {
      FirstBlockSound(s, r, e.arrival, exact);
    } else {
      OpenSound(key, before, name, i, exact);
      OpenHistory(before, name);
      RunCounts(key, before);
      assert SlotCounted(s, r, x) && InUse(s, x);
      hide Sound, Counted;
      if e.Arrive? && e.arrival.name == name {
        LaterBlockSound(s, r, e.arrival, exact);
      } else {
        CarriedSound(s, r, e, x, exact);
      }
    }
  }

  lemma ClosingSound(key: int, events: seq<Event>, name: Name, i: int, exact: bool)
    requires Session(events, name, i, |events| - 1) && FreshFrom(key, events, name, i, exact)
    ensures Sound(Run(Empty(key), events), RunRef(events), QueueSlot(name), exact)
  {
    var before, e := events[..|events| - 1], events[|events| - 1];
    var s, r := Run(Empty(key), before), RunRef(before);
    FreshStep(key, events, name, i, exact);
    ClosingSession(events, name, i);
    if FirstOf(e, name) {
      FirstBlockSound(s, r, e.arrival, exact);
    } else {
      OpenSound(key, before, name, i, exact);
      OpenHistory(before, name);
      RunCounts(key, before);
      assert SlotCounted(s, r, OpenSlot(name));
      LaterBlockSound(s, r, e.arrival, exact);
    }
  }

  /** An ended session stays sound until its record is taken. */
  lemma {:induction false} QueueSound(key: int, events: seq<Event>, name: Name, i: int, j: int, exact: bool)
    requires Waiting(events, name, i, j) && FreshFrom(key, events, name, i, exact)
    ensures Sound(Run(Empty(key), events), RunRef(events), QueueSlot(name), exact)
  {
    var before, e := events[..|events| - 1], events[|events| - 1];
    var s, r, x := Run(Empty(key), before), RunRef(before), QueueSlot(name);
    if j == |before| {
      ClosingSound(key, events, name, i, exact);
    } else {
      WaitingStep(events, name, i, j);
      FreshStep(key, events, name, i, exact);
      QueueSound(key, before, name, i, j, exact);
      QueuedHistory(before, name);
      RunCounts(key, before);
      assert SlotCounted(s, r, x) && InUse(s, x);
      NotTaken(key, events, name);
      hide Sound, Counted, Waiting, FreshFrom, Closes, BlocksOf;
      CarriedSound(s, r, e, x, exact);
    }
  }

  /** A last block that ends no session is not saved. */
  lemma NotTaken(key: int, events: seq<Event>, name: Name)
    requires events != [] && !Closes(events, name)
    ensures var before, e := events[..|events| - 1], events[|events| - 1];
            e.Arrive? && Target(e.arrival) == QueueSlot(name) ==> !Saved(Run(Empty(key), before), e.arrival)
  {
    var before, e := events[..|events| - 1], events[|events| - 1];
    RunCounts(key, before);
    OpenHistory(before, name);
    assert SlotCounted(Run(Empty(key), before), RunRef(before), OpenSlot(name));
    ClosingSession(events, name, |events| - 1);
    if name in RunRef(before).open {
      var i :| OpenFrom(before, name, i);
      ClosingSession(events, name, i);
    }
  }

  /**
   A waiting session that holds each block number once is assembled, if since it began no key was issued
   to two sessions at a time; stale files do not matter.
   */
  lemma WholeOutcome(key: int, events: seq<Event>, name: Name, i: int, j: int)
    requires Waiting(events, name, i, j) && FreshFrom(key, events, name, i, false)
    requires Assembly(BlocksOf(events[i..j + 1], name)).Some?
    ensures Process(Run(Empty(key), events), name).1 == Assembly(BlocksOf(events[i..j + 1], name))
  {
    hide Process, Assembly, Sound, Counted, Run, FreshFrom;
    QueueSound(key, events, name, i, j, false);
    RunCounts(key, events);
    QueuedHistory(events, name);
    WholeIsAssembled(Run(Empty(key), events), RunRef(events), name);
  }

  /** What the queue runner makes of the latest session that ended and was not taken. */
  lemma WaitingOutcome(key: int, events: seq<Event>, name: Name, i: int, j: int)
    requires Waiting(events, name, i, j) && FreshFrom(key, events, name, i, true)
    ensures Process(Run(Empty(key), events), name).1 == Assembly(BlocksOf(events[i..j + 1], name))
  {
    hide Process, Assembly, Sound, Counted, Run, FreshFrom;
    QueueSound(key, events, name, i, j, true);
    RunCounts(key, events);
    ProcessIsAssembly(Run(Empty(key), events), RunRef(events), name);
    QueuedHistory(events, name);
  }

  /** Since the latest session of the product began, every key issued was good for it. */
  ghost predicate FreshSession(key: int, events: seq<Event>, name: Name) {
    forall i, j :: Waiting(events, name, i, j) ==> FreshFrom(key, events, name, i, true)
  }

  /**
   After any history, the queue runner assembles a file from the product's record if and only if the
   latest unprocessed session that ended holds each of the numbers 1..k exactly once, k being the number
   of blocks received in it; the file is then those blocks in order of their numbers. Only the keys
   issued since that session began matter.
   */
  lemma AssembledIff(key: int, events: seq<Event>, name: Name, file: seq<byte>)
    requires FreshSession(key, events, name)
    ensures Process(Run(Empty(key), events), name).1 == Some(file) <==>
            exists i, j :: Waiting(events, name, i, j) && Assembly(BlocksOf(events[i..j + 1], name)) == Some(file)
  {
    hide Assembly, FreshFrom;
    if i, j :| Waiting(events, name, i, j) {
      WaitingOutcome(key, events, name, i, j);
      forall i', j' | Waiting(events, name, i', j') ensures i' == i && j' == j {
        OneWaiting(events, name, i, j, i', j');
      }
    } else {
      RunCounts(key, events);
      QueuedHistory(events, name);
      assert SlotCounted(Run(Empty(key), events), RunRef(events), QueueSlot(name));
    }
  }

  lemma OneWaiting(events: seq<Event>, name: Name, i: int, j: int, i': int, j': int)
    requires Waiting(events, name, i, j) && Waiting(events, name, i', j')
    ensures i' == i && j' == j
  {
  }

  // ------------------------------------------------------------ consistent totals

  /** All blocks of the product say n and carry a number in 1..n. */
  ghost predicate Consistent(events: seq<Event>, name: Name, n: int) {
    forall k :: 0 <= k < |events| && events[k].Arrive? && events[k].arrival.name == name ==>
      events[k].arrival.numblocks == n && 1 <= events[k].arrival.blockno <= n
  }

  lemma {:induction false} BlocksAreEvents(events: seq<Event>, name: Name)
    ensures forall b :: b in BlocksOf(events, name) ==> b.name == name && Arrive(b) in events
    ensures forall k :: 0 <= k < |events| && events[k].Arrive? && events[k].arrival.name == name ==>
              events[k].arrival in BlocksOf(events, name)
  {
    if events != [] {
      BlocksAreEvents(events[..|events| - 1], name);
    }
  }

  lemma SessionNumbers(events: seq<Event>, name: Name, n: int, i: int, j: int)
    requires Consistent(events, name, n) && Session(events, name, i, j)
    ensures var nums := BlockNumbers(BlocksOf(events[i..j + 1], name));
            n in nums && forall k :: 0 <= k < |nums| ==> 1 <= nums[k] <= n
  {
    var part := events[i..j + 1];
    var bs := BlocksOf(part, name);
    var nums := BlockNumbers(bs);
    BlocksAreEvents(part, name);
    assert part[j - i] == events[j];
    var last :| 0 <= last < |bs| && bs[last] == events[j].arrival;
    assert nums[last] == n;
    forall k | 0 <= k < |bs| ensures 1 <= nums[k] <= n {
      assert bs[k] in bs;
      var m :| 0 <= m < |part| && part[m] == Arrive(bs[k]);
      assert events[i + m] == Arrive(bs[k]);
    }
  }

  /** With a constant number of blocks n, each number 1..n must have come exactly once. */
  lemma SessionNeedsAll(events: seq<Event>, name: Name, n: int, i: int, j: int)
    requires Consistent(events, name, n) && Session(events, name, i, j)
    ensures n >= 0
    ensures var bs := BlocksOf(events[i..j + 1], name);
            Assembly(bs).Some? <==> EachOnce(BlockNumbers(bs), n)
  {
    SessionNumbers(events, name, n, i, j);
    var nums := BlockNumbers(BlocksOf(events[i..j + 1], name));
    if EachOnce(nums, |nums|) {
      assert n <= |nums|;
      EachOnceCovers(nums);
      assert |nums| in nums;
    }
  }

  /** The completeness rule: each block 1..n saved exactly once since its last block 1. */
  lemma AssembledIffAllOnce(key: int, events: seq<Event>, name: Name, n: int)
    requires FreshSession(key, events, name) && Consistent(events, name, n)
    ensures Process(Run(Empty(key), events), name).1.Some? <==>
            && n >= 0
            && exists i, j :: Waiting(events, name, i, j) && EachOnce(BlockNumbers(BlocksOf(events[i..j + 1], name)), n)
  {
    hide Process, Run, Assembly, BlocksOf, EachOnce, Consistent, FreshSession;
    var out := Process(Run(Empty(key), events), name).1;
    if out.Some? {
      AssembledIff(key, events, name, out.value);
      var i, j :| Waiting(events, name, i, j) && Assembly(BlocksOf(events[i..j + 1], name)) == out;
      SessionNeedsAll(events, name, n, i, j);
    }
    if n >= 0 {
      if i, j :| Waiting(events, name, i, j) && EachOnce(BlockNumbers(BlocksOf(events[i..j + 1], name)), n) {
        SessionNeedsAll(events, name, n, i, j);
        AssembledIff(key, events, name, Assembly(BlocksOf(events[i..j + 1], name)).value);
      }
    }
  }

  // ------------------------------------------------------------- changing totals

  /** The numbers of the queue record: the total that the session's first block announced, and its length. */
  lemma RecordNumbers(key: int, events: seq<Event>, name: Name, i: int, j: int)
    requires Waiting(events, name, i, j)
    ensures var s, bs := Run(Empty(key), events), BlocksOf(events[i..j + 1], name);
            && name in s.queued && bs != []
            && s.queued[name].number1 == bs[0].numblocks && s.queued[name].number2 == |bs|
  {
    hide Run, BlocksOf;
    RunCounts(key, events);
    QueuedHistory(events, name);
    assert SlotCounted(Run(Empty(key), events), RunRef(events), QueueSlot(name));
  }

  /** Each of the blocks that the session's first block announced came exactly once. */
  ghost predicate AsAnnounced(bs: seq<Arrival>) {
    bs != [] && bs[0].numblocks >= 0 && EachOnce(BlockNumbers(bs), bs[0].numblocks)
  }

  /**
   The guard whose `continue` is commented out in the queue runner is exact: of the files that are
   assembled, those made of the announced blocks are the ones whose record has two equal numbers.
   */
  lemma GuardIsExact(key: int, events: seq<Event>, name: Name, i: int, j: int)
    requires Waiting(events, name, i, j) && FreshFrom(key, events, name, i, true)
    ensures var s, bs := Run(Empty(key), events), BlocksOf(events[i..j + 1], name);
            && name in s.queued
            && (AsAnnounced(bs) <==> Process(s, name).1.Some? && s.queued[name].number1 == s.queued[name].number2)
  {
    hide Run, BlocksOf, FreshFrom, Process;
    RecordNumbers(key, events, name, i, j);
    WaitingOutcome(key, events, name, i, j);
  }

  /** Without the guard a product can be assembled short: block 1 announces three blocks here. */
  lemma ShortAssembly(name: Name, x: seq<byte>, y: seq<byte>)
    ensures var s := Run(Empty(KEY_FIRST), [Arrive(Arrival(name, 1, 3, x)), Arrive(Arrival(name, 2, 2, y))]);
            && Process(s, name).1 == Some(x + y)
            && s.queued[name].number1 == 3 && s.queued[name].number2 == 2
  {
    var a, b := Arrive(Arrival(name, 1, 3, x)), Arrive(Arrival(name, 2, 2, y));
    assert [a, b][..1] == [a] && [a][..0] == [];
    var s := Save(Save(Empty(KEY_FIRST), a.arrival), b.arrival);
    assert Run(Empty(KEY_FIRST), [a]) == Save(Empty(KEY_FIRST), a.arrival);
    assert Run(Empty(KEY_FIRST), [a, b]) == s;
    assert AllPresent(s.blocks, 123457, 2);
    assert Joined(s.blocks, 123457, 1) == Joined(s.blocks, 123457, 0) + x == x;
    assert Joined(s.blocks, 123457, 2) == x + y;
  }
}
