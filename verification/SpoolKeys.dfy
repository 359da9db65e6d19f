/** When the spool's reused keys keep its sessions apart: exactly when, when by counting, and when not. */
module SpoolKeys {
  import opened Bytes
  import opened Spool
  import opened SpoolSessions
  import opened SpoolHistory

  // -------------------------------------------------------------- the exact condition

  ghost predicate SoundAfter(key: int, events: seq<Event>, name: Name, exact: bool) {
    SoundFor(Run(Empty(key), events), RunRef(events), name, exact)
  }

  lemma OwnArrival(s: State, r: Sessions, a: Arrival, exact: bool)
    requires Counted(s, r) && SoundFor(s, r, a.name, exact) && Saved(s, a)
    ensures SoundFor(Save(s, a), SaveRef(r, a), a.name, exact) <==> (a.blockno == 1 ==> KeyUnused(s, a, exact))
  {
    var x, y := OpenSlot(a.name), QueueSlot(a.name);
    assert SlotCounted(s, r, x) && SlotCounted(s, r, y);
    SaveSlots(s, a, x);
    SaveSlots(s, a, y);
    if a.blockno == 1 { FirstBlockSound(s, r, a, exact); } else { LaterBlockSound(s, r, a, exact); }
    if Target(a) == x && InUse(s, y) { OtherSlotSound(s, r, a, y, exact); }
    hide Save, SaveRef;
  }

  lemma OtherArrival(s: State, r: Sessions, a: Arrival, name: Name, exact: bool)
    requires Counted(s, r) && SoundFor(s, r, name, exact) && Saved(s, a) && a.name != name
    ensures SoundFor(Save(s, a), SaveRef(r, a), name, exact) <==> (a.blockno == 1 ==> KeyGoodFor(s, a, name, exact))
  {
    assert SlotCounted(s, r, OpenSlot(a.name));
    forall x | x == OpenSlot(name) || x == QueueSlot(name)
      ensures Sound(Save(s, a), SaveRef(r, a), x, exact) <==>
              (a.blockno == 1 && InUse(s, x) ==> SlotKey(s, x) != NextKey(s.key))
    {
      assert SlotCounted(s, r, x);
      SaveSlots(s, a, x);
      if InUse(s, x) { OtherSlotSound(s, r, a, x, exact); }
    }
    hide Save, SaveRef, Sound;
  }

  lemma StepSound(s: State, r: Sessions, e: Event, name: Name, exact: bool)
    requires Counted(s, r) && SoundFor(s, r, name, exact)
    ensures SoundFor(Step(s, e), StepRef(r, e), name, exact) <==> (IsFirst(e) ==> KeyGoodFor(s, e.arrival, name, exact))
  {
    assert SlotCounted(s, r, OpenSlot(name)) && SlotCounted(s, r, QueueSlot(name));
    match e
    case Arrive(a) =>
      assert SlotCounted(s, r, OpenSlot(a.name));
      if Saved(s, a) {
        if a.name == name { OwnArrival(s, r, a, exact); } else { OtherArrival(s, r, a, name, exact); }
      }
    case RunRecord(n) =>
      ProcessSound(s, r, n, OpenSlot(name), exact);
      ProcessSound(s, r, n, QueueSlot(name), exact);
  }

  ghost predicate SoundThroughout(key: int, events: seq<Event>, name: Name, exact: bool) {
    forall m :: 0 <= m <= |events| ==> SoundAfter(key, events[..m], name, exact)
  }

  lemma ThroughoutStep(key: int, events: seq<Event>, name: Name, exact: bool)
    requires events != []
    ensures var before := events[..|events| - 1];
            && (SoundThroughout(key, events, name, exact) <==>
                  SoundThroughout(key, before, name, exact) && SoundAfter(key, events, name, exact))
            && (SoundThroughout(key, before, name, exact) ==> SoundAfter(key, before, name, exact))
  {
    hide SoundAfter;
    var n := |events| - 1;
    var before := events[..n];
    assert before[..n] == before && events[..n + 1] == events;
    assert forall m :: 0 <= m <= n ==> before[..m] == events[..m];
    if SoundThroughout(key, before, name, exact) {
      assert SoundAfter(key, before[..n], name, exact);
      if SoundAfter(key, events, name, exact) {
        forall m | 0 <= m <= |events| ensures SoundAfter(key, events[..m], name, exact) {
          if m <= n { assert SoundAfter(key, before[..m], name, exact); }
        }
      }
    }
    if SoundThroughout(key, events, name, exact) {
      assert SoundAfter(key, events[..n + 1], name, exact);
      forall m | 0 <= m <= n ensures SoundAfter(key, before[..m], name, exact) {
        assert SoundAfter(key, events[..m], name, exact);
      }
    }
  }

  /**
   For each product by itself: the blocks of its sessions are in the spool, and if `exact` nothing else is
   under their keys, throughout the run if and only if every block 1 of the run got a key that was good
   for it.
   */
  lemma {:induction false} RunRefines(key: int, events: seq<Event>, name: Name, exact: bool)
    ensures SoundThroughout(key, events, name, exact) <==> FreshFrom(key, events, name, 0, exact)
  {
    if events == [] {
      assert events[..0] == [];
    } else {
      var before, e := events[..|events| - 1], events[|events| - 1];
      RunRefines(key, before, name, exact);
      RunCounts(key, before);
      FreshStep(key, events, name, 0, exact);
      ThroughoutStep(key, events, name, exact);
      hide SoundFor, FreshFrom, KeyGoodFor, Counted, Step, StepRef, SoundThroughout;
      if SoundAfter(key, before, name, exact) {
        StepSound(Run(Empty(key), before), RunRef(before), e, name, exact);
      }
    }
  }

  // ---------------------------------------------------------------- how old a key is

  /** For every slot and every file, which block 1 of the run its session began with. */
  datatype Stamps = Stamps(count: nat, slots: map<Slot, nat>, files: map<(int, int), nat>)

  function StampStep(s: State, t: Stamps, e: Event): Stamps {
    match e
    case Arrive(a) =>
      if !Saved(s, a) then t else
      var count := if a.blockno == 1 then t.count + 1 else t.count;
      var m := StampOf(t, a);
      Stamps(count, (t.slots - {OpenSlot(a.name)})[Target(a) := m], t.files[(SaveKey(s, a), a.blockno) := m])
    case RunRecord(name) =>
      var kept := Process(s, name).0.blocks;
      Stamps(t.count, t.slots - {QueueSlot(name)}, map kb | kb in t.files && kb in kept :: t.files[kb])
  }

  function Stamped(key: int, events: seq<Event>): Stamps {
    if events == [] then Stamps(0, map[], map[])
    else
      var before := events[..|events| - 1];
      StampStep(Run(Empty(key), before), Stamped(key, before), events[|events| - 1])
  }

  /** What is stamped m has the key that the m-th block 1 got. */
  ghost predicate StampsOk(key: int, s: State, t: Stamps) {
    && s.key == KeyAfter(key, t.count)
    && (forall x :: InUse(s, x) <==> x in t.slots)
    && (forall x :: x in t.slots ==> 1 <= t.slots[x] <= t.count && SlotKey(s, x) == KeyAfter(key, t.slots[x]))
    && s.blocks.Keys == t.files.Keys
    && (forall kb :: kb in t.files ==> 1 <= t.files[kb] <= t.count && kb.0 == KeyAfter(key, t.files[kb]))
  }

  lemma SaveStamps(key: int, s: State, t: Stamps, a: Arrival)
    requires StampsOk(key, s, t) && Saved(s, a)
    ensures StampsOk(key, Save(s, a), StampStep(s, t, Arrive(a)))
  {
    var s', t' := Save(s, a), StampStep(s, t, Arrive(a));
    NewStamp(key, s, t, a);
    SaveSlots(s, a, Target(a));
    hide Save, SaveKey, KeyAfter;
    forall x ensures InUse(s', x) <==> x in t'.slots {
      SaveSlots(s, a, x);
    }
    forall x | x in t'.slots ensures 1 <= t'.slots[x] <= t'.count && SlotKey(s', x) == KeyAfter(key, t'.slots[x]) {
      SaveSlots(s, a, x);
    }
  }

  /** The block that started the session of an arrival. */
  function StampOf(t: Stamps, a: Arrival): nat {
    if a.blockno == 1 then t.count + 1 else if OpenSlot(a.name) in t.slots then t.slots[OpenSlot(a.name)] else t.count
  }

  lemma NewStamp(key: int, s: State, t: Stamps, a: Arrival)
    requires StampsOk(key, s, t) && Saved(s, a)
    ensures var count := if a.blockno == 1 then t.count + 1 else t.count;
            && Save(s, a).key == KeyAfter(key, count)
            && 1 <= StampOf(t, a) <= count && SaveKey(s, a) == KeyAfter(key, StampOf(t, a))
  {
    assert InUse(s, OpenSlot(a.name)) <==> OpenSlot(a.name) in t.slots;
  }

  lemma {:induction false} StampsFollow(key: int, events: seq<Event>)
    ensures StampsOk(key, Run(Empty(key), events), Stamped(key, events))
    ensures Stamped(key, events).count == FirstBlocks(events)
  {
    if events != [] {
      var before := events[..|events| - 1];
      StampsFollow(key, before);
      var s, t := Run(Empty(key), before), Stamped(key, before);
      match events[|events| - 1]
      case Arrive(a) =>
        if Saved(s, a) { SaveStamps(key, s, t, a); }
      case RunRecord(name) =>
        assert InUse(s, QueueSlot(name)) <==> QueueSlot(name) in t.slots;
    }
  }

  /** How many blocks 1 came. */
  function FirstBlocks(events: seq<Event>): nat {
    if events == [] then 0 else
    var e := events[|events| - 1];
    FirstBlocks(events[..|events| - 1]) + (if e.Arrive? && e.arrival.blockno == 1 then 1 else 0)
  }

  /** All that is in the spool belongs to one of the last 800000 sessions. */
  ghost predicate Recent(t: Stamps) {
    && (forall x :: x in t.slots ==> t.slots[x] + KEY_COUNT > t.count + 1)
    && (forall kb :: kb in t.files ==> t.files[kb] + KEY_COUNT > t.count + 1)
  }

  lemma RecentIsUnused(key: int, s: State, t: Stamps, a: Arrival, name: Name, exact: bool)
    requires KEY_FIRST <= key <= KEY_LAST && StampsOk(key, s, t) && Recent(t)
    ensures KeyGoodFor(s, a, name, exact)
  {
    hide KeyAfter;
    var next := NextKey(s.key);
    assert next == KeyAfter(key, t.count + 1) by { KeyStep(key, t.count); }
    forall x | InUse(s, x) ensures SlotKey(s, x) != next {
      assert x in t.slots;
      SameKey(key, t.slots[x], t.count + 1);
    }
    forall b ensures (next, b) !in s.blocks {
      if (next, b) in t.files { SameKey(key, t.files[(next, b)], t.count + 1); }
    }
  }

  lemma KeyStep(key: int, n: nat)
    ensures KeyAfter(key, n + 1) == NextKey(KeyAfter(key, n))
  {
  }

  /** When every block 1 finds only sessions begun fewer than 800001 blocks 1 ago, all keys are good. */
  lemma RecentIsFresh(key: int, events: seq<Event>, name: Name, i: int, exact: bool)
    requires KEY_FIRST <= key <= KEY_LAST
    requires forall m :: 0 <= m < |events| && i <= m && IsFirst(events[m]) ==> Recent(Stamped(key, events[..m]))
    ensures FreshFrom(key, events, name, i, exact)
  {
    forall m | 0 <= m < |events| && i <= m && IsFirst(events[m])
      ensures KeyGoodFor(Run(Empty(key), events[..m]), events[m].arrival, name, exact)
    {
      StampsFollow(key, events[..m]);
      RecentIsUnused(key, Run(Empty(key), events[..m]), Stamped(key, events[..m]), events[m].arrival, name, exact);
    }
  }

  lemma {:induction false} FirstBlocksOfPrefix(events: seq<Event>, m: nat)
    requires m < |events| && IsFirst(events[m])
    ensures FirstBlocks(events[..m]) < FirstBlocks(events)
    decreases |events|
  {
    var before := events[..|events| - 1];
    if m < |before| {
      FirstBlocksOfPrefix(before, m);
      assert before[..m] == events[..m];
    }
  }

  /** In particular in the first 800001 sessions of a daemon. */
  lemma FewFirstBlocks(key: int, events: seq<Event>, name: Name, i: int, exact: bool)
    requires KEY_FIRST <= key <= KEY_LAST && FirstBlocks(events) <= KEY_COUNT
    ensures FreshFrom(key, events, name, i, exact)
  {
    forall m | 0 <= m < |events| && i <= m && IsFirst(events[m]) ensures Recent(Stamped(key, events[..m])) {
      FirstBlocksOfPrefix(events, m);
      StampsFollow(key, events[..m]);
    }
    RecentIsFresh(key, events, name, i, exact);
  }

  // ------------------------------------------------------------------ a key in use

  function Repeated(e: Event, n: nat): (r: seq<Event>)
    ensures |r| == n
  {
    if n == 0 then [] else Repeated(e, n - 1) + [e]
  }

  /** Sessions that are begun and never go on use up keys and leave files for a block 2 alone. */
  lemma {:induction false} BegunSessions(key: int, pre: seq<Event>, c: Name, n: nat)
    ensures var s := Run(Empty(key), pre);
            var t := Run(Empty(key), pre + Repeated(Arrive(Arrival(c, 1, 2, [])), n));
            t.key == KeyAfter(s.key, n) && forall k :: FileAt(t.blocks, k, 2) == FileAt(s.blocks, k, 2)
  {
    var e := Arrive(Arrival(c, 1, 2, []));
    var events := pre + Repeated(e, n);
    if n == 0 {
      assert events == pre;
    } else {
      BegunSessions(key, pre, c, n - 1);
      assert events[..|events| - 1] == pre + Repeated(e, n - 1) && events[|events| - 1] == e;
    }
  }

  function StaleHistory(a: Name, b: Name, c: Name, x: seq<byte>, y: seq<byte>, z: seq<byte>, w: seq<byte>): seq<Event> {
    [Arrive(Arrival(a, 1, 3, x)), Arrive(Arrival(a, 2, 3, y))]
    + Repeated(Arrive(Arrival(c, 1, 2, [])), 800000)
    + [Arrive(Arrival(b, 1, 3, z)), Arrive(Arrival(b, 3, 3, w))]
  }

  lemma StaleState(key: int, a: Name, c: Name, x: seq<byte>, y: seq<byte>)
    requires KEY_FIRST <= key <= KEY_LAST
    ensures var pre := [Arrive(Arrival(a, 1, 3, x)), Arrive(Arrival(a, 2, 3, y))];
            var s := Run(Empty(key), pre + Repeated(Arrive(Arrival(c, 1, 2, [])), 800000));
            FileAt(s.blocks, NextKey(s.key), 2) == Some(y)
  {
    var e1, e2 := Arrive(Arrival(a, 1, 3, x)), Arrive(Arrival(a, 2, 3, y));
    var pre := [e1, e2];
    assert pre[..1] == [e1] && [e1][..0] == [];
    assert Run(Empty(key), [e1]) == Save(Empty(key), e1.arrival);
    var s0 := Save(Save(Empty(key), e1.arrival), e2.arrival);
    assert Run(Empty(key), pre) == s0;
    BegunSessions(key, pre, c, 800000);
    hide Run, Repeated, KeyAfter;
    SameKey(NextKey(key), 0, 800001);
    KeyZero(NextKey(key));
    KeyStep(NextKey(key), 800000);
  }

  lemma KeyZero(key: int)
    ensures KeyAfter(key, 0) == key
  {
  }

  /**
   A key that comes round while a file of an abandoned session still has it: product b loses its block 2
   and yet is assembled, with block 2 of product a in its place.
   */
  lemma StaleFileCompletes(key: int, a: Name, b: Name, c: Name, x: seq<byte>, y: seq<byte>, z: seq<byte>, w: seq<byte>)
    requires KEY_FIRST <= key <= KEY_LAST && a != b && c != b
    ensures Process(Run(Empty(key), StaleHistory(a, b, c, x, y, z, w)), b).1 == Some(z + y)
    ensures !FreshFrom(key, StaleHistory(a, b, c, x, y, z, w), b, 0, true)
  {
    var e3, e4 := Arrive(Arrival(b, 1, 3, z)), Arrive(Arrival(b, 3, 3, w));
    var begun := Repeated(Arrive(Arrival(c, 1, 2, [])), 800000);
    var pre := [Arrive(Arrival(a, 1, 3, x)), Arrive(Arrival(a, 2, 3, y))] + begun;
    var events := StaleHistory(a, b, c, x, y, z, w);
    StaleState(key, a, c, x, y);
    var s := Run(Empty(key), pre);
    var m := |pre|;
    assert events == pre + [e3, e4];
    assert events[..m + 1][..m] == pre && events[..m + 1][m] == e3 && events[..m + 2] == events;
    assert events[..m] == pre && events[m] == e3 && events[m + 1] == e4;
    hide Repeated;
    assert Run(Empty(key), events[..m + 1]) == Save(s, e3.arrival);
    var s' := Save(Save(s, e3.arrival), e4.arrival);
    assert Run(Empty(key), events) == s';
    StaleJoined(s, b, y, z, w);
    assert !KeyGoodFor(Run(Empty(key), events[..m]), events[m].arrival, b, true);
  }

  lemma StaleJoined(s: State, b: Name, y: seq<byte>, z: seq<byte>, w: seq<byte>)
    requires FileAt(s.blocks, NextKey(s.key), 2) == Some(y)
    ensures Process(Save(Save(s, Arrival(b, 1, 3, z)), Arrival(b, 3, 3, w)), b).1 == Some(z + y)
    ensures !KeyGoodFor(s, Arrival(b, 1, 3, z), b, true)
  {
    var s', k := Save(Save(s, Arrival(b, 1, 3, z)), Arrival(b, 3, 3, w)), NextKey(s.key);
    assert (k, 2) in s.blocks;
    assert s'.queued[b] == QRecord(k, 3, 2);
    assert AllPresent(s'.blocks, k, 2);
    assert Joined(s'.blocks, k, 1) == Joined(s'.blocks, k, 0) + z == z;
    assert Joined(s'.blocks, k, 2) == z + y;
  }
}
