/**
 Which products the queue runner assembles, told without keys, files or counters: a session of a
 product is the run of its blocks from a block 1 up to its next last block.
 */
module SpoolSessions {
  import opened Bytes
  import opened Spool

  // ------------------------------------------------------ counting by pigeonhole

  /** Every number from 1 to n, each exactly once. */
  ghost predicate EachOnce(nums: seq<int>, n: nat) {
    && |nums| == n
    && (forall i :: 0 <= i < |nums| ==> 1 <= nums[i] <= n)
    && (forall i, j :: 0 <= i < j < |nums| ==> nums[i] != nums[j])
  }

  ghost predicate Covers(nums: seq<int>, n: nat) {
    forall k :: 1 <= k <= n ==> k in nums
  }

  lemma RemovedHas(nums: seq<int>, i: nat, k: int)
    requires i < |nums| && k in nums && k != nums[i]
    ensures k in RemoveAt(nums, i)
  {
    var j :| 0 <= j < |nums| && nums[j] == k;
    var w := RemoveAt(nums, i);
    assert if j < i then w[j] == k else w[j - 1] == k;
  }

  lemma PutBack(nums: seq<int>, i: nat)
    requires i < |nums| && nums[i] == |nums|
    requires EachOnce(RemoveAt(nums, i), |nums| - 1)
    ensures EachOnce(nums, |nums|)
  {
    var n := |nums|;
    var w := RemoveAt(nums, i);
    forall j | 0 <= j < n && j != i ensures 1 <= nums[j] <= n - 1 {
      assert nums[j] == w[if j < i then j else j - 1];
    }
    forall j, k | 0 <= j < k < n && j != i && k != i ensures nums[j] != nums[k] {
      var j', k' := if j < i then j else j - 1, if k < i then k else k - 1;
      assert nums[j] == w[j'] && nums[k] == w[k'];
    }
  }

  lemma {:induction false} CoversIsEachOnce(nums: seq<int>)
    requires Covers(nums, |nums|)
    ensures EachOnce(nums, |nums|)
    decreases |nums|
  {
    var n := |nums|;
    if n > 0 {
      assert n in nums;
      var i :| 0 <= i < n && nums[i] == n;
      var w := RemoveAt(nums, i);
      forall k | 1 <= k <= n - 1 ensures k in w { RemovedHas(nums, i, k); }
      CoversIsEachOnce(w);
      PutBack(nums, i);
    }
  }

  lemma {:induction false} EachOnceCovers(nums: seq<int>)
    requires EachOnce(nums, |nums|)
    ensures Covers(nums, |nums|)
    decreases |nums|
  {
    var n := |nums|;
    forall k | 1 <= k <= n ensures k in nums {
      if k !in nums {
        NoGap(nums, n, k);
      }
    }
  }

  /** n distinct numbers cannot fit in 1..n with one of them left out. */
  lemma {:induction false} NoGap(nums: seq<int>, n: nat, gap: int)
    requires |nums| == n && 1 <= gap <= n
    requires forall i :: 0 <= i < |nums| ==> 1 <= nums[i] <= n && nums[i] != gap
    requires forall i, j :: 0 <= i < j < |nums| ==> nums[i] != nums[j]
    ensures false
    decreases n
  {
    // drop the element n (or, if n is the gap, any element mapped out of the way)
    var top := seq(n, i requires 0 <= i < n => if nums[i] == n then gap else nums[i]);
    var last := top[n - 1];
    var w := top[..n - 1];
    if n > 1 {
      NoGap(w, n - 1, last);
    }
  }

  // ---------------------------------------------------------- the reference spool

  function BlockNumbers(bs: seq<Arrival>): (r: seq<int>)
    ensures |r| == |bs|
    ensures forall i :: 0 <= i < |bs| ==> r[i] == bs[i].blockno
  {
    seq(|bs|, i requires 0 <= i < |bs| => bs[i].blockno)
  }

  /** The data of block k, the latest one if it came twice. */
  function DataFor(bs: seq<Arrival>, k: int): Option<seq<byte>> {
    if bs == [] then None
    else if bs[|bs| - 1].blockno == k then Some(bs[|bs| - 1].data)
    else DataFor(bs[..|bs| - 1], k)
  }

  lemma {:induction false} DataForIsSome(bs: seq<Arrival>, k: int)
    ensures DataFor(bs, k).Some? <==> k in BlockNumbers(bs)
  {
    if bs != [] {
      DataForIsSome(bs[..|bs| - 1], k);
      var r, p := BlockNumbers(bs), BlockNumbers(bs[..|bs| - 1]);
      assert r == p + [bs[|bs| - 1].blockno];
    }
  }

  /** The blocks 1..n in order. */
  function InOrder(bs: seq<Arrival>, n: nat): seq<byte>
    requires forall k :: 1 <= k <= n ==> DataFor(bs, k).Some?
  {
    if n == 0 then [] else InOrder(bs, n - 1) + DataFor(bs, n).value
  }

  /** A product whose session holds each of its block numbers exactly once is assembled. */
  ghost function Assembly(bs: seq<Arrival>): Option<seq<byte>> {
    if EachOnce(BlockNumbers(bs), |bs|) then
      EachOnceCovers(BlockNumbers(bs));
      assert forall k :: 1 <= k <= |bs| ==> DataFor(bs, k).Some? by {
        forall k | 1 <= k <= |bs| ensures DataFor(bs, k).Some? { DataForIsSome(bs, k); }
      }
      Some(InOrder(bs, |bs|))
    else None
  }

  /** The sessions being received and those waiting for the queue runner. */
  datatype Sessions = Sessions(open: map<Name, seq<Arrival>>, queued: map<Name, seq<Arrival>>)

  function SaveRef(r: Sessions, a: Arrival): Sessions {
    if a.blockno != 1 && a.name !in r.open then r else
    var bs := (if a.blockno == 1 then [] else r.open[a.name]) + [a];
    if a.blockno == a.numblocks then Sessions(r.open - {a.name}, r.queued[a.name := bs])
    else Sessions(r.open[a.name := bs], r.queued)
  }

  function StepRef(r: Sessions, e: Event): Sessions {
    match e
    case Arrive(a) => SaveRef(r, a)
    case RunRecord(name) => r.(queued := r.queued - {name})
  }

  function RunRef(events: seq<Event>): Sessions {
    if events == [] then Sessions(map[], map[])
    else StepRef(RunRef(events[..|events| - 1]), events[|events| - 1])
  }

  // ------------------------------------------------------------- slots of the spool

  /** A product being received, or waiting for the queue runner. */
  datatype Slot = OpenSlot(name: Name) | QueueSlot(name: Name)

  predicate InUse(s: State, x: Slot) {
    match x case OpenSlot(n) => n in s.open case QueueSlot(n) => n in s.queued
  }

  function SlotKey(s: State, x: Slot): int
    requires InUse(s, x)
  {
    match x case OpenSlot(n) => s.open[n].key case QueueSlot(n) => s.queued[n].key
  }

  function SlotTotal(s: State, x: Slot): int
    requires InUse(s, x)
  {
    match x case OpenSlot(n) => s.open[n].numblocks case QueueSlot(n) => s.queued[n].number1
  }

  function SlotCount(s: State, x: Slot): nat
    requires InUse(s, x)
  {
    match x case OpenSlot(n) => s.open[n].rcvblocks case QueueSlot(n) => s.queued[n].number2
  }

  predicate InUseRef(r: Sessions, x: Slot) {
    match x case OpenSlot(n) => n in r.open case QueueSlot(n) => n in r.queued
  }

  function SlotBlocks(r: Sessions, x: Slot): seq<Arrival>
    requires InUseRef(r, x)
  {
    match x case OpenSlot(n) => r.open[n] case QueueSlot(n) => r.queued[n]
  }

  /** The slot that an arrival is saved to. */
  function Target(a: Arrival): Slot {
    if a.blockno == a.numblocks then QueueSlot(a.name) else OpenSlot(a.name)
  }

  predicate Saved(s: State, a: Arrival) {
    a.blockno == 1 || a.name in s.open
  }

  function SaveKey(s: State, a: Arrival): int
    requires Saved(s, a)
  {
    if a.blockno == 1 then NextKey(s.key) else s.open[a.name].key
  }

  /** What saving does to the slots. */
  lemma SaveSlots(s: State, a: Arrival, x: Slot)
    requires Saved(s, a)
    ensures var s' := Save(s, a);
            && s'.blocks == s.blocks[(SaveKey(s, a), a.blockno) := a.data]
            && (InUse(s', x) <==> x == Target(a) || (InUse(s, x) && x != OpenSlot(a.name)))
            && (InUse(s', x) ==> SlotKey(s', x) == if x == Target(a) then SaveKey(s, a) else SlotKey(s, x))
  {
  }

  // ---------------------------------------------------------------- the counters

  /** The spool's slot and the session agree on everything but the files, whatever keys are reused. */
  ghost predicate SlotCounted(s: State, r: Sessions, x: Slot) {
    && (InUseRef(r, x) <==> InUse(s, x))
    && (InUse(s, x) ==>
          && SlotBlocks(r, x) != []
          && SlotCount(s, x) == |SlotBlocks(r, x)|
          && SlotTotal(s, x) == SlotBlocks(r, x)[0].numblocks)
  }

  ghost predicate Counted(s: State, r: Sessions) {
    forall x :: SlotCounted(s, r, x)
  }

  lemma SaveCounts(s: State, r: Sessions, a: Arrival)
    requires Counted(s, r)
    ensures Counted(Save(s, a), SaveRef(r, a))
  {
    assert SlotCounted(s, r, OpenSlot(a.name));
    forall x ensures SlotCounted(Save(s, a), SaveRef(r, a), x) {
      assert SlotCounted(s, r, x);
    }
  }

  lemma ProcessCounts(s: State, r: Sessions, name: Name)
    requires Counted(s, r)
    ensures Counted(Process(s, name).0, StepRef(r, RunRecord(name)))
  {
    assert SlotCounted(s, r, QueueSlot(name));
    forall x ensures SlotCounted(Process(s, name).0, StepRef(r, RunRecord(name)), x) {
      assert SlotCounted(s, r, x);
    }
  }

  /** In every run the counters tell the session's length and the total its first block announced. */
  lemma {:induction false} RunCounts(key: int, events: seq<Event>)
    ensures Counted(Run(Empty(key), events), RunRef(events))
  {
    if events != [] {
      var before := events[..|events| - 1];
      RunCounts(key, before);
      hide Counted, Save, SaveRef, Process;
      match events[|events| - 1]
      case Arrive(a) => SaveCounts(Run(Empty(key), before), RunRef(before), a);
      case RunRecord(name) => ProcessCounts(Run(Empty(key), before), RunRef(before), name);
    } else {
      assert forall x :: SlotCounted(Empty(key), Sessions(map[], map[]), x);
    }
  }

  // ------------------------------------------------------------------- the files

  function FileAt(blocks: map<(int, int), seq<byte>>, key: int, b: int): Option<seq<byte>> {
    if (key, b) in blocks then Some(blocks[(key, b)]) else None
  }

  /** The blocks of a session are in the files under a key and, if `exact`, there are no other files. */
  ghost predicate Holds(blocks: map<(int, int), seq<byte>>, key: int, bs: seq<Arrival>, exact: bool) {
    forall b :: exact || DataFor(bs, b).Some? ==> FileAt(blocks, key, b) == DataFor(bs, b)
  }

  /** No other slot uses the slot's key. */
  ghost predicate Isolated(s: State, x: Slot)
    requires InUse(s, x)
  {
    forall y :: InUse(s, y) && y != x ==> SlotKey(s, y) != SlotKey(s, x)
  }

  /** The slot has its key for itself, and its session's blocks are in the files under it. */
  ghost predicate Sound(s: State, r: Sessions, x: Slot, exact: bool) {
    InUse(s, x) && InUseRef(r, x) ==> Isolated(s, x) && Holds(s.blocks, SlotKey(s, x), SlotBlocks(r, x), exact)
  }

  /**
   The key about to be issued for a block 1 is not in use: no slot has it that stays after this arrival
   and, if `exact`, no file has it, except one for the block that is about to be written.
   */
  ghost predicate KeyUnused(s: State, a: Arrival, exact: bool) {
    && (exact ==> forall b :: b != 1 ==> (NextKey(s.key), b) !in s.blocks)
    && (forall y :: InUse(s, y) && y != OpenSlot(a.name) && y != Target(a) ==> SlotKey(s, y) != NextKey(s.key))
  }

  /** Writing one block file under a key adds it to that key's session. */
  lemma HoldsAfterPut(blocks: map<(int, int), seq<byte>>, key: int, bs: seq<Arrival>, a: Arrival, exact: bool)
    requires forall b :: b != a.blockno && (exact || DataFor(bs, b).Some?) ==> FileAt(blocks, key, b) == DataFor(bs, b)
    ensures Holds(blocks[(key, a.blockno) := a.data], key, bs + [a], exact)
  {
    var blocks' := blocks[(key, a.blockno) := a.data];
    assert (bs + [a])[..|bs|] == bs;
    forall b | exact || DataFor(bs + [a], b).Some? ensures FileAt(blocks', key, b) == DataFor(bs + [a], b) {
      assert b != a.blockno ==> FileAt(blocks, key, b) == DataFor(bs, b);
    }
  }

  /** ... and to no other. */
  lemma HoldsElsewhere(blocks: map<(int, int), seq<byte>>, key: int, a: Arrival,
                       k: int, cs: seq<Arrival>, exact: bool)
    requires k != key && Holds(blocks, k, cs, exact)
    ensures Holds(blocks[(key, a.blockno) := a.data], k, cs, exact)
  {
    var blocks' := blocks[(key, a.blockno) := a.data];
    forall b | exact || DataFor(cs, b).Some? ensures FileAt(blocks', k, b) == DataFor(cs, b) {
      assert FileAt(blocks, k, b) == DataFor(cs, b);
    }
  }

  /** After a block 1 its slot is sound exactly when its key was not in use. */
  lemma FirstBlockSound(s: State, r: Sessions, a: Arrival, exact: bool)
    requires a.blockno == 1
    ensures Sound(Save(s, a), SaveRef(r, a), Target(a), exact) <==> KeyUnused(s, a, exact)
  {
    var s', x, k := Save(s, a), Target(a), NextKey(s.key);
    SaveSlots(s, a, x);
    forall y ensures InUse(s', y) && y != x <==> InUse(s, y) && y != OpenSlot(a.name) && y != x {
      SaveSlots(s, a, y);
    }
    assert Isolated(s', x) <==>
           forall y :: InUse(s, y) && y != OpenSlot(a.name) && y != x ==> SlotKey(s, y) != k by {
      forall y | InUse(s', y) && y != x ensures SlotKey(s', y) == SlotKey(s, y) { SaveSlots(s, a, y); }
      assert SlotKey(s', x) == k;
    }
    if exact ==> forall b :: b != 1 ==> (k, b) !in s.blocks {
      HoldsAfterPut(s.blocks, k, [], a, exact);
      assert [] + [a] == [a];
    } else {
      var b :| b != 1 && (k, b) in s.blocks;
      assert [a][..0] == [];
      assert FileAt(s'.blocks, k, b).Some? && DataFor([a], b).None?;
    }
  }

  /** A later block of a product keeps its session sound. */
  lemma LaterBlockSound(s: State, r: Sessions, a: Arrival, exact: bool)
    requires a.blockno != 1 && a.name in s.open && a.name in r.open && Sound(s, r, OpenSlot(a.name), exact)
    ensures Sound(Save(s, a), SaveRef(r, a), Target(a), exact)
  {
    var s', x, from := Save(s, a), Target(a), OpenSlot(a.name);
    assert InUse(s, from) && InUseRef(r, from);
    SaveSlots(s, a, x);
    forall y | InUse(s', y) && y != x ensures SlotKey(s', y) != SlotKey(s', x) {
      SaveSlots(s, a, y);
      assert InUse(s, y) && y != from;
    }
    HoldsAfterPut(s.blocks, s.open[a.name].key, r.open[a.name], a, exact);
  }

  /** A block of another slot leaves a sound slot sound, a block 1 exactly when its key is another. */
  lemma OtherSlotSound(s: State, r: Sessions, a: Arrival, x: Slot, exact: bool)
    requires Saved(s, a) && (a.name in s.open ==> a.name in r.open)
    requires x != Target(a) && x != OpenSlot(a.name) && InUse(s, x) && InUseRef(r, x) && Sound(s, r, x, exact)
    ensures Sound(Save(s, a), SaveRef(r, a), x, exact) <==> a.blockno == 1 ==> SlotKey(s, x) != NextKey(s.key)
  {
    var s', z := Save(s, a), Target(a);
    SaveSlots(s, a, x);
    SaveSlots(s, a, z);
    assert InUse(s, OpenSlot(a.name)) ==> SlotKey(s, OpenSlot(a.name)) != SlotKey(s, x);
    assert SlotBlocks(SaveRef(r, a), x) == SlotBlocks(r, x);
    if SlotKey(s, x) != SaveKey(s, a) {
      HoldsElsewhere(s.blocks, SaveKey(s, a), a, SlotKey(s, x), SlotBlocks(r, x), exact);
      forall y | InUse(s', y) && y != x ensures SlotKey(s', y) != SlotKey(s', x) {
        SaveSlots(s, a, y);
      }
    } else {
      assert InUse(s', z) && SlotKey(s', z) == SlotKey(s', x);
    }
  }

  /** Taking a record away leaves the other slots sound, whether or not its files went too. */
  lemma ProcessSound(s: State, r: Sessions, name: Name, x: Slot, exact: bool)
    requires Sound(s, r, x, exact) && (InUse(s, x) <==> InUseRef(r, x))
    ensures Sound(Process(s, name).0, StepRef(r, RunRecord(name)), x, exact)
  {
    var s' := Process(s, name).0;
    if InUse(s', x) && InUse(s, QueueSlot(name)) {
      assert x != QueueSlot(name) && SlotKey(s, QueueSlot(name)) != SlotKey(s, x);
      forall b ensures FileAt(s'.blocks, SlotKey(s, x), b) == FileAt(s.blocks, SlotKey(s, x), b) {
      }
      forall y | InUse(s', y) && y != x ensures SlotKey(s', y) != SlotKey(s', x) {
        assert InUse(s, y);
      }
    }
  }

  // ------------------------------------------------------------ following one product

  /** Whether a block 1 gets a key that is good for the product: unused if it is its own, another if not. */
  ghost predicate KeyGoodFor(s: State, a: Arrival, name: Name, exact: bool) {
    if a.name == name then KeyUnused(s, a, exact)
    else forall x :: x == OpenSlot(name) || x == QueueSlot(name) ==> InUse(s, x) ==> SlotKey(s, x) != NextKey(s.key)
  }

  ghost predicate IsFirst(e: Event) {
    e.Arrive? && e.arrival.blockno == 1
  }

  /** From event i on, every block 1 got a key that was good for the product. */
  ghost predicate FreshFrom(key: int, events: seq<Event>, name: Name, i: int, exact: bool) {
    forall m :: 0 <= m < |events| && i <= m && IsFirst(events[m]) ==>
      KeyGoodFor(Run(Empty(key), events[..m]), events[m].arrival, name, exact)
  }

  lemma FreshStep(key: int, events: seq<Event>, name: Name, i: int, exact: bool)
    requires events != []
    ensures var before, e := events[..|events| - 1], events[|events| - 1];
            FreshFrom(key, events, name, i, exact) <==>
            && FreshFrom(key, before, name, i, exact)
            && (i <= |before| && IsFirst(e) ==> KeyGoodFor(Run(Empty(key), before), e.arrival, name, exact))
  {
    var before := events[..|events| - 1];
    hide KeyGoodFor, Run, IsFirst;
    forall m | 0 <= m < |before| ensures before[m] == events[m] && before[..m] == events[..m] {
    }
  }

  ghost predicate SoundFor(s: State, r: Sessions, name: Name, exact: bool) {
    Sound(s, r, OpenSlot(name), exact) && Sound(s, r, QueueSlot(name), exact)
  }

  /** One slot of a product over one event that leaves it in place. */
  lemma CarriedSound(s: State, r: Sessions, e: Event, x: Slot, exact: bool)
    requires Counted(s, r) && InUse(s, x) && Sound(s, r, x, exact)
    requires e.Arrive? && Saved(s, e.arrival) ==> Target(e.arrival) != x && OpenSlot(e.arrival.name) != x
    requires IsFirst(e) ==> SlotKey(s, x) != NextKey(s.key)
    ensures Sound(Step(s, e), StepRef(r, e), x, exact)
  {
    assert SlotCounted(s, r, x);
    match e
    case Arrive(a) =>
      assert SlotCounted(s, r, OpenSlot(a.name));
      if Saved(s, a) { OtherSlotSound(s, r, a, x, exact); }
    case RunRecord(name) =>
      ProcessSound(s, r, name, x, exact);
  }

  // ------------------------------------------------------------------ the outcome

  lemma {:induction false} JoinedIsInOrder(blocks: map<(int, int), seq<byte>>, key: int, bs: seq<Arrival>, n: nat)
    requires Holds(blocks, key, bs, false) && AllPresent(blocks, key, n)
    requires forall k :: 1 <= k <= n ==> DataFor(bs, k).Some?
    ensures Joined(blocks, key, n) == InOrder(bs, n)
  {
    if n > 0 {
      JoinedIsInOrder(blocks, key, bs, n - 1);
      assert FileAt(blocks, key, n) == DataFor(bs, n);
    }
  }

  lemma AllThere(blocks: map<(int, int), seq<byte>>, key: int, bs: seq<Arrival>, exact: bool)
    requires Holds(blocks, key, bs, exact)
    ensures Covers(BlockNumbers(bs), |bs|) ==> AllPresent(blocks, key, |bs|)
    ensures exact ==> AllPresent(blocks, key, |bs|) ==> Covers(BlockNumbers(bs), |bs|)
    ensures Covers(BlockNumbers(bs), |bs|) ==> forall k :: 1 <= k <= |bs| ==> DataFor(bs, k).Some?
  {
    forall k ensures DataFor(bs, k).Some? <==> k in BlockNumbers(bs) { DataForIsSome(bs, k); }
    hide DataFor;
    assert forall k :: DataFor(bs, k).Some? ==> FileAt(blocks, key, k) == DataFor(bs, k);
    assert forall k :: FileAt(blocks, key, k).Some? <==> (key, k) in blocks;
    if exact {
      assert forall k :: FileAt(blocks, key, k) == DataFor(bs, k);
    }
  }

  /**
   A session that holds each block number once is assembled from its blocks in order, whatever other
   files are in the spool.
   */
  lemma WholeIsAssembled(s: State, r: Sessions, name: Name)
    requires Counted(s, r) && Sound(s, r, QueueSlot(name), false)
    requires name in r.queued && Assembly(r.queued[name]).Some?
    ensures Process(s, name).1 == Assembly(r.queued[name])
  {
    assert SlotCounted(s, r, QueueSlot(name));
    assert InUse(s, QueueSlot(name));
    var key, bs := s.queued[name].key, r.queued[name];
    EachOnceCovers(BlockNumbers(bs));
    AllThere(s.blocks, key, bs, false);
    JoinedIsInOrder(s.blocks, key, bs, |bs|);
  }

  /**
   The queue runner's test, which looks for as many parts as blocks were counted, succeeds exactly
   when the session holds each block number once, and then the parts joined are its blocks in order.
   */
  lemma ProcessIsAssembly(s: State, r: Sessions, name: Name)
    requires Counted(s, r) && Sound(s, r, QueueSlot(name), true)
    ensures Process(s, name).1 == if name in r.queued then Assembly(r.queued[name]) else None
  {
    assert SlotCounted(s, r, QueueSlot(name));
    if name in s.queued {
      assert InUse(s, QueueSlot(name));
      var key, bs := s.queued[name].key, r.queued[name];
      AllThere(s.blocks, key, bs, true);
      if AllPresent(s.blocks, key, |bs|) {
        CoversIsEachOnce(BlockNumbers(bs));
        WholeIsAssembled(s, r, name);
      } else if EachOnce(BlockNumbers(bs), |bs|) {
        EachOnceCovers(BlockNumbers(bs));
      }
    }
  }
}
