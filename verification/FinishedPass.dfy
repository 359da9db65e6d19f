/** The pass that removes finished clients while it walks over the table. */
module FinishedPass {
  import opened Bytes
  import opened ConnTable
  import opened TableWalk

  /** process_finished_connections() on one entry. */
  function PassAction(): (nat, Entry) -> Option<Entry> {
    (i: nat, e: Entry) => if Stopped(e) then None else Some(e)
  }

  function Pass(s: seq<Entry>): seq<Entry> {
    Walk(s, 0, PassAction())
  }

  // -------------------------------------------------- what a pass removes, said on the old table

  /** The number of stopped clients immediately before j. */
  function RunBefore(s: seq<Entry>, j: nat): nat
    requires j <= |s|
  {
    if j > 0 && Stopped(s[j - 1]) then RunBefore(s, j - 1) + 1 else 0
  }

  /** The 1st, 3rd, 5th... of a run of adjacent stopped clients. */
  predicate Removed(s: seq<Entry>, j: nat)
    requires j < |s|
  {
    Stopped(s[j]) && RunBefore(s, j) % 2 == 0
  }

  /** The entries from j on that are not removed, in their order. */
  function Kept(s: seq<Entry>, j: nat): seq<Entry>
    requires j <= |s|
    decreases |s| - j
  {
    if j == |s| then [] else (if Removed(s, j) then [] else [s[j]]) + Kept(s, j + 1)
  }

  lemma {:induction false} RemovedIs(s: seq<Entry>, j: nat)
    requires j < |s|
    ensures Fate(s, j, PassAction()) == if Removed(s, j) then None else Some(s[j])
  {
    if j > 0 { RemovedIs(s, j - 1); }
  }

  lemma {:induction false} FatesAreKept(s: seq<Entry>, j: nat)
    requires j <= |s|
    ensures Fates(s, j, PassAction()) == Kept(s, j)
    decreases |s| - j
  {
    if j < |s| {
      RemovedIs(s, j);
      FatesAreKept(s, j + 1);
      hide Fate, Removed;
    }
  }

  /** One pass removes exactly the odd-numbered clients of every run of stopped ones. */
  lemma PassIsKept(s: seq<Entry>)
    ensures Pass(s) == Kept(s, 0)
  {
    WalkFates(s, PassAction());
    FatesAreKept(s, 0);
  }

  // -------------------------------------------------------------- progress over passes

  function Count(s: seq<Entry>): nat {
    if s == [] then 0 else (if Stopped(s[0]) then 1 else 0) + Count(s[1..])
  }

  /** The clients that are not stopped, in their order. */
  function Alive(s: seq<Entry>): seq<Entry> {
    if s == [] then [] else (if Stopped(s[0]) then [] else [s[0]]) + Alive(s[1..])
  }

  lemma Head(e: Entry, s: seq<Entry>)
    ensures Alive([e] + s) == (if Stopped(e) then [] else [e]) + Alive(s)
    ensures Count([e] + s) == (if Stopped(e) then 1 else 0) + Count(s)
  {
    assert ([e] + s)[1..] == s;
  }

  lemma KeptHead(s: seq<Entry>, j: nat)
    requires j < |s|
    ensures s[j..] == [s[j]] + s[j + 1..]
    ensures Kept(s, j) == if Removed(s, j) then Kept(s, j + 1) else [s[j]] + Kept(s, j + 1)
  {
  }

  /** A pass keeps every client that is not stopped, in order. */
  lemma {:induction false} KeptAlive(s: seq<Entry>, j: nat)
    requires j <= |s|
    ensures Alive(Kept(s, j)) == Alive(s[j..])
    decreases |s| - j
  {
    if j < |s| {
      KeptAlive(s, j + 1);
      KeptHead(s, j);
      Head(s[j], Kept(s, j + 1));
      Head(s[j], s[j + 1..]);
      hide Alive, Kept, RunBefore;
    }
  }

  /** At most half of the stopped clients survive a pass. */
  lemma {:induction false} KeptHalf(s: seq<Entry>, j: nat)
    requires j <= |s|
    ensures 2 * Count(Kept(s, j)) <= Count(s[j..]) + RunBefore(s, j) % 2
    decreases |s| - j
  {
    if j < |s| {
      KeptHalf(s, j + 1);
      KeptHead(s, j);
      Head(s[j], Kept(s, j + 1));
      Head(s[j], s[j + 1..]);
      hide Count, Kept;
    }
  }

  lemma {:induction false} NoneStopped(s: seq<Entry>)
    requires Count(s) == 0
    ensures Alive(s) == s
  {
    if s != [] { NoneStopped(s[1..]); }
  }

  function Passes(s: seq<Entry>, k: nat): seq<Entry>
    decreases k
  {
    if k == 0 then s else Passes(Pass(s), k - 1)
  }

  function Pow2(k: nat): nat {
    if k == 0 then 1 else 2 * Pow2(k - 1)
  }

  /** With the flags fixed, k passes remove every stopped client, and no other, once there are fewer than 2^k. */
  lemma {:induction false} PassesFinish(s: seq<Entry>, k: nat)
    requires Count(s) < Pow2(k)
    ensures Passes(s, k) == Alive(s)
    decreases k
  {
    assert s[0..] == s;
    PassIsKept(s);
    KeptAlive(s, 0);
    KeptHalf(s, 0);
    if k == 0 {
      NoneStopped(s);
    } else {
      PassesFinish(Pass(s), k - 1);
    }
  }
}
