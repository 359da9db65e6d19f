/** Passes over a table that remove entries where they stand: which entries they look at, and which they skip. */
module TableWalk {
  import opened Bytes

  /**
   A pass over the table: each entry looked at is replaced, or removed where `act` gives nothing. After a
   removal the rest moves down by one and the index still moves on.
   */
  function Walk<T>(s: seq<T>, i: nat, act: (nat, T) -> Option<T>): seq<T>
    decreases |s| - i
  {
    if i >= |s| then s
    else match act(i, s[i])
      case Some(e) => Walk(s[i := e], i + 1, act)
      case None => Walk(RemoveAt(s, i), i + 1, act)
  }

  // ------------------------------------------------ the same, said on the old table

  /** How many of the first j entries are removed. */
  function Drops<T>(s: seq<T>, j: nat, act: (nat, T) -> Option<T>): (n: nat)
    requires j <= |s|
    ensures n <= j
    decreases j, 0
  {
    if j == 0 then 0 else Drops(s, j - 1, act) + if Fate(s, j - 1, act).None? then 1 else 0
  }

  /** An entry is skipped exactly when the one before it is removed; else it is looked at in its new place. */
  function Fate<T>(s: seq<T>, j: nat, act: (nat, T) -> Option<T>): Option<T>
    requires j < |s|
    decreases j, 1
  {
    if j > 0 && Fate(s, j - 1, act).None? then Some(s[j]) else act(j - Drops(s, j, act), s[j])
  }

  /** What is left of the entries from j on, in their order. */
  function Fates<T>(s: seq<T>, j: nat, act: (nat, T) -> Option<T>): seq<T>
    requires j <= |s|
    decreases |s| - j
  {
    if j == |s| then [] else
    (match Fate(s, j, act) case Some(e) => [e] case None => []) + Fates(s, j + 1, act)
  }

  /** Moving the index past the entry s[j]. */
  lemma Advance<T>(kept: seq<T>, s: seq<T>, j: nat, e: T)
    requires j < |s|
    ensures var now := kept + s[j..];
            && |now| > |kept| && now[|kept|] == s[j]
            && now[|kept| := e] == kept + [e] + s[j + 1..]
            && RemoveAt(now, |kept|) == kept + s[j + 1..]
  {
  }

  lemma {:induction false} WalkOn<T>(kept: seq<T>, s: seq<T>, j: nat, act: (nat, T) -> Option<T>)
    requires j <= |s| && |kept| == j - Drops(s, j, act) && (0 < j < |s| ==> Fate(s, j - 1, act).Some?)
    ensures Walk(kept + s[j..], |kept|, act) == kept + Fates(s, j, act)
    decreases |s| - j
  {
    if j == |s| {
      assert kept + s[j..] == kept + Fates(s, j, act);
    } else {
      var fate := act(|kept|, s[j]);
      assert Fate(s, j, act) == fate;
      match fate
      case Some(e) =>
        Advance(kept, s, j, e);
        WalkOn(kept + [e], s, j + 1, act);
        assert kept + [e] + Fates(s, j + 1, act) == kept + ([e] + Fates(s, j + 1, act));
      case None =>
        Advance(kept, s, j, s[j]);
        assert Fates(s, j, act) == Fates(s, j + 1, act);
        WalkSkip(kept, s, j + 1, act);
    }
  }

  lemma WalkSkip<T>(kept: seq<T>, s: seq<T>, j: nat, act: (nat, T) -> Option<T>)
    requires 0 < j <= |s| && |kept| == j - Drops(s, j, act) && Fate(s, j - 1, act).None?
    ensures Walk(kept + s[j..], |kept| + 1, act) == kept + Fates(s, j, act)
    decreases |s| - j
  {
    if j == |s| {
      assert kept + s[j..] == kept + Fates(s, j, act);
    } else {
      var e := s[j];
      assert Fate(s, j, act) == Some(e);
      assert kept + s[j..] == kept + [e] + s[j + 1..];
      WalkOn(kept + [e], s, j + 1, act);
      assert kept + [e] + Fates(s, j + 1, act) == kept + ([e] + Fates(s, j + 1, act));
    }
  }

  /** A pass is the fates of its entries, in order. */
  lemma WalkFates<T>(s: seq<T>, act: (nat, T) -> Option<T>)
    ensures Walk(s, 0, act) == Fates(s, 0, act)
  {
    WalkOn([], s, 0, act);
    assert [] + s[0..] == s && [] + Fates(s, 0, act) == Fates(s, 0, act);
  }

  lemma {:induction false} FateIn<T>(s: seq<T>, i: nat, j: nat, act: (nat, T) -> Option<T>)
    requires i <= j < |s|
    ensures Fate(s, j, act).Some? ==> Fate(s, j, act).value in Fates(s, i, act)
    decreases j - i
  {
    if i < j { FateIn(s, i + 1, j, act); }
  }

  /** An entry that no step changes is still there after the pass. */
  lemma WalkKeeps<T>(s: seq<T>, act: (nat, T) -> Option<T>, j: nat)
    requires j < |s| && forall k: nat :: act(k, s[j]) == Some(s[j])
    ensures s[j] in Walk(s, 0, act)
  {
    WalkFates(s, act);
    FateIn(s, 0, j, act);
  }

  /** Without removals every entry is changed, each in its place. */
  lemma {:induction false} WalkAll<T>(s: seq<T>, i: nat, act: (nat, T) -> Option<T>)
    requires forall k: nat, j :: i <= j < |s| ==> act(k, s[j]).Some?
    ensures |Walk(s, i, act)| == |s|
    ensures forall j :: 0 <= j < |s| ==> Walk(s, i, act)[j] == if j < i then s[j] else act(j, s[j]).value
    decreases |s| - i
  {
    if i < |s| { WalkAll(s[i := act(i, s[i]).value], i + 1, act); }
  }
}
