/** The life of one connection over any run of the table's operations. */
module ConnLife {
  import opened Bytes
  import opened ConnTable

  /** What a connection may become: its protocol is set once, its thread and queue are created once. */
  ghost predicate Evolves(a: Entry, b: Entry) {
    && b.id == a.id && b.kind == a.kind && b.ip == a.ip && b.fd == a.fd && b.ctime == a.ctime
    && (a.protocol != Unknown ==> b.protocol == a.protocol)
    && (a.thread.Thread? ==> b.thread.Thread? && b.hasQueue && (a.thread.finished ==> b.thread.finished))
  }

  ghost predicate From(before: seq<Entry>, e: Entry) {
    exists i :: 0 <= i < |before| && Evolves(before[i], e)
  }

  /** Every entry of `after` is an old one that evolved, or a new connection with a later number. */
  ghost predicate Descends(before: seq<Entry>, nextId: nat, after: seq<Entry>) {
    forall j :: 0 <= j < |after| ==> after[j].id >= nextId || From(before, after[j])
  }

  lemma SameDescends(s: seq<Entry>, nextId: nat)
    requires forall i :: 0 <= i < |s| ==> EntryOk(s[i], nextId)
    ensures Descends(s, nextId, s)
  {
    forall j | 0 <= j < |s| ensures From(s, s[j]) {
      assert Evolves(s[j], s[j]);
    }
  }

  lemma RemoveDescends(s: seq<Entry>, nextId: nat, i: nat)
    requires i < |s| && Descends(s, nextId, s)
    ensures Descends(s, nextId, RemoveAt(s, i))
  {
    RemoveAtIndex(s, i);
    hide RemoveAt, From;
  }

  lemma UpdateDescends(s: seq<Entry>, nextId: nat, i: nat, e: Entry)
    requires i < |s| && Descends(s, nextId, s) && Evolves(s[i], e)
    ensures Descends(s, nextId, s[i := e])
  {
    assert From(s, e);
    hide From;
  }

  lemma AppendDescends(s: seq<Entry>, nextId: nat, kept: seq<Entry>, e: Entry)
    requires Descends(s, nextId, kept) && e.id >= nextId
    ensures Descends(s, nextId, kept + [e])
  {
    hide From;
  }

  lemma GoodDescends(t: Table)
    requires Inv(t)
    ensures Descends(t.entries, t.nextId, t.entries) && |t.fds| == |t.entries|
  {
    SameDescends(t.entries, t.nextId);
  }

  lemma RestoreDescends(t: Table, ip: string, c: Incoming)
    requires Inv(t)
    ensures Descends(t.entries, t.nextId, Restore(t, ip, c).0.entries) && Restore(t, ip, c).0.nextId == t.nextId
  {
    GoodDescends(t);
    NeverRestores(t, ip, c);
    hide Inv, Descends, FindByIp;
    var i := FindByIp(t.entries, ip);
    if i >= 0 { RemoveDescends(t.entries, t.nextId, i); }
  }

  lemma AcceptDescends(t: Table, c: Incoming)
    requires Inv(t)
    ensures var t' := AddConnection(t, c).0; Descends(t.entries, t.nextId, t'.entries) && t.nextId <= t'.nextId
  {
    hide Inv, Descends, Restore;
    GoodDescends(t);
    if c.ip.Some? {
      RestoreDescends(t, c.ip.value, c);
      var t1 := Restore(t, c.ip.value, c).0;
      AppendDescends(t.entries, t.nextId, t1.entries,
                     Entry(t1.nextId, ClientNet, c.ip, c.fd, c.now, Unknown, NoThread, false));
    }
  }

  lemma ChangeDescends(t: Table, op: Op)
    requires Inv(t) && (op.Login? || op.Start? || op.End?)
    ensures var t' := Apply(t, op); Descends(t.entries, t.nextId, t'.entries) && t.nextId <= t'.nextId
  {
    hide Inv, Descends;
    GoodDescends(t);
    if op.i < |t.entries| {
      GoodEntry(t, op.i);
      var e := Apply(t, op).entries[op.i];
      UpdateDescends(t.entries, t.nextId, op.i, e);
    }
  }

  lemma GoodEntry(t: Table, i: nat)
    requires Inv(t) && i < |t.entries|
    ensures EntryOk(t.entries[i], t.nextId)
  {
  }

  lemma StepDescends(t: Table, op: Op)
    requires Inv(t)
    ensures var t' := Apply(t, op); Descends(t.entries, t.nextId, t'.entries) && t.nextId <= t'.nextId
  {
    hide Inv, Descends, AddConnection;
    match op
    case Accept(c) => AcceptDescends(t, c);
    case Drop(i) =>
      GoodDescends(t);
      if i < |t.entries| { RemoveDescends(t.entries, t.nextId, i); }
    case Login(_, _, _) => ChangeDescends(t, op);
    case Start(_) => ChangeDescends(t, op);
    case End(_) => ChangeDescends(t, op);
  }

  lemma Compose(a: seq<Entry>, n: nat, b: seq<Entry>, m: nat, c: seq<Entry>)
    requires n <= m && Descends(a, n, b) && Descends(b, m, c)
    ensures Descends(a, n, c)
  {
    forall j | 0 <= j < |c| && c[j].id < n ensures From(a, c[j]) {
      assert From(b, c[j]);
      var i :| 0 <= i < |b| && Evolves(b[i], c[j]);
      assert From(a, b[i]);
      var k :| 0 <= k < |a| && Evolves(a[k], b[i]);
      assert Evolves(a[k], c[j]);
    }
  }

  lemma {:induction false} RunDescends(t: Table, ops: seq<Op>)
    requires Inv(t)
    ensures var t' := RunOps(t, ops); Inv(t') && Descends(t.entries, t.nextId, t'.entries) && t.nextId <= t'.nextId
  {
    if ops == [] {
      GoodDescends(t);
    } else {
      hide Inv, Apply, Descends;
      RunDescends(t, ops[..|ops| - 1]);
      var mid := RunOps(t, ops[..|ops| - 1]);
      ApplyKeeps(mid, ops[|ops| - 1]);
      StepDescends(mid, ops[|ops| - 1]);
      Compose(t.entries, t.nextId, mid.entries, mid.nextId, RunOps(t, ops).entries);
    }
  }

  /**
   Over every run, a connection that is still in the table keeps its address and descriptor, keeps its
   protocol once it has one, and keeps its thread and its queue once it has them.
   */
  lemma LifeCycle(t: Table, ops: seq<Op>, i: nat, j: nat)
    requires Inv(t) && i < |t.entries| && j < |RunOps(t, ops).entries|
    requires t.entries[i].id == RunOps(t, ops).entries[j].id
    ensures Evolves(t.entries[i], RunOps(t, ops).entries[j])
  {
    RunDescends(t, ops);
    var e := RunOps(t, ops).entries[j];
    assert EntryOk(t.entries[i], t.nextId);
    assert From(t.entries, e);
    var k :| 0 <= k < |t.entries| && Evolves(t.entries[k], e);
    assert i == k;
  }

  /** Numbers are not reused: an entry whose number was not in the table is a connection accepted later. */
  lemma NumbersAreNotReused(t: Table, ops: seq<Op>, j: nat)
    requires Inv(t) && j < |RunOps(t, ops).entries|
    requires forall i :: 0 <= i < |t.entries| ==> t.entries[i].id != RunOps(t, ops).entries[j].id
    ensures RunOps(t, ops).entries[j].id >= t.nextId
  {
    RunDescends(t, ops);
  }
}
