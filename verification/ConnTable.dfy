/**
 The connection table of the network server as a value: entry 0 listens, the others are clients. The
 module ConnServer keeps it in parallel arrays, as the program does.
 */
module ConnTable {
  import opened Bytes

  // ------------------------------------------------------------------- the entries

  datatype Kind = ServerLocal | ServerNet | ClientLocal | ClientNet | Application

  datatype Protocol = Unknown | V1 | V2

  /** threadinfo: absent until the client thread is created. */
  datatype Thread = NoThread | Thread(finished: bool, connectionStatus: int)

  /** struct conn_element_st; `id` numbers the connections in order of arrival. */
  datatype Entry = Entry(id: nat, kind: Kind, ip: Option<string>, fd: int, ctime: int,
                         protocol: Protocol, thread: Thread, hasQueue: bool)

  datatype Table = Table(entries: seq<Entry>, fds: seq<int>, nmax: nat, nclients: int, nclientsmax: int, nextId: nat)

  predicate IsClient(e: Entry) {
    e.kind == ClientLocal || e.kind == ClientNet
  }

  predicate IsNetClient(e: Entry) {
    e.kind == ClientNet
  }

  predicate Running(e: Entry) {
    IsNetClient(e) && e.thread.Thread? && !e.thread.finished
  }

  predicate Stopped(e: Entry) {
    IsNetClient(e) && e.thread.Thread? && e.thread.finished
  }

  function NetClients(entries: seq<Entry>): nat {
    if entries == [] then 0
    else NetClients(entries[..|entries| - 1]) + (if IsNetClient(entries[|entries| - 1]) then 1 else 0)
  }

  // ------------------------------------------------------------- adding and deleting

  /** conn_table_add_element_un(): -1 when the arrays are full and cannot grow. */
  function AddElement(t: Table, kind: Kind, ip: Option<string>, fd: int, now: int, growOk: bool): (Table, int) {
    if |t.entries| == t.nmax && !growOk then (t, -1) else
    var nmax := if |t.entries| == t.nmax then 2 * t.nmax else t.nmax;
    var e := Entry(t.nextId, kind, ip, fd, now, Unknown, NoThread, false);
    (Table(t.entries + [e], t.fds + [fd], nmax,
           if kind == ClientNet then t.nclients + 1 else t.nclients, t.nclientsmax, t.nextId + 1), 0)
  }

  /** conn_table_del_element_un(); the entry goes whatever releasing it returns. */
  function DelElement(t: Table, i: nat): Table
    requires i < |t.entries| && i < |t.fds|
  {
    t.(entries := RemoveAt(t.entries, i), fds := RemoveAt(t.fds, i),
       nclients := if IsNetClient(t.entries[i]) then t.nclients - 1 else t.nclients)
  }

  /** conn_table_find_element_byip(): the first entry with the address, or -1. */
  function FindByIp(entries: seq<Entry>, ip: string): (i: int)
    ensures -1 <= i < |entries|
    ensures i >= 0 ==> entries[i].ip == Some(ip)
    ensures forall j :: 0 <= j < |entries| && (i < 0 || j < i) ==> entries[j].ip != Some(ip)
  {
    FindFrom(entries, ip, 0)
  }

  function FindFrom(entries: seq<Entry>, ip: string, from: nat): (i: int)
    requires from <= |entries|
    ensures i == -1 || from <= i < |entries|
    ensures i >= 0 ==> entries[i].ip == Some(ip)
    ensures forall j :: from <= j < |entries| && (i < 0 || j < i) ==> entries[j].ip != Some(ip)
    decreases |entries| - from
  {
    if from == |entries| then -1
    else if entries[from].ip == Some(ip) then from
    else FindFrom(entries, ip, from + 1)
  }

  // ------------------------------------------------------------- accepting a client

  /** What the system says while a connection is accepted. */
  datatype Incoming = Incoming(ip: Option<string>, fd: int, now: int, lockOk: bool, deleteStatus: int, setStatus: int,
                               allowed: bool, growOk: bool)

  /** conn_element_get_connection_status(): 0 open, 1 closed, -1 unknown. */
  function ConnectionStatus(e: Entry, lockOk: bool): int {
    if e.thread.NoThread? then 0 else if !lockOk then -1 else e.thread.connectionStatus
  }

  /** poll_restore_connection(): -1 add the client, 0 restored, 1 give up. */
  function Restore(t: Table, ip: string, c: Incoming): (r: (Table, int))
    requires |t.fds| == |t.entries|
    ensures |r.0.fds| == |r.0.entries|
  {
    var i := FindByIp(t.entries, ip);
    if i == -1 then (t, -1) else
    var status := ConnectionStatus(t.entries[i], c.lockOk);
    if status == -1 || status == 0 then
      (DelElement(t, i), if c.deleteStatus == 0 then -1 else 1)
    else if c.setStatus != 0 || t.entries[i].thread.NoThread? then (t, 1)
    else
      var e := t.entries[i];
      (t.(entries := t.entries[i := e.(thread := e.thread.(connectionStatus := 0))], fds := t.fds[i := c.fd]), 0)
  }

  /** poll_add_connection_net() once accept has given a descriptor; -3 when the client is turned away. */
  function AddConnection(t: Table, c: Incoming): (r: (Table, int))
    requires |t.fds| == |t.entries|
    ensures |r.0.fds| == |r.0.entries|
  {
    if c.ip.None? then (t, -1) else
    var (t1, status) := Restore(t, c.ip.value, c);
    if status == 0 then (t1, 0)
    else if status == 1 then (t1, -3)
    else if !c.allowed then (t1, -3)
    else if t1.nclientsmax >= 0 && t1.nclients == t1.nclientsmax then (t1, -3)
    else AddElement(t1, ClientNet, c.ip, c.fd, c.now, c.growOk)
  }

  // ------------------------------------------------------- identifying and spawning

  const V1_STR: string := "V1"
  const V2_STR: string := "V2"

  function ProtocolOf(msg: string): Protocol {
    if |msg| >= 2 && msg[|msg| - 2..] == V1_STR then V1
    else if |msg| >= 2 && msg[|msg| - 2..] == V2_STR then V2
    else V1 // the default
  }

  /** ident_client_protocol(): set once, from the last two characters of the login message. */
  function Identify(t: Table, i: nat, msg: string, memOk: bool): Table
    requires i < |t.entries|
  {
    if t.entries[i].protocol != Unknown || !memOk then t
    else t.(entries := t.entries[i := t.entries[i].(protocol := ProtocolOf(msg))])
  }

  /** One turn of spawn_client_threads(), when the queue and the thread can be created. */
  function Spawn(t: Table, i: nat): Table
    requires i < |t.entries|
  {
    var e := t.entries[i];
    if e.thread.Thread? || !IsClient(e) || e.protocol == Unknown then t
    else t.(entries := t.entries[i := e.(thread := Thread(false, 0), hasQueue := true)])
  }

  /** A client thread sets its finished flag. */
  function Finish(t: Table, i: nat): Table
    requires i < |t.entries|
  {
    var e := t.entries[i];
    if e.thread.NoThread? then t
    else t.(entries := t.entries[i := e.(thread := e.thread.(finished := true))])
  }

  // ------------------------------------------------------------------------- runs

  /** An elementary operation; on an entry that is not there, or not a client, it does nothing. */
  datatype Op =
    | Accept(conn: Incoming)
    | Drop(i: nat)
    | Login(i: nat, msg: string, memOk: bool)
    | Start(i: nat)
    | End(i: nat)

  function Apply(t: Table, op: Op): (r: Table)
    requires |t.fds| == |t.entries|
    ensures |r.fds| == |r.entries|
  {
    match op
    case Accept(c) => AddConnection(t, c).0
    case Drop(i) => if i < |t.entries| && IsClient(t.entries[i]) then DelElement(t, i) else t
    case Login(i, msg, memOk) => if i < |t.entries| && IsClient(t.entries[i]) then Identify(t, i, msg, memOk) else t
    case Start(i) => if i < |t.entries| then Spawn(t, i) else t
    case End(i) => if i < |t.entries| then Finish(t, i) else t
  }

  /** conn_table_create() and the entry of the listening socket. */
  function Initial(maxClients: int, fd: int, now: int): Table {
    Table([Entry(0, ServerNet, None, fd, now, Unknown, NoThread, false)], [fd], 1, 0, maxClients, 1)
  }

  // -------------------------------------------------------------- the invariant

  ghost predicate EntryOk(e: Entry, nextId: nat) {
    && e.id < nextId
    && (e.hasQueue <==> e.thread.Thread?)
    && (e.thread.Thread? ==> IsClient(e) && e.protocol != Unknown && e.thread.connectionStatus == 0)
    && (IsNetClient(e) ==> e.ip.Some?)
  }

  ghost predicate UniqueIps(entries: seq<Entry>) {
    forall i, j :: 0 <= i < j < |entries| && entries[i].ip.Some? ==> entries[i].ip != entries[j].ip
  }

  ghost predicate UniqueIds(entries: seq<Entry>) {
    forall i, j :: 0 <= i < j < |entries| ==> entries[i].id < entries[j].id
  }

  ghost predicate Inv(t: Table) {
    && |t.fds| == |t.entries| <= t.nmax && 0 < |t.entries|
    && (forall i :: 0 <= i < |t.entries| ==> t.fds[i] == t.entries[i].fd)
    && t.nclients == NetClients(t.entries)
    && (t.nclientsmax >= 0 ==> t.nclients <= t.nclientsmax)
    && t.entries[0].kind == ServerNet && t.entries[0].id == 0 && t.entries[0].ip == None
    && (forall i :: 1 <= i < |t.entries| ==> t.entries[i].kind == ClientNet)
    && (forall i :: 0 <= i < |t.entries| ==> EntryOk(t.entries[i], t.nextId))
    && UniqueIps(t.entries) && UniqueIds(t.entries)
  }

  lemma {:induction false} NetClientsRemove(entries: seq<Entry>, i: nat)
    requires i < |entries|
    ensures NetClients(RemoveAt(entries, i)) == NetClients(entries) - (if IsNetClient(entries[i]) then 1 else 0)
  {
    var last := |entries| - 1;
    if i == last {
      assert RemoveAt(entries, i) == entries[..last];
    } else {
      NetClientsRemove(entries[..last], i);
      assert RemoveAt(entries, i)[..last - 1] == RemoveAt(entries[..last], i);
    }
  }

  lemma {:induction false} NetClientsUpdate(entries: seq<Entry>, i: nat, e: Entry)
    requires i < |entries| && e.kind == entries[i].kind
    ensures NetClients(entries[i := e]) == NetClients(entries)
  {
    var last := |entries| - 1;
    if i < last {
      NetClientsUpdate(entries[..last], i, e);
      assert entries[i := e][..last] == entries[..last][i := e];
    } else {
      assert entries[i := e][..last] == entries[..last];
    }
  }

  lemma RemoveKeepsUnique(entries: seq<Entry>, i: nat)
    requires i < |entries| && UniqueIps(entries) && UniqueIds(entries)
    ensures UniqueIps(RemoveAt(entries, i)) && UniqueIds(RemoveAt(entries, i))
  {
    RemoveAtIndex(entries, i);
    var r := RemoveAt(entries, i);
    hide RemoveAt;
    forall j, k | 0 <= j < k < |r| && r[j].ip.Some? ensures r[j].ip != r[k].ip {
      var j', k' := if j < i then j else j + 1, if k < i then k else k + 1;
      assert r[j] == entries[j'] && r[k] == entries[k'];
    }
    forall j, k | 0 <= j < k < |r| ensures r[j].id < r[k].id {
      var j', k' := if j < i then j else j + 1, if k < i then k else k + 1;
      assert r[j] == entries[j'] && r[k] == entries[k'];
    }
  }

  lemma DelKeeps(t: Table, i: nat)
    requires Inv(t) && 1 <= i < |t.entries|
    ensures Inv(DelElement(t, i))
  {
    hide EntryOk, NetClients, RemoveAt, UniqueIps, UniqueIds;
    NetClientsRemove(t.entries, i);
    RemoveAtIndex(t.entries, i);
    RemoveAtIndex(t.fds, i);
    RemoveKeepsUnique(t.entries, i);
  }

  lemma AppendKeepsUnique(entries: seq<Entry>, e: Entry)
    requires UniqueIps(entries) && UniqueIds(entries)
    requires forall k :: 0 <= k < |entries| ==> entries[k].ip != e.ip && entries[k].id < e.id
    ensures UniqueIps(entries + [e]) && UniqueIds(entries + [e])
  {
  }

  lemma AddKeeps(t: Table, ip: string, fd: int, now: int, growOk: bool)
    requires Inv(t) && (t.nclientsmax >= 0 ==> t.nclients < t.nclientsmax)
    requires forall k :: 0 <= k < |t.entries| ==> t.entries[k].ip != Some(ip)
    ensures Inv(AddElement(t, ClientNet, Some(ip), fd, now, growOk).0)
  {
    var e := Entry(t.nextId, ClientNet, Some(ip), fd, now, Unknown, NoThread, false);
    NetClientsAppend(t.entries, e);
    EntriesOkLater(t.entries, t.nextId);
    AppendKeepsUnique(t.entries, e);
    hide UniqueIps, UniqueIds, NetClients;
  }

  lemma NetClientsAppend(entries: seq<Entry>, e: Entry)
    ensures NetClients(entries + [e]) == NetClients(entries) + (if IsNetClient(e) then 1 else 0)
  {
    assert (entries + [e])[..|entries|] == entries;
  }

  lemma EntriesOkLater(entries: seq<Entry>, nextId: nat)
    requires forall k :: 0 <= k < |entries| ==> EntryOk(entries[k], nextId)
    ensures forall k :: 0 <= k < |entries| ==> EntryOk(entries[k], nextId + 1) && entries[k].id < nextId
  {
  }

  /** A change to one entry that keeps its kind, address, number and descriptor. */
  lemma UpdateKeeps(t: Table, i: nat, e: Entry)
    requires Inv(t) && i < |t.entries| && EntryOk(e, t.nextId)
    requires e.kind == t.entries[i].kind && e.ip == t.entries[i].ip
    requires e.id == t.entries[i].id && e.fd == t.entries[i].fd
    ensures Inv(t.(entries := t.entries[i := e]))
  {
    hide EntryOk, NetClients;
    NetClientsUpdate(t.entries, i, e);
  }

  /** In every good table the branch that restores a closed connection is not taken. */
  lemma NeverRestores(t: Table, ip: string, c: Incoming)
    requires Inv(t)
    ensures Restore(t, ip, c).1 != 0
    ensures forall i :: 0 <= i < |t.entries| ==> -1 <= ConnectionStatus(t.entries[i], c.lockOk) <= 0
  {
    forall i | 0 <= i < |t.entries| ensures -1 <= ConnectionStatus(t.entries[i], c.lockOk) <= 0 {
      assert EntryOk(t.entries[i], t.nextId);
    }
  }

  /** After the search for an old connection, no entry has the new client's address. */
  lemma RestoreKeeps(t: Table, ip: string, c: Incoming)
    requires Inv(t)
    ensures Inv(Restore(t, ip, c).0)
    ensures Restore(t, ip, c).0.nclientsmax == t.nclientsmax
    ensures forall k :: 0 <= k < |Restore(t, ip, c).0.entries| ==> Restore(t, ip, c).0.entries[k].ip != Some(ip)
  {
    hide EntryOk, NetClients, UniqueIds, FindFrom;
    var i := FindByIp(t.entries, ip);
    NeverRestores(t, ip, c);
    if i >= 0 {
      DelKeeps(t, i);
      var t' := DelElement(t, i);
      forall k | 0 <= k < |t'.entries| ensures t'.entries[k].ip != Some(ip) {
        assert t'.entries[k] == t.entries[if k < i then k else k + 1];
      }
    }
  }

  lemma ApplyKeeps(t: Table, op: Op)
    requires Inv(t)
    ensures Inv(Apply(t, op))
  {
    match op
    case Accept(c) =>
      if c.ip.Some? {
        RestoreKeeps(t, c.ip.value, c);
        NeverRestores(t, c.ip.value, c);
        var t1 := Restore(t, c.ip.value, c).0;
        hide Inv;
        if !(t1.nclientsmax >= 0 && t1.nclients == t1.nclientsmax) {
          BelowMax(t1);
          AddKeeps(t1, c.ip.value, c.fd, c.now, c.growOk);
        }
      }
    case Drop(i) =>
      if i < |t.entries| && IsClient(t.entries[i]) { DelKeeps(t, i); }
    case Login(i, msg, memOk) =>
      if i < |t.entries| && IsClient(t.entries[i]) {
        assert EntryOk(t.entries[i], t.nextId);
        UpdateKeeps(t, i, t.entries[i].(protocol := ProtocolOf(msg)));
      }
    case Start(i) =>
      if i < |t.entries| && IsClient(t.entries[i]) && t.entries[i].protocol != Unknown {
        assert EntryOk(t.entries[i], t.nextId);
        UpdateKeeps(t, i, t.entries[i].(thread := Thread(false, 0), hasQueue := true));
      }
    case End(i) =>
      if i < |t.entries| && t.entries[i].thread.Thread? {
        var e := t.entries[i];
        assert EntryOk(e, t.nextId);
        UpdateKeeps(t, i, e.(thread := e.thread.(finished := true)));
      }
  }

  lemma BelowMax(t: Table)
    requires Inv(t) && !(t.nclientsmax >= 0 && t.nclients == t.nclientsmax)
    ensures t.nclientsmax >= 0 ==> t.nclients < t.nclientsmax
  {
  }

  function RunOps(t: Table, ops: seq<Op>): (r: Table)
    requires |t.fds| == |t.entries|
    ensures |r.fds| == |r.entries|
  {
    if ops == [] then t else Apply(RunOps(t, ops[..|ops| - 1]), ops[|ops| - 1])
  }

  /**
   In every reachable state: the used part fits the arrays, the descriptors agree, the client count is
   right and within its limit, entry 0 is the listening server, no two entries share a client address,
   threads and queues belong to identified clients only, and no connection is marked closed.
   */
  lemma ReachableIsGood(maxClients: int, fd: int, now: int, ops: seq<Op>)
    ensures Inv(RunOps(Initial(maxClients, fd, now), ops))
  {
    InitialIsGood(maxClients, fd, now);
    RunKeeps(Initial(maxClients, fd, now), ops);
  }

  lemma InitialIsGood(maxClients: int, fd: int, now: int)
    ensures Inv(Initial(maxClients, fd, now))
  {
    assert Initial(maxClients, fd, now).entries[..0] == [];
  }

  // ----------------------------------------------------------------- reachability

  ghost predicate Reaches(t: Table, u: Table)
    requires |t.fds| == |t.entries|
  {
    exists ops :: RunOps(t, ops) == u
  }

  lemma ReachesSelf(t: Table)
    requires |t.fds| == |t.entries|
    ensures Reaches(t, t)
  {
    assert RunOps(t, []) == t;
  }

  lemma ReachesStep(t: Table, u: Table, op: Op)
    requires |t.fds| == |t.entries| && |u.fds| == |u.entries| && Reaches(t, u)
    ensures Reaches(t, Apply(u, op))
  {
    hide Apply;
    var ops :| RunOps(t, ops) == u;
    assert (ops + [op])[..|ops|] == ops;
    assert RunOps(t, ops + [op]) == Apply(u, op);
  }

  lemma {:induction false} RunConcat(t: Table, a: seq<Op>, b: seq<Op>)
    requires |t.fds| == |t.entries|
    ensures RunOps(t, a + b) == RunOps(RunOps(t, a), b)
  {
    hide Apply;
    if b == [] {
      assert a + b == a;
    } else {
      var last := |b| - 1;
      RunConcat(t, a, b[..last]);
      assert (a + b)[..|a + b| - 1] == a + b[..last];
    }
  }

  lemma ReachesOn(t: Table, u: Table, v: Table)
    requires |t.fds| == |t.entries| && |u.fds| == |u.entries| && Reaches(t, u) && Reaches(u, v)
    ensures Reaches(t, v)
  {
    var a :| RunOps(t, a) == u;
    var b :| RunOps(u, b) == v;
    RunConcat(t, a, b);
  }

  lemma {:induction false} RunKeeps(t: Table, ops: seq<Op>)
    requires Inv(t)
    ensures Inv(RunOps(t, ops))
  {
    assert |t.fds| == |t.entries|;
    hide Inv, Apply;
    if ops != [] {
      RunKeeps(t, ops[..|ops| - 1]);
      ApplyKeeps(RunOps(t, ops[..|ops| - 1]), ops[|ops| - 1]);
    }
  }

  lemma ReachesKeeps(t: Table, u: Table)
    requires Inv(t) && Reaches(t, u)
    ensures Inv(u)
  {
    assert |t.fds| == |t.entries|;
    hide Inv;
    var ops :| RunOps(t, ops) == u;
    RunKeeps(t, ops);
  }
}
