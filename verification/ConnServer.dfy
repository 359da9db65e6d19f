/** The connection table as the program keeps it: parallel arrays that grow, shift and are changed in place. */
module ConnServer {
  import opened Bytes
  import opened ConnTable
  import opened TableWalk
  import opened FinishedPass
  import opened ClientQueue

  /** revents of one descriptor, with what the calls made because of it will return. */
  datatype Event =
    | Quiet
    | Hup
    | Readable(peek: int, n: int, msg: string, memOk: bool)
    | Other

  /** realloc() that succeeds: a block of the new size that still starts with the n elements in use. */
  method Realloc<T(0)>(a: array<T>, n: nat, size: nat) returns (b: array<T>)
    requires n <= a.Length && n <= size
    ensures fresh(b) && b.Length == size && b[..n] == a[..n]
  {
    b := new T[size];
    for i := 0 to n
      invariant b[..i] == a[..i]
    {
      b[i] := a[i];
    }
  }

  /** memmove() of the elements above i down by one. */
  method ShiftDown<T>(a: array<T>, i: nat, n: nat)
    requires i < n <= a.Length
    modifies a
    ensures a[..n - 1] == RemoveAt(old(a[..n]), i)
  {
    for k := i to n - 1
      invariant forall j :: 0 <= j < i ==> a[j] == old(a[j])
      invariant forall j :: i <= j < k ==> a[j] == old(a[j + 1])
      invariant forall j :: k <= j < n ==> a[j] == old(a[j])
    {
      a[k] := a[k + 1];
    }
  }

  // ------------------------------------------------------- late and new clients

  /** A network client that has not said its protocol in time. */
  predicate Late(e: Entry, now: int, wait: int) {
    IsNetClient(e) && e.protocol == Unknown && now > e.ctime + wait
  }

  /** A late client is taken for a V1 client, or dropped when that cannot be stored. */
  function LateAction(now: int, wait: int, memOk: nat -> bool): (nat, Entry) -> Option<Entry> {
    (i: nat, e: Entry) => if !Late(e, now, wait) then Some(e) else if memOk(i) then Some(e.(protocol := V1)) else None
  }

  lemma V1Named()
    ensures ProtocolOf(V1_STR) == V1
  {
  }

  /** A client that is identified and has no thread yet. */
  predicate NeedsThread(e: Entry) {
    e.thread.NoThread? && IsClient(e) && e.protocol != Unknown
  }

  function WithThread(e: Entry): Entry {
    e.(thread := Thread(false, 0), hasQueue := true)
  }

  function SpawnAction(created: nat -> bool): (nat, Entry) -> Option<Entry> {
    (i: nat, e: Entry) => if !NeedsThread(e) then Some(e) else if created(i) then Some(WithThread(e)) else None
  }

  /** A late client right after a dropped one is skipped; another is taken for V1, or dropped. */
  ghost predicate LateFate(s: seq<Entry>, j: nat, now: int, wait: int, memOk: nat -> bool)
    requires j < |s|
  {
    var act := LateAction(now, wait, memOk);
    Fate(s, j, act) == if !Late(s[j], now, wait) || (j > 0 && Fate(s, j - 1, act).None?) then Some(s[j])
                       else if memOk(j - Drops(s, j, act)) then Some(s[j].(protocol := V1)) else None
  }

  /** An identified client right after a dropped one is skipped; another gets its thread, or is dropped. */
  ghost predicate SpawnFate(s: seq<Entry>, j: nat, created: nat -> bool)
    requires j < |s|
  {
    var act := SpawnAction(created);
    Fate(s, j, act) == if !NeedsThread(s[j]) || (j > 0 && Fate(s, j - 1, act).None?) then Some(s[j])
                       else if created(j - Drops(s, j, act)) then Some(WithThread(s[j])) else None
  }

  /**
   process_unidentified_connections(): a late client is skipped exactly when the entry before it was
   dropped; every other late client becomes a V1 client or is dropped because that cannot be stored. Clients
   that are not late are never touched, and when nothing fails none is late afterwards.
   */
  lemma LateClients(s: seq<Entry>, now: int, wait: int, memOk: nat -> bool)
    ensures var act := LateAction(now, wait, memOk);
            && Walk(s, 0, act) == Fates(s, 0, act)
            && (forall j :: 0 <= j < |s| ==> LateFate(s, j, now, wait, memOk))
            && (forall j :: 0 <= j < |s| && !Late(s[j], now, wait) ==> s[j] in Walk(s, 0, act))
    ensures (forall i :: memOk(i)) ==>
              var s' := Walk(s, 0, LateAction(now, wait, memOk));
              && |s'| == |s|
              && (forall j :: 0 <= j < |s| ==> !Late(s'[j], now, wait))
              && (forall j :: 0 <= j < |s| ==> s'[j] == if Late(s[j], now, wait) then s[j].(protocol := V1) else s[j])
  {
    var act := LateAction(now, wait, memOk);
    WalkFates(s, act);
    forall j | 0 <= j < |s| ensures LateFate(s, j, now, wait, memOk) {
    }
    forall j | 0 <= j < |s| && !Late(s[j], now, wait) ensures s[j] in Walk(s, 0, act) {
      WalkKeeps(s, act, j);
    }
    if forall i :: memOk(i) { WalkAll(s, 0, act); }
  }

  /**
   spawn_client_threads(): an identified client without a thread is skipped exactly when the entry before
   it was dropped; every other one gets its thread and queue or is dropped because they cannot be created.
   The other clients are never touched, and when nothing fails every identified client has a thread afterwards.
   */
  lemma SpawnedClients(s: seq<Entry>, created: nat -> bool)
    ensures var act := SpawnAction(created);
            && Walk(s, 0, act) == Fates(s, 0, act)
            && (forall j :: 0 <= j < |s| ==> SpawnFate(s, j, created))
            && (forall j :: 0 <= j < |s| && !NeedsThread(s[j]) ==> s[j] in Walk(s, 0, act))
    ensures (forall i :: created(i)) ==>
              var s' := Walk(s, 0, SpawnAction(created));
              && |s'| == |s|
              && (forall j :: 0 <= j < |s| ==> !NeedsThread(s'[j]))
              && (forall j :: 0 <= j < |s| ==> s'[j] == if NeedsThread(s[j]) then WithThread(s[j]) else s[j])
  {
    var act := SpawnAction(created);
    WalkFates(s, act);
    forall j | 0 <= j < |s| ensures SpawnFate(s, j, created) {
    }
    forall j | 0 <= j < |s| && !NeedsThread(s[j]) ensures s[j] in Walk(s, 0, act) {
      WalkKeeps(s, act, j);
    }
    if forall i :: created(i) { WalkAll(s, 0, act); }
  }

  // ----------------------------------------------------------- what polling does to a client

  /** handle_client() on one entry; nothing is left of it when the client is turned away. */
  function Handled(e: Entry, event: Event, v2Only: bool): Option<Entry>
    requires event.Readable?
  {
    if event.n <= 0 then None else
    var e' := if e.protocol == Unknown && event.memOk then e.(protocol := ProtocolOf(event.msg)) else e;
    if v2Only && e'.protocol != V2 then None else Some(e')
  }

  /** The second loop of poll_loop_wait() on one entry. */
  function Polled(e: Entry, event: Event, v2Only: bool): Option<Entry> {
    if e.kind == ServerNet || e.kind == ServerLocal then Some(e)
    else match event
      case Quiet => Some(e)
      case Other => Some(e)
      case Hup => None
      case Readable(peek, _, _, _) => if peek <= 0 then None else Handled(e, event, v2Only)
  }

  function Served(s: seq<Entry>, i: nat, e: Option<Entry>): seq<Entry>
    requires i < |s|
  {
    if e.Some? then s[i := e.value] else RemoveAt(s, i)
  }

  function PollFrom(s: seq<Entry>, events: seq<Event>, i: nat, v2Only: bool): seq<Entry>
    requires |events| == |s|
    decreases |s| - i
  {
    if i >= |s| then s
    else match Polled(s[i], events[i], v2Only)
      case Some(e) => PollFrom(s[i := e], events, i + 1, v2Only)
      case None => PollFrom(RemoveAt(s, i), RemoveAt(events, i), i + 1, v2Only)
  }

  /** poll_restore_connection() takes the events of a deleted entry with it. */
  function RestoreEvents(t: Table, events: seq<Event>, ip: string, c: Incoming): (r: seq<Event>)
    requires |t.fds| == |t.entries| == |events|
    ensures |r| == |Restore(t, ip, c).0.entries|
  {
    var i := FindByIp(t.entries, ip);
    if i >= 0 && (ConnectionStatus(t.entries[i], c.lockOk) == -1 || ConnectionStatus(t.entries[i], c.lockOk) == 0)
    then RemoveAt(events, i) else events
  }

  /** The events after poll_add_connection_net(): a new entry has none. */
  function EventsAfter(t: Table, events: seq<Event>, c: Incoming): (r: seq<Event>)
    requires |t.fds| == |t.entries| == |events|
    ensures |r| == |AddConnection(t, c).0.entries|
  {
    if c.ip.None? then events else
    var kept := RestoreEvents(t, events, c.ip.value, c);
    if |AddConnection(t, c).0.entries| > |kept| then kept + [Quiet] else kept
  }

  /** A client without an event is still there, unchanged, after the loop. */
  lemma {:induction false} QuietStay(s: seq<Entry>, events: seq<Event>, i: nat, v2Only: bool, j: nat)
    requires |events| == |s| && j < |s| && events[j] == Quiet
    ensures s[j] in PollFrom(s, events, i, v2Only)
    decreases |s| - i
  {
    if i < |s| {
      var p := Polled(s[i], events[i], v2Only);
      if p.Some? {
        assert s[i := p.value][j] == s[j];
        QuietStay(s[i := p.value], events, i + 1, v2Only, j);
      } else {
        var j' := if j < i then j else j - 1;
        assert RemoveAt(s, i)[j'] == s[j] && RemoveAt(events, i)[j'] == Quiet;
        QuietStay(RemoveAt(s, i), RemoveAt(events, i), i + 1, v2Only, j');
      }
    }
  }

  // -------------------------------------------------------- which clients polling skips

  function Paired(s: seq<Entry>, events: seq<Event>): (r: seq<(Entry, Event)>)
    requires |events| == |s|
    ensures |r| == |s| && forall i :: 0 <= i < |s| ==> r[i] == (s[i], events[i])
  {
    seq(|s|, i requires 0 <= i < |s| => (s[i], events[i]))
  }

  function Entries(ps: seq<(Entry, Event)>): (r: seq<Entry>)
    ensures |r| == |ps| && forall i :: 0 <= i < |ps| ==> r[i] == ps[i].0
  {
    seq(|ps|, i requires 0 <= i < |ps| => ps[i].0)
  }

  function PollAction(v2Only: bool): (nat, (Entry, Event)) -> Option<(Entry, Event)> {
    (i: nat, p: (Entry, Event)) =>
      match Polled(p.0, p.1, v2Only) case Some(e) => Some((e, p.1)) case None => None
  }

  lemma {:induction false} PollIsWalk(s: seq<Entry>, events: seq<Event>, i: nat, v2Only: bool)
    requires |events| == |s|
    ensures PollFrom(s, events, i, v2Only) == Entries(Walk(Paired(s, events), i, PollAction(v2Only)))
    decreases |s| - i
  {
    var ps := Paired(s, events);
    if i >= |s| {
      assert Entries(ps) == s;
    } else {
      match Polled(s[i], events[i], v2Only)
      case Some(e) =>
        PollIsWalk(s[i := e], events, i + 1, v2Only);
        assert Paired(s[i := e], events) == ps[i := (e, events[i])];
      case None =>
        PollIsWalk(RemoveAt(s, i), RemoveAt(events, i), i + 1, v2Only);
        assert Paired(RemoveAt(s, i), RemoveAt(events, i)) == RemoveAt(ps, i);
    }
  }

  /** A client right after a dropped one is skipped, whatever its event; another is served. */
  ghost predicate PollFate(s: seq<Entry>, events: seq<Event>, j: nat, v2Only: bool)
    requires |events| == |s| && j < |s|
  {
    var ps, act := Paired(s, events), PollAction(v2Only);
    Fate(ps, j, act) == if j > 0 && Fate(ps, j - 1, act).None? then Some(ps[j])
                        else match Polled(s[j], events[j], v2Only)
                          case Some(e) => Some((e, events[j]))
                          case None => None
  }

  /**
   The loop over the clients: a client is skipped, with its event, exactly when the entry before it was
   dropped, and every other client is served.
   */
  lemma PollFates(s: seq<Entry>, events: seq<Event>, v2Only: bool)
    requires |events| == |s|
    ensures var ps, act := Paired(s, events), PollAction(v2Only);
            && PollFrom(s, events, 0, v2Only) == Entries(Fates(ps, 0, act))
            && (forall j :: 0 <= j < |s| ==> PollFate(s, events, j, v2Only))
  {
    PollIsWalk(s, events, 0, v2Only);
    WalkFates(Paired(s, events), PollAction(v2Only));
    forall j | 0 <= j < |s| ensures PollFate(s, events, j, v2Only) {
    }
  }

  lemma PollStep(s: seq<Entry>, events: seq<Event>, i: nat, v2Only: bool)
    requires |events| == |s| && i < |s|
    ensures var p := Polled(s[i], events[i], v2Only);
            var events' := if p.Some? then events else RemoveAt(events, i);
            && |Served(s, i, p)| == |events'|
            && PollFrom(s, events, i, v2Only) == PollFrom(Served(s, i, p), events', i + 1, v2Only)
  {
  }

  lemma PollEnd(s: seq<Entry>, events: seq<Event>, i: nat, v2Only: bool)
    requires |events| == |s| <= i
    ensures PollFrom(s, events, i, v2Only) == s
  {
  }

  lemma RemoveUpdated(s: seq<Entry>, i: nat, e: Entry)
    requires i < |s|
    ensures RemoveAt(s[i := e], i) == RemoveAt(s, i)
  {
  }

  lemma SomeEntry(t: Table)
    requires Inv(t)
    ensures 0 < |t.entries| == |t.fds|
  {
  }

  lemma KindsOf(t: Table, i: nat)
    requires Inv(t) && i < |t.entries|
    ensures t.entries[i].kind == if i == 0 then ServerNet else ClientNet
  {
  }

  /** accept() on the listening socket, followed by the lookup of the peer. */
  datatype Accepted = Refused(code: int) | Conn(c: Incoming)

  /** What the loop over the listening sockets does; there is one. */
  function AfterServers(t: Table, events: seq<Event>, accepted: Accepted): (Table, seq<Event>, int)
    requires |t.fds| == |t.entries| == |events| && 0 < |events|
  {
    if !events[0].Readable? then (t, events, 0)
    else match accepted
      case Refused(code) => (t, events, code)
      case Conn(c) => (AddConnection(t, c).0, EventsAfter(t, events, c), AddConnection(t, c).1)
  }

  /**
   When a connection is taken, a client without an event stays unless it came from the same address, and
   so does the new client, which is not mistaken for a ready one.
   */
  lemma PollSpares(t: Table, events: seq<Event>, c: Incoming, v2Only: bool)
    requires Inv(t) && |events| == |t.entries| && events[0].Readable? && AddConnection(t, c).1 == 0
    ensures var s := PollFrom(AddConnection(t, c).0.entries, EventsAfter(t, events, c), 0, v2Only);
            && (forall j :: 0 <= j < |events| && events[j] == Quiet && t.entries[j].ip != c.ip ==> t.entries[j] in s)
            && Entry(t.nextId, ClientNet, c.ip, c.fd, c.now, Unknown, NoThread, false) in s
  {
    NeverRestores(t, c.ip.value, c);
    var t', events' := AddConnection(t, c).0, EventsAfter(t, events, c);
    var i := FindByIp(t.entries, c.ip.value);
    QuietStay(t'.entries, events', 0, v2Only, |events'| - 1);
    hide Inv, FindByIp, PollFrom;
    forall j | 0 <= j < |events| && events[j] == Quiet && t.entries[j].ip != c.ip
      ensures t.entries[j] in PollFrom(t'.entries, events', 0, v2Only)
    {
      var j' := if i < 0 || j < i then j else j - 1;
      assert t'.entries[j'] == t.entries[j] && events'[j'] == events[j];
      QuietStay(t'.entries, events', 0, v2Only, j');
    }
  }

  lemma NoNetClients(t: Table)
    requires Inv(t) && t.nclients == 0
    ensures forall j :: 0 <= j < |t.entries| ==> !Running(t.entries[j])
  {
    hide Inv;
    assert NetClients(t.entries) == 0 by { CountOf(t); }
    NoneCounted(t.entries);
  }

  lemma CountOf(t: Table)
    requires Inv(t)
    ensures t.nclients == NetClients(t.entries)
  {
  }

  lemma {:induction false} NoneCounted(s: seq<Entry>)
    requires NetClients(s) == 0
    ensures forall j :: 0 <= j < |s| ==> !IsNetClient(s[j])
  {
    if s != [] { NoneCounted(s[..|s| - 1]); }
  }

  lemma KindsAndIds(t: Table)
    requires Inv(t)
    ensures forall j :: 0 <= j < |t.entries| && Running(t.entries[j]) ==> t.entries[j].protocol != Unknown
    ensures UniqueIds(t.entries)
  {
    forall j | 0 <= j < |t.entries| && Running(t.entries[j]) ensures t.entries[j].protocol != Unknown {
      assert EntryOk(t.entries[j], t.nextId);
    }
  }

  function FrameFor(p: Protocol, v1: seq<byte>, v2: seq<byte>): seq<byte> {
    if p == V1 then v1 else v2
  }

  /**
   The packet went once into the queue of every client that was running when the loop came to it, in the
   frame of its protocol, and the queues of all other connections are as they were. `ends` tells which
   threads end before that.
   */
  ghost predicate Offered(s: seq<Entry>, v1: seq<byte>, v2: seq<byte>, queues: map<nat, Channel>, lim: Limits,
                          ends: nat -> bool, putOk: nat -> bool, sent: map<nat, Channel>)
    requires |v1| <= RECORD_SIZE && |v2| <= RECORD_SIZE
  {
    && (forall j :: 0 <= j < |s| && Running(s[j]) && !ends(j) ==>
          && s[j].id in queues && s[j].id in sent
          && sent[s[j].id] == Snd(queues[s[j].id], lim, Padded(FrameFor(s[j].protocol, v1, v2)), putOk(j)).0)
    && (forall id ::
          id in queues && id in sent && (forall j :: 0 <= j < |s| && Running(s[j]) && !ends(j) ==> s[j].id != id) ==>
          sent[id] == queues[id])
  }

  lemma OfferedNone(v1: seq<byte>, v2: seq<byte>, queues: map<nat, Channel>, lim: Limits,
                    ends: nat -> bool, putOk: nat -> bool)
    requires |v1| <= RECORD_SIZE && |v2| <= RECORD_SIZE
    ensures Offered([], v1, v2, queues, lim, ends, putOk, queues)
  {
  }

  lemma OfferedIdle(s: seq<Entry>, v1: seq<byte>, v2: seq<byte>, queues: map<nat, Channel>, lim: Limits,
                    ends: nat -> bool, putOk: nat -> bool)
    requires |v1| <= RECORD_SIZE && |v2| <= RECORD_SIZE && forall j :: 0 <= j < |s| ==> !Running(s[j])
    ensures Offered(s, v1, v2, queues, lim, ends, putOk, queues)
  {
    hide Snd, Padded;
  }

  lemma OfferedStep(s: seq<Entry>, i: nat, v1: seq<byte>, v2: seq<byte>, queues: map<nat, Channel>, lim: Limits,
                    ends: nat -> bool, putOk: nat -> bool, sent: map<nat, Channel>)
    requires |v1| <= RECORD_SIZE && |v2| <= RECORD_SIZE && i < |s|
    requires Offered(s[..i], v1, v2, queues, lim, ends, putOk, sent) && sent.Keys == queues.Keys
    requires UniqueIds(s) && (Running(s[i]) ==> s[i].id in queues)
    ensures !Running(s[i]) || ends(i) ==> Offered(s[..i + 1], v1, v2, queues, lim, ends, putOk, sent)
    ensures Running(s[i]) && !ends(i) ==> Offered(s[..i + 1], v1, v2, queues, lim, ends, putOk,
              sent[s[i].id := Snd(sent[s[i].id], lim, Padded(FrameFor(s[i].protocol, v1, v2)), putOk(i)).0])
  {
    hide Snd, Padded;
    var r := s[..i + 1];
    assert forall j :: 0 <= j < i ==> r[j] == s[..i][j] && r[j].id < s[i].id;
    assert r[i] == s[i];
    hide UniqueIds;
  }

  /** poll_loop_wait() on a table: accept first, then the clients, unless the new one was turned away. */
  ghost predicate PollResult(t: Table, pollStatus: int, polled: seq<Event>, accepted: Accepted, v2Only: bool,
                             t': Table, status: int)
    requires |t.fds| == |t.entries| == |polled| && 0 < |polled|
  {
    if pollStatus == -1 || pollStatus == 0 then status == pollStatus && t' == t
    else
      var (t1, events, added) := AfterServers(t, polled, accepted);
      && status == (if added == -1 then -2 else 0)
      && (added == 0 ==> |events| == |t1.entries| && t'.entries == PollFrom(t1.entries, events, 0, v2Only))
      && (added != 0 ==> t' == t1)
  }

  /** The entries when the sockets are polled: finished clients passed over, late ones identified, threads started. */
  function Prepared(s: seq<Entry>, now: int, wait: int, memOk: nat -> bool, created: nat -> bool): seq<Entry> {
    Walk(Walk(Pass(s), 0, LateAction(now, wait, memOk)), 0, SpawnAction(created))
  }

  ghost predicate PolledFrom(t: Table, s: seq<Entry>, pollStatus: int, poll: nat -> Event, accepted: Accepted,
                             v2Only: bool, t': Table, status: int) {
    && t.entries == s && |t.fds| == |t.entries| && 0 < |t.entries|
    && PollResult(t, pollStatus, seq(|t.entries|, poll), accepted, v2Only, t', status)
  }

  class ConnectionTable {
    var ce: array<Entry>
    var fds: array<int>
    var events: array<Event>
    var n: nat
    var nmax: nat
    var nclients: int
    var nclientsmax: int
    var nextId: nat

    ghost predicate Valid()
      reads this
    {
      && ce.Length == fds.Length == events.Length == nmax
      && n <= nmax && 0 < nmax
    }

    twostate predicate SameArrays()
      reads this
    {
      ce == old(ce) && fds == old(fds) && events == old(events)
    }

    /** Each array is the old one or was allocated since. */
    twostate predicate OldOrNewArrays()
      reads this
    {
      (ce == old(ce) || fresh(ce)) && (fds == old(fds) || fresh(fds)) && (events == old(events) || fresh(events))
    }

    ghost function Contents(): Table
      requires Valid()
      reads this, ce, fds
    {
      Table(ce[..n], fds[..n], nmax, nclients, nclientsmax, nextId)
    }

    ghost function Events(): seq<Event>
      requires Valid()
      reads this, events
    {
      events[..n]
    }

    /** conn_table_create() and the entry of the listening socket. */
    constructor (maxClients: int, fd: int, now: int)
      ensures Valid() && fresh(ce) && fresh(fds) && fresh(events)
      ensures Contents() == Initial(maxClients, fd, now)
    {
      ce := new Entry[1](_ => Entry(0, ServerNet, None, fd, now, Unknown, NoThread, false));
      fds := new int[1](_ => fd);
      events := new Event[1](_ => Quiet);
      n, nmax, nclients, nclientsmax, nextId := 1, 1, 0, maxClients, 1;
      new;
      assert ce[..1] == [ce[0]] && fds[..1] == [fds[0]];
    }

    /** conn_table_grow(): when the second block cannot be had, the first goes back to its old size. */
    method Grow(pfdOk: bool, ceOk: bool) returns (status: int)
      requires Valid()
      modifies this
      ensures Valid() && OldOrNewArrays()
      ensures status == if pfdOk && ceOk then 0 else -1
      ensures Contents() == old(Contents()).(nmax := if pfdOk && ceOk then 2 * old(nmax) else old(nmax))
      ensures Events() == old(Events())
    {
      if !pfdOk { return -1; }
      var fds' := Realloc(fds, n, 2 * nmax);
      var events' := Realloc(events, n, 2 * nmax);
      if !ceOk {
        fds := Realloc(fds', n, nmax);
        events := Realloc(events', n, nmax);
        return -1;
      }
      var ce' := Realloc(ce, n, 2 * nmax);
      ce, fds, events, nmax := ce', fds', events', 2 * nmax;
      return 0;
    }

    /** The new entry, once there is room for it. */
    method Append(kind: Kind, ip: Option<string>, fd: int, now: int)
      requires Valid() && n < nmax
      modifies this, ce, fds, events
      ensures Valid() && SameArrays()
      ensures Contents() == ConnTable.AddElement(old(Contents()), kind, ip, fd, now, false).0
      ensures Events() == old(Events()) + [Quiet]
    {
      fds[n], events[n] := fd, Quiet;
      ce[n] := Entry(nextId, kind, ip, fd, now, Unknown, NoThread, false);
      n, nextId := n + 1, nextId + 1;
      if kind == ClientNet { nclients := nclients + 1; }
    }

    /** conn_table_add_element_un() */
    method AddElement(kind: Kind, ip: Option<string>, fd: int, now: int, pfdOk: bool, ceOk: bool)
      returns (status: int)
      requires Valid()
      modifies this, ce, fds, events
      ensures Valid() && OldOrNewArrays()
      ensures (Contents(), status) == ConnTable.AddElement(old(Contents()), kind, ip, fd, now, pfdOk && ceOk)
      ensures Events() == if status == 0 then old(Events()) + [Quiet] else old(Events())
    {
      if n == nmax {
        status := Grow(pfdOk, ceOk);
        if status != 0 { return -1; }
      }
      Append(kind, ip, fd, now);
      return 0;
    }

    /** conn_table_del_element_un(), given what releasing the entry and closing its descriptor return. */
    method DelElement(i: nat, releaseStatus: int, closeStatus: int) returns (status: int)
      requires Valid() && i < n
      modifies this, ce, fds, events
      ensures Valid() && SameArrays()
      ensures Contents() == ConnTable.DelElement(old(Contents()), i)
      ensures Events() == RemoveAt(old(Events()), i)
      ensures status == 0 <==> releaseStatus == 0 && (old(fds[i]) == -1 || !IsClient(old(ce[i])) || closeStatus == 0)
    {
      hide RemoveAt;
      var isClient, isNetClient := IsClient(ce[i]), IsNetClient(ce[i]);
      status := releaseStatus;
      if fds[i] != -1 && isClient && status == 0 { status := closeStatus; }
      ShiftDown(fds, i, n);
      ShiftDown(events, i, n);
      ShiftDown(ce, i, n);
      n := n - 1;
      if isNetClient { nclients := nclients - 1; }
    }

    /** conn_table_find_element_byip() */
    method FindByIp(ip: string) returns (i: int)
      requires Valid()
      ensures i == ConnTable.FindByIp(Contents().entries, ip)
    {
      i := 0;
      while i < n
        invariant 0 <= i <= n
        invariant ConnTable.FindByIp(ce[..n], ip) == FindFrom(ce[..n], ip, i)
      {
        if ce[i].ip == Some(ip) { return; }
        i := i + 1;
      }
      i := -1;
    }

    /** poll_restore_connection() */
    method Restore(ip: string, c: Incoming) returns (status: int)
      requires Valid()
      modifies this, ce, fds, events
      ensures Valid() && SameArrays()
      ensures (Contents(), status) == ConnTable.Restore(old(Contents()), ip, c)
      ensures Events() == RestoreEvents(old(Contents()), old(Events()), ip, c)
    {
      var i := FindByIp(ip);
      if i == -1 { return -1; }
      var open := ConnectionStatus(ce[i], c.lockOk);
      if open == -1 || open == 0 {
        status := DelElement(i, c.deleteStatus, 0);
        return if status == 0 then -1 else 1;
      }
      if c.setStatus != 0 || ce[i].thread.NoThread? { return 1; }
      ghost var t := Contents();
      ce[i] := ce[i].(thread := ce[i].thread.(connectionStatus := 0));
      fds[i] := c.fd;
      assert ce[..n] == t.entries[i := ce[i]] && fds[..n] == t.fds[i := c.fd];
      return 0;
    }

    /** poll_add_connection_net() */
    method AddConnection(c: Incoming) returns (status: int)
      requires Valid()
      modifies this, ce, fds, events
      ensures Valid() && OldOrNewArrays()
      ensures (Contents(), status) == ConnTable.AddConnection(old(Contents()), c)
      ensures Events() == EventsAfter(old(Contents()), old(Events()), c)
    {
      hide ConnTable.Restore, RestoreEvents;
      if c.ip.None? { return -1; }
      status := Restore(c.ip.value, c);
      if status == 0 { return 0; }
      if status == 1 { return -3; }
      if !c.allowed { return -3; }
      if nclientsmax >= 0 && nclients == nclientsmax { return -3; }
      status := AddElement(ClientNet, c.ip, c.fd, c.now, c.growOk, c.growOk);
    }

    // ------------------------------------------------------- the passes over the table

    /** poll_kill_client_connection(); what it returns is ignored. */
    method Kill(i: nat)
      requires Valid() && i < n
      modifies this, ce, fds, events
      ensures Valid() && SameArrays()
      ensures Contents() == ConnTable.DelElement(old(Contents()), i)
      ensures Events() == RemoveAt(old(Events()), i)
    {
      var released: int, closed: int := *, *;
      var _ := DelElement(i, released, closed);
    }

    /** process_finished_connections() */
    method ProcessFinished()
      requires Valid()
      modifies this, ce, fds, events
      ensures Valid() && SameArrays()
      ensures Contents().entries == Pass(old(Contents()).entries)
      ensures Reaches(old(Contents()), Contents())
    {
      ReachesSelf(Contents());
      var i, numentries := 0, n;
      while i < numentries
        invariant Valid() && SameArrays() && 0 <= i && numentries == n
        invariant Walk(ce[..n], i, PassAction()) == Pass(old(ce[..n]))
        invariant Reaches(old(Contents()), Contents())
      {
        hide RunOps, Reaches;
        assert ce[..n][i := ce[i]] == ce[..n];
        if Stopped(ce[i]) {
          ReachesStep(old(Contents()), Contents(), Drop(i));
          Kill(i);
          numentries := n;
        }
        i := i + 1;
      }
    }

    /** ident_client_protocol(): 0 identified, 1 the default was used, 2 already known, -1 no memory. */
    method Identify(i: nat, msg: string, memOk: bool) returns (r: int)
      requires Valid() && i < n
      modifies ce
      ensures Contents() == ConnTable.Identify(old(Contents()), i, msg, memOk)
      ensures r == if old(ce[i]).protocol != Unknown then 2 else if !memOk then -1
                   else if |msg| >= 2 && msg[|msg| - 2..] in {V1_STR, V2_STR} then 0 else 1
    {
      if ce[i].protocol != Unknown { return 2; }
      var p := V1;
      r := 1;
      if |msg| >= 2 && msg[|msg| - 2..] == V1_STR {
        p, r := V1, 0;
      }
      if r == 1 && |msg| >= 2 && msg[|msg| - 2..] == V2_STR {
        p, r := V2, 0;
      }
      if !memOk { return -1; }
      ghost var t := Contents();
      ce[i] := ce[i].(protocol := p);
      assert ce[..n] == t.entries[i := ce[i]];
    }

    /** One turn of process_unidentified_connections() */
    method IdentifyLate(i: nat, now: int, wait: int, memOk: nat -> bool)
      requires Valid() && i < n
      modifies this, ce, fds, events
      ensures Valid() && SameArrays()
      ensures Contents().entries == Served(old(Contents()).entries, i, LateAction(now, wait, memOk)(i, old(ce[i])))
      ensures Reaches(old(Contents()), Contents())
    {
      ReachesSelf(Contents());
      assert ce[..n][i := ce[i]] == ce[..n];
      V1Named();
      hide RunOps, Reaches, RemoveAt, ProtocolOf;
      if Late(ce[i], now, wait) {
        if memOk(i) {
          ReachesStep(old(Contents()), Contents(), Login(i, V1_STR, true));
          var _ := Identify(i, V1_STR, true);
        } else {
          var _ := Identify(i, V1_STR, false);
          ReachesStep(old(Contents()), Contents(), Drop(i));
          Kill(i);
        }
      }
    }

    /** process_unidentified_connections() */
    method ProcessUnidentified(now: int, wait: int, memOk: nat -> bool)
      requires Valid()
      modifies this, ce, fds, events
      ensures Valid() && SameArrays()
      ensures Contents().entries == Walk(old(Contents()).entries, 0, LateAction(now, wait, memOk))
      ensures Reaches(old(Contents()), Contents())
    {
      ReachesSelf(Contents());
      var i, numentries := 0, n;
      while i < numentries
        invariant Valid() && SameArrays() && 0 <= i && numentries == n
        invariant Walk(Contents().entries, i, LateAction(now, wait, memOk))
               == Walk(old(Contents()).entries, 0, LateAction(now, wait, memOk))
        invariant Reaches(old(Contents()), Contents())
      {
        hide RunOps, Reaches, LateAction;
        ghost var t := Contents();
        IdentifyLate(i, now, wait, memOk);
        ReachesOn(old(Contents()), t, Contents());
        numentries := n;
        i := i + 1;
      }
    }

    /** One turn of spawn_client_threads() */
    method SpawnThread(i: nat, created: nat -> bool)
      requires Valid() && i < n
      modifies this, ce, fds, events
      ensures Valid() && SameArrays()
      ensures Contents().entries == Served(old(Contents()).entries, i, SpawnAction(created)(i, old(ce[i])))
      ensures Reaches(old(Contents()), Contents())
    {
      ReachesSelf(Contents());
      assert ce[..n][i := ce[i]] == ce[..n];
      hide RunOps, Reaches, RemoveAt;
      if NeedsThread(ce[i]) {
        if created(i) {
          ReachesStep(old(Contents()), Contents(), Start(i));
          ce[i] := WithThread(ce[i]);
          assert ce[..n] == old(ce[..n])[i := ce[i]];
        } else {
          ReachesStep(old(Contents()), Contents(), Drop(i));
          Kill(i);
        }
      }
    }

    /** spawn_client_threads(); an entry whose queue or thread cannot be created is dropped. */
    method SpawnThreads(created: nat -> bool)
      requires Valid()
      modifies this, ce, fds, events
      ensures Valid() && SameArrays()
      ensures Contents().entries == Walk(old(Contents()).entries, 0, SpawnAction(created))
      ensures Reaches(old(Contents()), Contents())
    {
      ReachesSelf(Contents());
      var i, numentries := 0, n;
      while i < numentries
        invariant Valid() && SameArrays() && 0 <= i && numentries == n
        invariant Walk(Contents().entries, i, SpawnAction(created))
               == Walk(old(Contents()).entries, 0, SpawnAction(created))
        invariant Reaches(old(Contents()), Contents())
      {
        hide RunOps, Reaches, SpawnAction;
        ghost var t := Contents();
        SpawnThread(i, created);
        ReachesOn(old(Contents()), t, Contents());
        numentries := n;
        i := i + 1;
      }
    }

    // -------------------------------------------------------------------- polling

    /** handle_client(): the login message names the protocol; a V2-only server turns others away. */
    method HandleClient(i: nat, event: Event, v2Only: bool)
      requires Valid() && 0 < i < n && IsNetClient(ce[i]) && event.Readable?
      modifies this, ce, fds, events
      ensures Valid() && SameArrays()
      ensures Contents().entries == Served(old(Contents()).entries, i, Handled(old(ce[i]), event, v2Only))
      ensures Events() == if Handled(old(ce[i]), event, v2Only).Some? then old(Events()) else RemoveAt(old(Events()), i)
      ensures Reaches(old(Contents()), Contents())
    {
      ReachesSelf(Contents());
      assert ce[..n][i := ce[i]] == ce[..n];
      hide RunOps, Reaches, RemoveAt, ProtocolOf;
      if event.n > 0 {
        ReachesStep(old(Contents()), Contents(), Login(i, event.msg, event.memOk));
        var _ := Identify(i, event.msg, event.memOk);
        assert Reaches(old(Contents()), Contents());
        if v2Only && ce[i].protocol != V2 {
          RemoveUpdated(old(ce[..n]), i, ce[i]);
          ReachesStep(old(Contents()), Contents(), Drop(i));
          Kill(i);
        }
      } else {
        ReachesStep(old(Contents()), Contents(), Drop(i));
        Kill(i);
      }
    }

    /** One turn of the second loop of poll_loop_wait(); a hangup that cannot be released stops the program. */
    method PollOne(i: nat, v2Only: bool)
      requires Valid() && i < n
      requires (!IsNetClient(ce[i]) ==> ce[i].kind == ServerNet) && (i == 0 ==> ce[i].kind == ServerNet)
      modifies this, ce, fds, events
      ensures Valid() && SameArrays()
      ensures Contents().entries == Served(old(Contents()).entries, i, Polled(old(ce[i]), old(events[i]), v2Only))
      ensures Events() == if Polled(old(ce[i]), old(events[i]), v2Only).Some? then old(Events())
                          else RemoveAt(old(Events()), i)
      ensures n <= old(n)
      ensures Reaches(old(Contents()), Contents())
    {
      ReachesSelf(Contents());
      assert ce[..n][i := ce[i]] == ce[..n];
      hide RunOps, Reaches;
      if ce[i].kind == ServerNet || events[i] == Quiet || events[i] == Other {
        return;
      }
      if events[i] == Hup || events[i].peek <= 0 {
        ReachesStep(old(Contents()), Contents(), Drop(i));
        Kill(i);
      } else {
        HandleClient(i, events[i], v2Only);
      }
    }

    /** The second loop of poll_loop_wait() */
    method PollClients(v2Only: bool)
      requires Valid() && Inv(Contents())
      modifies this, ce, fds, events
      ensures Valid() && SameArrays()
      ensures Contents().entries == PollFrom(old(Contents()).entries, old(Events()), 0, v2Only)
      ensures Reaches(old(Contents()), Contents()) && Inv(Contents())
    {
      hide RunOps, Reaches, Polled, PollFrom, Served, RemoveAt, Inv;
      ReachesSelf(Contents());
      var i := 0;
      while i < n
        invariant Valid() && SameArrays() && 0 <= i
        invariant Inv(Contents()) && Reaches(old(Contents()), Contents())
        invariant PollFrom(Contents().entries, Events(), i, v2Only)
               == PollFrom(old(Contents()).entries, old(Events()), 0, v2Only)
        decreases n - i
      {
        KindsOf(Contents(), i);
        PollStep(Contents().entries, Events(), i, v2Only);
        ghost var t := Contents();
        PollOne(i, v2Only);
        ReachesKeeps(t, Contents());
        ReachesOn(old(Contents()), t, Contents());
        i := i + 1;
      }
      PollEnd(Contents().entries, Events(), i, v2Only);
    }

    /** poll() fills in the events. */
    method SetEvents(polled: seq<Event>)
      requires Valid() && |polled| == n
      modifies events
      ensures Events() == polled
    {
      for i := 0 to n
        invariant events[..i] == polled[..i]
      {
        events[i] := polled[i];
      }
    }

    /** poll_add_connection() for the listening socket, when it is readable. */
    method AcceptOne(accepted: Accepted) returns (status: int)
      requires Valid() && Inv(Contents()) && n > 0
      modifies this, ce, fds, events
      ensures Valid() && OldOrNewArrays()
      ensures (Contents(), Events(), status) == AfterServers(old(Contents()), old(Events()), accepted)
      ensures Reaches(old(Contents()), Contents()) && Inv(Contents())
    {
      ReachesSelf(Contents());
      hide RunOps, Reaches, ConnTable.AddConnection, EventsAfter, Inv;
      status := 0;
      if events[0].Readable? {
        match accepted
        case Refused(code) =>
          status := code;
        case Conn(c) =>
          ReachesStep(old(Contents()), Contents(), Accept(c));
          status := AddConnection(c);
          ReachesKeeps(old(Contents()), Contents());
      }
    }

    /** The first loop of poll_loop_wait(); status is what poll_add_connection() gave. */
    method PollServers(accepted: Accepted) returns (status: int)
      requires Valid() && Inv(Contents())
      modifies this, ce, fds, events
      ensures Valid() && OldOrNewArrays()
      ensures (Contents(), Events(), status) == AfterServers(old(Contents()), old(Events()), accepted)
      ensures Reaches(old(Contents()), Contents()) && Inv(Contents())
    {
      ReachesSelf(Contents());
      status := 0;
      var i := 0;
      while i < n
        invariant Valid() && OldOrNewArrays() && 0 <= i && status == 0
        invariant Inv(Contents()) && Reaches(old(Contents()), Contents())
        invariant i == 0 ==> SameArrays() && Contents() == old(Contents()) && Events() == old(Events())
        invariant i > 0 ==> (Contents(), Events(), 0) == AfterServers(old(Contents()), old(Events()), accepted)
        decreases i == 0, n - i
      {
        hide RunOps, Reaches, AfterServers;
        KindsOf(Contents(), i);
        hide Inv;
        if ce[i].kind == ServerNet {
          status := AcceptOne(accepted);
          if status != 0 { return; }
        }
        i := i + 1;
      }
    }

    /**
     poll_loop_wait(): -1 when poll() fails, -2 when a connection cannot be added. A client that is turned
     away ends the call before the other clients are looked at.
     */
    method PollLoop(pollStatus: int, polled: seq<Event>, accepted: Accepted, v2Only: bool) returns (status: int)
      requires Valid() && Inv(Contents()) && |polled| == n
      modifies this, ce, fds, events
      ensures Valid() && OldOrNewArrays()
      ensures Reaches(old(Contents()), Contents()) && Inv(Contents())
      ensures PollResult(old(Contents()), pollStatus, polled, accepted, v2Only, Contents(), status)
    {
      ReachesSelf(Contents());
      hide RunOps, Reaches, Inv, AfterServers, PollFrom;
      if pollStatus == -1 || pollStatus == 0 { return pollStatus; }
      SetEvents(polled);
      status := PollServers(accepted);
      if status == -1 { return -2; }
      if status != 0 { return 0; }
      ghost var t := Contents();
      PollClients(v2Only);
      ReachesOn(old(Contents()), t, Contents());
    }

    /** process_connections(): finished clients, late clients, new threads, then the sockets. */
    method ProcessConnections(now: int, wait: int, memOk: nat -> bool, created: nat -> bool,
                              pollStatus: int, poll: nat -> Event, accepted: Accepted, v2Only: bool)
      returns (status: int)
      requires Valid() && Inv(Contents())
      modifies this, ce, fds, events
      ensures Valid() && OldOrNewArrays()
      ensures Reaches(old(Contents()), Contents()) && Inv(Contents())
      ensures exists t :: PolledFrom(t, Prepared(old(Contents()).entries, now, wait, memOk, created), pollStatus, poll,
                                     accepted, v2Only, Contents(), status)
    {
      hide RunOps, Reaches, Inv, Walk, Pass, PollFrom, AfterServers, PollResult;
      ProcessFinished();
      ghost var t1 := Contents();
      ProcessUnidentified(now, wait, memOk);
      ghost var t2 := Contents();
      ReachesOn(old(Contents()), t1, t2);
      SpawnThreads(created);
      ghost var t3 := Contents();
      ReachesOn(old(Contents()), t2, t3);
      ReachesKeeps(old(Contents()), t3);
      SomeEntry(t3);
      status := PollLoop(pollStatus, seq(n, poll), accepted, v2Only);
      ReachesOn(old(Contents()), t3, Contents());
      assert PolledFrom(t3, Prepared(old(Contents()).entries, now, wait, memOk, created), pollStatus, poll,
                        accepted, v2Only, Contents(), status);
    }

    // ------------------------------------------------------------- sending a packet

    /** server_send_client_queues(); `queues` is keyed by connection. */
    method SendQueues(v1: seq<byte>, v2: seq<byte>, queues: map<nat, Channel>, lim: Limits,
                      ends: nat -> bool, putOk: nat -> bool)
      returns (sent: map<nat, Channel>, unknown: bool)
      requires Valid() && Inv(Contents()) && |v1| <= RECORD_SIZE && |v2| <= RECORD_SIZE
      requires forall j :: 0 <= j < n && Running(ce[j]) ==> ce[j].id in queues
      ensures !unknown && sent.Keys == queues.Keys
      ensures Offered(Contents().entries, v1, v2, queues, lim, ends, putOk, sent)
    {
      hide Inv, Offered, Snd, Padded, UniqueIds;
      ghost var s := Contents().entries;
      sent, unknown := queues, false;
      if nclients == 0 {
        NoNetClients(Contents());
        OfferedIdle(s, v1, v2, queues, lim, ends, putOk);
        return;
      }
      KindsAndIds(Contents());
      assert forall j :: 0 <= j < n ==> s[j] == ce[j];
      assert s[..0] == [];
      OfferedNone(v1, v2, queues, lim, ends, putOk);
      for i := 0 to n
        invariant !unknown && sent.Keys == queues.Keys
        invariant Offered(s[..i], v1, v2, queues, lim, ends, putOk, sent)
      {
        OfferedStep(s, i, v1, v2, queues, lim, ends, putOk, sent);
        var e := ce[i];
        if Running(e) && !ends(i) {
          if e.protocol == V1 {
            sent := sent[e.id := Snd(sent[e.id], lim, Padded(v1), putOk(i)).0];
          } else if e.protocol == V2 {
            sent := sent[e.id := Snd(sent[e.id], lim, Padded(v2), putOk(i)).0];
          } else {
            unknown := true;
          }
        }
      }
      assert s[..n] == s;
    }
  }
}
