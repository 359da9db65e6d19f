/**
 The whole server side: table operations, packets offered to the clients, and the steps of every client
 thread, interleaved in any order.
 */
module ServerRun {
  import opened Bytes
  import opened FrameV2
  import opened ConnTable
  import opened ConnLife
  import opened ConnServer
  import Q = ClientQueue
  import T = ClientThread

  /** A connection's protocol when it was given its thread, and what happened to it since. */
  datatype History = History(protocol: Protocol, log: seq<T.Event>)

  /** The table, and the history of every connection that was given a thread. */
  datatype Server = Server(table: Table, past: map<nat, History>)

  datatype Step =
    | Change(op: Op)
    | Send(v1: seq<byte>, v2: seq<byte>, ends: nat -> bool, putOk: nat -> bool) // a packet's two payloads
    | Work(id: nat, e: T.Event)                                                  // a client thread moves

  /** The entry of a connection, if it is in the table. */
  function IndexOf(s: seq<Entry>, id: nat): (i: int)
    ensures -1 <= i < |s|
    ensures i >= 0 ==> s[i].id == id
    ensures i < 0 ==> forall j :: 0 <= j < |s| ==> s[j].id != id
  {
    if s == [] then -1
    else if s[|s| - 1].id == id then |s| - 1
    else IndexOf(s[..|s| - 1], id)
  }

  /** The client's thread runs when the sending loop comes to it. */
  predicate Reached(t: Table, id: nat, st: Step) {
    var i := IndexOf(t.entries, id);
    st.Send? && i >= 0 && Running(t.entries[i]) && !st.ends(i)
  }

  /** What such a client is offered of a packet: the payload of its protocol. */
  function OfferTo(t: Table, id: nat, st: Step): T.Event
    requires Reached(t, id, st)
  {
    var i := IndexOf(t.entries, id);
    T.Offer(FrameFor(t.entries[i].protocol, st.v1, st.v2), st.putOk(i))
  }

  /** The connection that an operation gives a thread. */
  function Started(t: Table, op: Op): Option<nat> {
    if op.Start? && op.i < |t.entries| && NeedsThread(t.entries[op.i]) then Some(t.entries[op.i].id) else None
  }

  function Next(v: Server, st: Step): (r: Server)
    requires |v.table.fds| == |v.table.entries|
    ensures |r.table.fds| == |r.table.entries|
  {
    match st
    case Change(op) =>
      var id := Started(v.table, op);
      Server(Apply(v.table, op),
             if id.Some? then v.past[id.value := History(v.table.entries[op.i].protocol, [])] else v.past)
    case Send(_, _, _, _) =>
      v.(past := map id | id in v.past ::
                   if Reached(v.table, id, st) then Logged(v.past[id], OfferTo(v.table, id, st)) else v.past[id])
    case Work(id, e) =>
      if id in v.past && !e.Offer? then v.(past := v.past[id := Logged(v.past[id], e)]) else v
  }

  function Logged(h: History, e: T.Event): History {
    h.(log := h.log + [e])
  }

  function Run(t: Table, steps: seq<Step>): (r: Server)
    requires |t.fds| == |t.entries|
    ensures |r.table.fds| == |r.table.entries|
  {
    if steps == [] then Server(t, map[]) else Next(Run(t, steps[..|steps| - 1]), steps[|steps| - 1])
  }

  // ------------------------------------------------------------------ what was offered

  /** The payloads offered in a client's log. */
  function Offers(log: seq<T.Event>): seq<seq<byte>> {
    if log == [] then [] else
    Offers(log[..|log| - 1]) + if log[|log| - 1].Offer? then [log[|log| - 1].payload] else []
  }

  /** The payloads, in protocol p, of the packets sent while a connection's thread was running. */
  function SentTo(t: Table, steps: seq<Step>, id: nat, p: Protocol): seq<seq<byte>>
    requires |t.fds| == |t.entries|
  {
    if steps == [] then [] else
    var before, st := steps[..|steps| - 1], steps[|steps| - 1];
    SentTo(t, before, id, p)
    + if Reached(Run(t, before).table, id, st) then [FrameFor(p, st.v1, st.v2)] else []
  }

  /** The connection's protocol is p for good. */
  ghost predicate Speaks(t: Table, id: nat, p: Protocol) {
    && p != Unknown && id < t.nextId
    && forall j :: 0 <= j < |t.entries| && t.entries[j].id == id ==>
         t.entries[j].protocol == p && t.entries[j].thread.Thread?
  }

  /**
   The connection spoke the protocol with which its thread began for as long as it was in the table, and
   what it was offered are the packets sent while its thread was running, in that protocol.
   */
  ghost predicate Told(t: Table, steps: seq<Step>, v: Server, id: nat)
    requires |t.fds| == |t.entries|
  {
    if id in v.past then
      Speaks(v.table, id, v.past[id].protocol) && Offers(v.past[id].log) == SentTo(t, steps, id, v.past[id].protocol)
    else forall p :: SentTo(t, steps, id, p) == []
  }

  /** Every entry with a thread has a history, and every history is as it should be. */
  ghost predicate Good(t: Table, steps: seq<Step>, v: Server)
    requires |t.fds| == |t.entries|
  {
    && Inv(v.table)
    && (forall j :: 0 <= j < |v.table.entries| && v.table.entries[j].thread.Thread? ==> v.table.entries[j].id in v.past)
    && (forall id :: Told(t, steps, v, id))
  }

  // -------------------------------------------------------------------- one table operation

  /** A connection keeps the protocol it speaks. */
  lemma StillSpeaks(t: Table, op: Op, id: nat, p: Protocol)
    requires Inv(t) && Speaks(t, id, p)
    ensures Speaks(Apply(t, op), id, p)
  {
    StepDescends(t, op);
    var t' := Apply(t, op);
    hide Apply, Inv;
    forall j | 0 <= j < |t'.entries| && t'.entries[j].id == id
      ensures t'.entries[j].protocol == p && t'.entries[j].thread.Thread?
    {
      assert From(t.entries, t'.entries[j]);
    }
  }

  /** A thread is only ever given to an entry that stays where it is. */
  lemma StartedSpeaks(t: Table, op: Op)
    requires Inv(t) && Started(t, op).Some?
    ensures var id := Started(t, op).value; Speaks(Apply(t, op), id, t.entries[op.i].protocol)
  {
    assert EntryOk(t.entries[op.i], t.nextId);
    hide EntryOk;
  }

  /** Threads after an operation: those there were, and the one it started. */
  lemma ThreadsAfter(t: Table, op: Op, j: nat)
    requires Inv(t) && j < |Apply(t, op).entries| && Apply(t, op).entries[j].thread.Thread?
    ensures var e := Apply(t, op).entries[j];
            || Started(t, op) == Some(e.id)
            || exists i :: 0 <= i < |t.entries| && t.entries[i].id == e.id && t.entries[i].thread.Thread?
  {
    match op
    case Accept(c) =>
      AcceptLeaves(t, c);
      assert AddConnection(t, c).0.entries[j] in t.entries;
    case Drop(i) =>
      if i < |t.entries| && IsClient(t.entries[i]) { RemoveAtIndex(t.entries, i); }
    case _ =>
  }

  lemma RestoreLeaves(t: Table, ip: string, c: Incoming)
    requires Inv(t)
    ensures forall e :: e in Restore(t, ip, c).0.entries ==> e in t.entries
  {
    NeverRestores(t, ip, c);
    hide Inv, FindByIp;
  }

  lemma AddLeaves(t: Table, ip: Option<string>, fd: int, now: int, growOk: bool)
    ensures var t' := AddElement(t, ClientNet, ip, fd, now, growOk).0;
            forall e :: e in t'.entries && e.thread.Thread? ==> e in t.entries
  {
  }

  lemma AcceptLeaves(t: Table, c: Incoming)
    requires Inv(t)
    ensures |t.fds| == |t.entries|
    ensures forall e :: e in AddConnection(t, c).0.entries && e.thread.Thread? ==> e in t.entries
  {
    assert |t.fds| == |t.entries|;
    hide Inv, Restore, AddElement;
    if c.ip.Some? {
      RestoreLeaves(t, c.ip.value, c);
      AddLeaves(Restore(t, c.ip.value, c).0, c.ip, c.fd, c.now, c.growOk);
    }
  }

  // ------------------------------------------------------------------------- each step

  lemma SentToStep(t: Table, steps: seq<Step>, st: Step, id: nat, p: Protocol)
    requires |t.fds| == |t.entries|
    ensures SentTo(t, steps + [st], id, p)
            == SentTo(t, steps, id, p)
               + if Reached(Run(t, steps).table, id, st) then [FrameFor(p, st.v1, st.v2)] else []
  {
    assert (steps + [st])[..|steps|] == steps;
  }

  lemma OffersStep(log: seq<T.Event>, e: T.Event)
    ensures Offers(log + [e]) == Offers(log) + if e.Offer? then [e.payload] else []
  {
    assert (log + [e])[..|log|] == log;
  }

  lemma ChangeKeeps(t: Table, steps: seq<Step>, v: Server, op: Op)
    requires |t.fds| == |t.entries| && v == Run(t, steps) && Good(t, steps, v)
    ensures Good(t, steps + [Change(op)], Next(v, Change(op)))
  {
    var v', after := Next(v, Change(op)), steps + [Change(op)];
    ApplyKeeps(v.table, op);
    forall id ensures Told(t, after, v', id) {
      assert Told(t, steps, v, id);
      ChangeTold(t, steps, v, op, id);
    }
    hide Inv, Apply, Told;
    forall j | 0 <= j < |v'.table.entries| && v'.table.entries[j].thread.Thread?
      ensures v'.table.entries[j].id in v'.past
    {
      ThreadsAfter(v.table, op, j);
    }
  }

  lemma ChangeTold(t: Table, steps: seq<Step>, v: Server, op: Op, id: nat)
    requires |t.fds| == |t.entries| && Inv(v.table) && Told(t, steps, v, id)
    ensures Told(t, steps + [Change(op)], Next(v, Change(op)), id)
  {
    hide Inv, Apply, SentTo, Speaks, Offers;
    SentStays(t, steps, Change(op), id);
    NothingOffered();
    NotRestarted(t, steps, v, op, id);
    if Started(v.table, op) == Some(id) {
      StartedSpeaks(v.table, op);
    } else if id in v.past {
      StillSpeaks(v.table, op, id, v.past[id].protocol);
    }
  }

  lemma NothingOffered()
    ensures Offers([]) == []
  {
  }

  /** A connection that has a history has its thread, so that it is not given another. */
  lemma NotRestarted(t: Table, steps: seq<Step>, v: Server, op: Op, id: nat)
    requires |t.fds| == |t.entries| && Told(t, steps, v, id)
    ensures id in v.past ==> Started(v.table, op) != Some(id)
  {
    hide SentTo;
  }

  /** What a packet or the step of a thread does to one history. */
  lemma NextPast(v: Server, st: Step, id: nat)
    requires |v.table.fds| == |v.table.entries| && !st.Change?
    ensures Next(v, st).table == v.table && (id in Next(v, st).past <==> id in v.past)
    ensures id in v.past ==>
              Next(v, st).past[id]
              == if Reached(v.table, id, st) then Logged(v.past[id], OfferTo(v.table, id, st))
                 else if st.Work? && st.id == id && !st.e.Offer? then Logged(v.past[id], st.e)
                 else v.past[id]
  {
    hide IndexOf;
  }

  lemma SendTold(t: Table, steps: seq<Step>, v: Server, st: Step, id: nat)
    requires |t.fds| == |t.entries| && v == Run(t, steps) && Told(t, steps, v, id) && st.Send?
    requires |v.table.fds| == |v.table.entries| && (Reached(v.table, id, st) ==> id in v.past)
    ensures Told(t, steps + [st], Next(v, st), id)
  {
    hide SentTo, Run, Next, Offers, IndexOf;
    forall p ensures SentTo(t, steps + [st], id, p) == SentTo(t, steps, id, p)
                     + if Reached(v.table, id, st) then [FrameFor(p, st.v1, st.v2)] else [] {
      SentToStep(t, steps, st, id, p);
    }
    NextPast(v, st, id);
    if Reached(v.table, id, st) {
      OffersStep(v.past[id].log, OfferTo(v.table, id, st));
    }
  }

  lemma SendKeeps(t: Table, steps: seq<Step>, v: Server, st: Step)
    requires |t.fds| == |t.entries| && v == Run(t, steps) && Good(t, steps, v) && st.Send?
    ensures Good(t, steps + [st], Next(v, st))
  {
    hide Told, Inv, Run;
    forall id ensures Told(t, steps + [st], Next(v, st), id) {
      assert Told(t, steps, v, id);
      SendTold(t, steps, v, st, id);
    }
  }

  lemma WorkTold(t: Table, steps: seq<Step>, v: Server, st: Step, id: nat)
    requires |t.fds| == |t.entries| && v == Run(t, steps) && Told(t, steps, v, id) && st.Work?
    requires |v.table.fds| == |v.table.entries|
    ensures Told(t, steps + [st], Next(v, st), id)
  {
    hide SentTo, Run, Speaks, Offers, Next, Reached;
    SentStays(t, steps, st, id);
    NextPast(v, st, id);
    NotReached(v, st, id);
    if id in v.past && !st.e.Offer? { OffersStay(v.past[id].log, st.e); }
  }

  lemma NotReached(v: Server, st: Step, id: nat)
    requires !st.Send?
    ensures !Reached(v.table, id, st)
  {
  }

  lemma SentStays(t: Table, steps: seq<Step>, st: Step, id: nat)
    requires |t.fds| == |t.entries| && !st.Send?
    ensures forall p :: SentTo(t, steps + [st], id, p) == SentTo(t, steps, id, p)
  {
    hide SentTo, Run;
    forall p ensures SentTo(t, steps + [st], id, p) == SentTo(t, steps, id, p) { SentToStep(t, steps, st, id, p); }
  }

  lemma OffersStay(log: seq<T.Event>, e: T.Event)
    requires !e.Offer?
    ensures Offers(log + [e]) == Offers(log)
  {
    hide Offers;
    OffersStep(log, e);
  }

  lemma WorkKeeps(t: Table, steps: seq<Step>, v: Server, st: Step)
    requires |t.fds| == |t.entries| && v == Run(t, steps) && Good(t, steps, v) && st.Work?
    ensures Good(t, steps + [st], Next(v, st))
  {
    hide Told, Inv, Run;
    forall id ensures Told(t, steps + [st], Next(v, st), id) {
      assert Told(t, steps, v, id);
      WorkTold(t, steps, v, st, id);
    }
  }

  lemma {:induction false} RunIsGood(t: Table, steps: seq<Step>)
    requires Inv(t) && forall j :: 0 <= j < |t.entries| ==> t.entries[j].thread.NoThread?
    ensures |t.fds| == |t.entries| && Good(t, steps, Run(t, steps))
  {
    if steps == [] {
      assert forall id :: Told(t, [], Server(t, map[]), id);
    } else {
      var before, st := steps[..|steps| - 1], steps[|steps| - 1];
      assert before + [st] == steps;
      RunIsGood(t, before);
      hide Good, Inv, Next;
      match st
      case Change(op) => ChangeKeeps(t, before, Run(t, before), op);
      case Send(_, _, _, _) => SendKeeps(t, before, Run(t, before), st);
      case Work(_, _) => WorkKeeps(t, before, Run(t, before), st);
    }
  }

  // ------------------------------------------------------------------- what clients get

  lemma {:induction false} SubsequenceOn(a: seq<seq<byte>>, b: seq<seq<byte>>, c: seq<seq<byte>>)
    requires T.Subsequence(a, b) && T.Subsequence(b, c)
    ensures T.Subsequence(a, c)
    decreases |c|
  {
    if c != [] {
      var c' := c[..|c| - 1];
      if T.Subsequence(b, c') {
        SubsequenceOn(a, b, c');
      } else if T.Subsequence(a, b[..|b| - 1]) {
        SubsequenceOn(a, b[..|b| - 1], c');
      } else {
        SubsequenceOn(a[..|a| - 1], b[..|b| - 1], c');
      }
    }
  }

  lemma {:induction false} PrefixIsSubsequence(b: seq<seq<byte>>, k: nat)
    requires k <= |b|
    ensures T.Subsequence(b[..k], b)
    decreases |b|
  {
    if b != [] {
      var b' := b[..|b| - 1];
      if k < |b| {
        PrefixIsSubsequence(b', k);
        assert b'[..k] == b[..k];
      } else {
        PrefixIsSubsequence(b', |b'|);
        assert b[..k] == b && b'[..|b'|] == b';
      }
    }
  }

  /** What is queued for a client was offered to it, in that order. */
  lemma {:induction false} QueuedWasOffered(lim: Q.Limits, log: seq<T.Event>)
    ensures T.Subsequence(T.RunWorld(lim, log).queued, Offers(log))
  {
    if log != [] {
      var before, e := log[..|log| - 1], log[|log| - 1];
      QueuedWasOffered(lim, before);
      var queued := T.RunWorld(lim, before).queued;
      if e.Offer? {
        T.SubsequenceSkip(queued, Offers(before), e.payload);
        T.SubsequenceTake(queued, Offers(before), e.payload);
      } else {
        assert Offers(log) == Offers(before);
      }
      hide T.Subsequence, T.Step, Offers;
    }
  }

  /** Packets fit their frames. */
  ghost predicate Fitting(steps: seq<Step>) {
    forall k :: 0 <= k < |steps| && steps[k].Send? ==> |steps[k].v1| <= 1116 && |steps[k].v2| <= 1116
  }

  lemma {:induction false} LogsFit(t: Table, steps: seq<Step>)
    requires |t.fds| == |t.entries| && Fitting(steps)
    ensures forall id :: id in Run(t, steps).past ==>
              forall k :: 0 <= k < |Run(t, steps).past[id].log| ==> T.Possible(Run(t, steps).past[id].log[k])
  {
    if steps != [] {
      assert forall k :: 0 <= k < |steps| - 1 ==> steps[..|steps| - 1][k] == steps[k];
      LogsFit(t, steps[..|steps| - 1]);
    }
  }

  /** The connection's output: whole payloads and one that is cut, of those taken from its queue. */
  ghost predicate OutputOf(w: T.World) {
    exists m: nat, piece :: T.OutputIs(w.client.out, w.taken, m, piece) && |w.taken| <= m + 1
  }

  lemma TakenWasOffered(lim: Q.Limits, log: seq<T.Event>)
    requires forall k :: 0 <= k < |log| ==> T.Possible(log[k])
    ensures var w := T.RunWorld(lim, log); OutputOf(w) && T.Subsequence(w.taken, Offers(log))
  {
    hide T.RunWorld, T.Subsequence, Offers, T.OutputIs, T.Possible;
    var w := T.RunWorld(lim, log);
    T.ClientOutput(lim, log);
    QueuedWasOffered(lim, log);
    var k := |w.taken| + w.lost;
    PrefixIsSubsequence(w.queued, k);
    SubsequenceOn(w.taken, w.queued[..k], w.queued);
    SubsequenceOn(w.taken, w.queued, Offers(log));
  }

  /** The protocol with which its thread began accounts for all that a connection was offered. */
  lemma OneProtocol(t: Table, steps: seq<Step>, id: nat)
    requires Inv(t) && forall j :: 0 <= j < |t.entries| ==> t.entries[j].thread.NoThread?
    requires |t.fds| == |t.entries| && id in Run(t, steps).past
    ensures var h := Run(t, steps).past[id];
            Speaks(Run(t, steps).table, id, h.protocol) && Offers(h.log) == SentTo(t, steps, id, h.protocol)
  {
    hide Inv, Run, SentTo, Speaks, Offers;
    RunIsGood(t, steps);
    assert Told(t, steps, Run(t, steps), id);
  }

  /** That protocol is settled when the thread begins, and stays the same when the connection is gone. */
  lemma {:induction false} ProtocolStays(t: Table, steps: seq<Step>, more: seq<Step>, id: nat)
    requires Inv(t) && forall j :: 0 <= j < |t.entries| ==> t.entries[j].thread.NoThread?
    requires |t.fds| == |t.entries| && id in Run(t, steps).past
    ensures id in Run(t, steps + more).past
    ensures Run(t, steps + more).past[id].protocol == Run(t, steps).past[id].protocol
  {
    if more == [] {
      assert steps + more == steps;
    } else {
      var before, st := more[..|more| - 1], more[|more| - 1];
      ProtocolStays(t, steps, before, id);
      RunIsGood(t, steps + before);
      assert (steps + more)[..|steps + more| - 1] == steps + before && (steps + more)[|steps + more| - 1] == st;
      var v := Run(t, steps + before);
      assert Told(t, steps + before, v, id);
      if st.Change? { NotRestarted(t, steps + before, v, st.op, id); }
      hide Inv, Apply, SentTo, Speaks;
    }
  }

  /**
   For every run of the whole server, and every connection that was ever given a thread, with the protocol
   it had then: the client was sent payloads, in order and whole but for the end of the last, of packets in
   that protocol's form which came while its thread was running, and nothing else.
   */
  lemma ServerOutput(t: Table, steps: seq<Step>, lim: Q.Limits, id: nat)
    requires Inv(t) && (forall j :: 0 <= j < |t.entries| ==> t.entries[j].thread.NoThread?) && Fitting(steps)
    requires |t.fds| == |t.entries| && id in Run(t, steps).past
    ensures var h := Run(t, steps).past[id];
            var w := T.RunWorld(lim, h.log);
            && OutputOf(w)
            && Speaks(Run(t, steps).table, id, h.protocol)
            && T.Subsequence(w.taken, SentTo(t, steps, id, h.protocol))
  {
    hide Inv, Run, T.RunWorld, T.Subsequence, SentTo, Speaks, Offers, OutputOf, T.Possible, Fitting;
    OneProtocol(t, steps, id);
    LogsFit(t, steps);
    TakenWasOffered(lim, Run(t, steps).past[id].log);
  }

  // ---------------------------------------------------------- the server's own sending loop

  /** The queues of the connections, as the server finds them. */
  function Queues(v: Server, lim: Q.Limits): map<nat, Q.Channel> {
    map id | id in v.past :: T.RunWorld(lim, v.past[id].log).client.chan
  }

  /** Every running client has its queue: what the sending loop needs holds in every reachable state. */
  lemma RunningHasQueue(t: Table, steps: seq<Step>, lim: Q.Limits, j: nat)
    requires Inv(t) && (forall j :: 0 <= j < |t.entries| ==> t.entries[j].thread.NoThread?)
    requires |t.fds| == |t.entries| && j < |Run(t, steps).table.entries| && Running(Run(t, steps).table.entries[j])
    ensures Run(t, steps).table.entries[j].id in Queues(Run(t, steps), lim)
  {
    RunIsGood(t, steps);
  }

  lemma WorldStep(lim: Q.Limits, log: seq<T.Event>, e: T.Event)
    ensures T.RunWorld(lim, log + [e]) == T.StepWorld(T.RunWorld(lim, log), lim, e)
  {
    assert (log + [e])[..|log|] == log;
  }

  lemma OnlyIndex(s: seq<Entry>, j: nat)
    requires UniqueIds(s) && j < |s|
    ensures IndexOf(s, s[j].id) == j
  {
  }

  /** The sending loop and the step Send do the same to the queue of every running client. */
  lemma SendIsOffer(v: Server, st: Step, lim: Q.Limits, sent: map<nat, Q.Channel>, j: nat)
    requires |v.table.fds| == |v.table.entries| && UniqueIds(v.table.entries)
    requires st.Send? && |st.v1| <= 1116 && |st.v2| <= 1116
    requires Offered(v.table.entries, Envelope(st.v1), Envelope(st.v2), Queues(v, lim), lim, st.ends, st.putOk, sent)
    requires j < |v.table.entries| && Running(v.table.entries[j]) && !st.ends(j) && v.table.entries[j].id in v.past
    ensures var id := v.table.entries[j].id;
            id in sent && id in Queues(Next(v, st), lim) && sent[id] == Queues(Next(v, st), lim)[id]
  {
    var id := v.table.entries[j].id;
    OnlyIndex(v.table.entries, j);
    WorldStep(lim, v.past[id].log, OfferTo(v.table, id, st));
    hide Envelope, Q.Padded, Q.Snd, T.RunWorld, IndexOf, UniqueIds;
  }
}
