/** A client thread and the server that feeds its queue, as interleaved steps. */
module ClientThread {
  import opened Bytes
  import opened FrameV2
  import opened IoLoops
  import opened ClientQueue

  /** Where the thread is: its loop test, the flag check, the queue read, the socket write, or over. */
  datatype Pc = Top | Check | Take | Write(record: seq<byte>) | Done

  datatype Client = Client(chan: Channel, exit: bool, pc: Pc, out: seq<byte>)

  /** One atomic step of the server or of the thread, with what the system calls in it return. */
  datatype Event =
    | Offer(payload: seq<byte>, putOk: bool)                       // the server queues a frame
    | LoopTest(quit: bool)                                         // while no quit and no exit flag
    | FlagCheck                                                    // periodic()
    | Receive(waitStatus: int, getOk: bool, truncateStatus: int)   // connqueue_rcv()
    | Transmit(results: seq<int>)                                  // writen() of the payload
    | Cancel(written: nat)                                         // the server cancels the thread

  ghost predicate Possible(e: Event) {
    e.Offer? ==> |e.payload| <= 1116
  }

  function Record(payload: seq<byte>): seq<byte>
    requires |payload| <= 1116
  {
    Padded(Envelope(payload))
  }

  /** The bytes of a payload that a sequence of writes takes. */
  function Written(payload: seq<byte>, results: seq<int>): (r: seq<byte>)
    ensures r <= payload
  {
    if Accepted(results) < |payload| then payload[..Accepted(results)] else payload
  }

  /** A step that is not due where the thread stands changes nothing. */
  function Step(c: Client, lim: Limits, e: Event): Client {
    match e
    case Offer(payload, putOk) =>
      if |payload| > 1116 then c else c.(chan := Snd(c.chan, lim, Record(payload), putOk).0)
    case LoopTest(quit) =>
      if c.pc != Top then c else c.(pc := if quit || c.exit then Done else Check)
    case FlagCheck =>
      if c.pc != Check then c else c.(pc := Take, exit := c.exit || c.chan.dberror)
    case Receive(w, g, t) =>
      if c.pc != Take then c else
      var (chan, r) := Rcv(c.chan, w, g, t);
      c.(chan := chan, pc := if r.Got? then Write(r.record) else Top)
    case Transmit(results) =>
      if !c.pc.Write? || |c.pc.record| < 4 then c else
      var payload := PayloadOf(c.pc.record);
      var taken := Written(payload, results);
      c.(pc := Top, out := c.out + taken, exit := c.exit || |taken| != |payload|)
    case Cancel(written) =>
      if c.pc.Write? && |c.pc.record| >= 4 then
        var payload := PayloadOf(c.pc.record);
        c.(pc := Done, out := c.out + if written < |payload| then payload[..written] else payload)
      else c.(pc := Done)
  }

  // ---------------------------------------------------------- with its history

  /** The client with the payloads queued for it, those its thread took, and how many it lost. */
  datatype World = World(client: Client, queued: seq<seq<byte>>, taken: seq<seq<byte>>, lost: nat)

  function StepWorld(w: World, lim: Limits, e: Event): World {
    var c := w.client;
    var c' := Step(c, lim, e);
    match e
    case Offer(payload, putOk) =>
      var accepted := |payload| <= 1116 && Snd(c.chan, lim, Record(payload), putOk).1 in {0, 1};
      World(c', if accepted then w.queued + [payload] else w.queued, w.taken, w.lost)
    case Receive(wait, g, t) =>
      if c.pc != Take then w.(client := c') else
      var r := Rcv(c.chan, wait, g, t).1;
      var next := |w.taken| + w.lost;
      if next >= |w.queued| || r.NoRecord? then w.(client := c')
      else if r.Got? then World(c', w.queued, w.taken + [w.queued[next]], w.lost)
      else World(c', w.queued, w.taken, w.lost + 1)
    case _ => w.(client := c')
  }

  const START := World(Client(EMPTY, false, Top, []), [], [], 0)

  function RunWorld(lim: Limits, events: seq<Event>): World {
    if events == [] then START
    else StepWorld(RunWorld(lim, events[..|events| - 1]), lim, events[|events| - 1])
  }

  // --------------------------------------------------------------- the invariant

  /** The stored records are the queued payloads from the next one on. */
  ghost predicate Stored(records: seq<seq<byte>>, queued: seq<seq<byte>>, next: nat) {
    && next <= |queued| && |records| == |queued| - next
    && (forall i :: 0 <= i < |queued| ==> |queued[i]| <= 1116)
    && (forall i :: 0 <= i < |records| ==> records[i] == Record(queued[next + i]))
  }

  /** One sequence is the other with some elements left out. */
  ghost predicate Subsequence(a: seq<seq<byte>>, b: seq<seq<byte>>) {
    if b == [] then a == [] else
    || Subsequence(a, b[..|b| - 1])
    || (a != [] && a[|a| - 1] == b[|b| - 1] && Subsequence(a[..|a| - 1], b[..|b| - 1]))
  }

  /** Everything taken was written. */
  ghost predicate WholeOutput(w: World) {
    w.client.out == Concat(w.taken)
  }

  /** Everything taken was written but for the end of the last payload. */
  ghost predicate CutOutput(w: World) {
    && w.taken != []
    && Concat(w.taken[..|w.taken| - 1]) <= w.client.out <= Concat(w.taken)
  }

  ghost predicate OutputOk(w: World) {
    match w.client.pc
    case Write(record) =>
      && w.taken != [] && |w.taken[|w.taken| - 1]| <= 1116
      && record == Record(w.taken[|w.taken| - 1])
      && w.client.out == Concat(w.taken[..|w.taken| - 1])
    case Top => WholeOutput(w) || (w.client.exit && CutOutput(w))
    case Done => WholeOutput(w) || CutOutput(w)
    case _ => WholeOutput(w)
  }

  ghost predicate TakenOk(w: World) {
    && |w.taken| + w.lost <= |w.queued|
    && Subsequence(w.taken, w.queued[..|w.taken| + w.lost])
    && (w.lost == 0 ==> w.taken == w.queued[..|w.taken|])
  }

  ghost predicate Inv(w: World) {
    && w.client.chan.n == |w.client.chan.records|
    && Stored(w.client.chan.records, w.queued, |w.taken| + w.lost)
    && TakenOk(w)
    && OutputOk(w)
  }

  // ----------------------------------------------------------- every step keeps it

  lemma SubsequenceSkip(a: seq<seq<byte>>, b: seq<seq<byte>>, x: seq<byte>)
    requires Subsequence(a, b)
    ensures Subsequence(a, b + [x])
  {
    assert (b + [x])[..|b|] == b;
  }

  lemma SubsequenceTake(a: seq<seq<byte>>, b: seq<seq<byte>>, x: seq<byte>)
    requires Subsequence(a, b)
    ensures Subsequence(a + [x], b + [x])
  {
    assert (b + [x])[..|b|] == b && (a + [x])[..|a|] == a;
  }

  lemma OfferKeeps(w: World, lim: Limits, e: Event)
    requires Inv(w) && e.Offer? && Possible(e)
    ensures Inv(StepWorld(w, lim, e))
  {
    hide Record, Concat, Subsequence;
    var next := |w.taken| + w.lost;
    assert (w.queued + [e.payload])[..next] == w.queued[..next];
    assert (w.queued + [e.payload])[..|w.taken|] == w.queued[..|w.taken|];
  }

  /** Taking the next payload, or losing it. */
  lemma TakenStep(w: World, w': World)
    requires TakenOk(w) && |w.taken| + w.lost < |w.queued| && w'.queued == w.queued
    requires var x := w.queued[|w.taken| + w.lost];
             || (w'.taken == w.taken + [x] && w'.lost == w.lost)
             || (w'.taken == w.taken && w'.lost == w.lost + 1)
    ensures TakenOk(w')
  {
    var next := |w.taken| + w.lost;
    var x := w.queued[next];
    assert w.queued[..next + 1] == w.queued[..next] + [x];
    SubsequenceSkip(w.taken, w.queued[..next], x);
    SubsequenceTake(w.taken, w.queued[..next], x);
  }

  lemma ReceiveKeeps(w: World, lim: Limits, e: Event)
    requires Inv(w) && e.Receive?
    ensures Inv(StepWorld(w, lim, e))
  {
    hide Record, Subsequence;
    var c, w' := w.client, StepWorld(w, lim, e);
    if c.pc == Take && c.chan.records != [] && e.getOk {
      var next := |w.taken| + w.lost;
      assert c.chan.records[0] == Record(w.queued[next + 0]);
      hide TakenOk;
      assert TakenOk(w') by { TakenStep(w, w'); }
      assert Stored(w'.client.chan.records, w'.queued, next + 1) by {
        forall i | 0 <= i < |c.chan.records| - 1 ensures c.chan.records[1..][i] == Record(w.queued[next + 1 + i]) {
          assert c.chan.records[i + 1] == Record(w.queued[next + (i + 1)]);
        }
      }
      assert (w.taken + [w.queued[next]])[..|w.taken|] == w.taken;
    }
  }

  lemma OutputAppend(taken: seq<seq<byte>>, part: seq<byte>)
    requires taken != [] && part <= taken[|taken| - 1]
    ensures var before := Concat(taken[..|taken| - 1]);
            && before <= before + part <= Concat(taken)
            && (part == taken[|taken| - 1] ==> before + part == Concat(taken))
  {
  }

  lemma WritingKeeps(w: World, lim: Limits, e: Event)
    requires Inv(w) && (e.Transmit? || e.Cancel?)
    ensures Inv(StepWorld(w, lim, e))
  {
    hide Concat, Subsequence, Stored;
    if w.client.pc.Write? {
      var payload := w.taken[|w.taken| - 1];
      PayloadOfPadded(payload);
      assert PayloadOf(w.client.pc.record) == payload;
      hide PayloadOf;
      if e.Transmit? {
        OutputAppend(w.taken, Written(payload, e.results));
      } else {
        OutputAppend(w.taken, if e.written < |payload| then payload[..e.written] else payload);
      }
    }
  }

  lemma StepKeeps(w: World, lim: Limits, e: Event)
    requires Inv(w) && Possible(e)
    ensures Inv(StepWorld(w, lim, e))
  {
    hide Concat, Subsequence, Stored, Record;
    match e
    case Offer(_, _) => OfferKeeps(w, lim, e);
    case Receive(_, _, _) => ReceiveKeeps(w, lim, e);
    case Transmit(_) => WritingKeeps(w, lim, e);
    case Cancel(_) => WritingKeeps(w, lim, e);
    case _ =>
  }

  lemma {:induction false} RunKeeps(lim: Limits, events: seq<Event>)
    requires forall i :: 0 <= i < |events| ==> Possible(events[i])
    ensures Inv(RunWorld(lim, events))
  {
    hide Inv, StepWorld;
    if events == [] {
      StartOk();
    } else {
      RunKeeps(lim, events[..|events| - 1]);
      StepKeeps(RunWorld(lim, events[..|events| - 1]), lim, events[|events| - 1]);
    }
  }

  lemma StartOk()
    ensures Inv(START)
  {
    assert START.queued[..0] == [];
  }

  // ------------------------------------------------------------------- what it means

  /** The payloads of the first m entries and then a piece of the next. */
  ghost predicate OutputIs(out: seq<byte>, payloads: seq<seq<byte>>, m: nat, piece: seq<byte>) {
    && m <= |payloads| && out == Concat(payloads[..m]) + piece
    && (if m < |payloads| then piece <= payloads[m] else piece == [])
  }

  /**
   For every interleaving: the client has been sent whole payloads in order, and at most one cut
   payload, the last thing its thread took; what the thread takes are the queued payloads in order,
   and exactly the first ones if no truncate of the emptied queue failed.
   */
  lemma ClientOutput(lim: Limits, events: seq<Event>)
    requires forall i :: 0 <= i < |events| ==> Possible(events[i])
    ensures var w := RunWorld(lim, events);
            && (exists m: nat, piece :: OutputIs(w.client.out, w.taken, m, piece) && |w.taken| <= m + 1)
            && |w.taken| + w.lost <= |w.queued| && Subsequence(w.taken, w.queued[..|w.taken| + w.lost])
            && (w.lost == 0 ==> w.taken <= w.queued)
  {
    hide RunWorld, Inv, Subsequence, Concat, OutputIs;
    RunKeeps(lim, events);
    var w := RunWorld(lim, events);
    InvMeans(w);
    if WholeOutput(w) {
      WholePiece(w.client.out, w.taken);
    } else {
      LastPiece(w.client.out, w.taken);
    }
  }

  lemma InvMeans(w: World)
    requires Inv(w)
    ensures WholeOutput(w) || CutOutput(w)
    ensures TakenOk(w)
  {
    hide Subsequence, Stored, Concat, TakenOk, Record;
    if w.client.pc.Write? {
      OutputAppend(w.taken, []);
      assert w.client.out + [] == w.client.out;
    }
  }

  lemma WholePiece(out: seq<byte>, taken: seq<seq<byte>>)
    requires out == Concat(taken)
    ensures OutputIs(out, taken, |taken|, [])
  {
    assert taken[..|taken|] == taken;
  }

  lemma PrefixRest(before: seq<byte>, out: seq<byte>, last: seq<byte>)
    requires before <= out <= before + last
    ensures out == before + out[|before|..] && out[|before|..] <= last
  {
    var piece, all := out[|before|..], before + last;
    assert forall i :: 0 <= i < |piece| ==> piece[i] == out[|before| + i] == all[|before| + i] == last[i];
  }

  lemma LastPiece(out: seq<byte>, taken: seq<seq<byte>>)
    requires taken != [] && Concat(taken[..|taken| - 1]) <= out <= Concat(taken)
    ensures OutputIs(out, taken, |taken| - 1, out[|Concat(taken[..|taken| - 1])|..])
  {
    PrefixRest(Concat(taken[..|taken| - 1]), out, taken[|taken| - 1]);
  }

  /** Payloads are lost only to a failed truncate. */
  lemma {:induction false} NothingLost(lim: Limits, events: seq<Event>)
    requires forall i :: 0 <= i < |events| ==> (events[i].Receive? ==> events[i].truncateStatus == 0)
    ensures RunWorld(lim, events).lost == 0
  {
    if events != [] {
      NothingLost(lim, events[..|events| - 1]);
      assert events[|events| - 1].Receive? ==> events[|events| - 1].truncateStatus == 0;
    }
  }

  /** A payload was cut: something is missing and the thread is no longer writing it. */
  ghost predicate Cut(w: World) {
    !w.client.pc.Write? && w.client.out != Concat(w.taken)
  }

  /** After a cut payload the thread never writes or takes anything again. */
  lemma {:induction false} SilentAfterCut(w: World, lim: Limits, e: Event)
    requires Inv(w) && Cut(w)
    ensures var w' := StepWorld(w, lim, e);
            Cut(w') && w'.client.out == w.client.out && w'.taken == w.taken
  {
    hide Concat, Subsequence, Stored;
  }

  lemma {:induction false} SilentForever(lim: Limits, events: seq<Event>, more: seq<Event>)
    requires forall i :: 0 <= i < |events| ==> Possible(events[i])
    requires forall i :: 0 <= i < |more| ==> Possible(more[i])
    requires Cut(RunWorld(lim, events))
    ensures Cut(RunWorld(lim, events + more))
    ensures RunWorld(lim, events + more).client.out == RunWorld(lim, events).client.out
  {
    hide Cut, Inv, StepWorld;
    if more == [] {
      assert events + more == events;
    } else {
      var before := events + more[..|more| - 1];
      assert (events + more)[..|events + more| - 1] == before;
      SilentForever(lim, events, more[..|more| - 1]);
      RunKeeps(lim, before);
      SilentAfterCut(RunWorld(lim, before), lim, more[|more| - 1]);
    }
  }

  // --------------------------------------------------------------------- the program

  /** The thread's own data: its queue, the exit flag and what it has written. */
  class ThreadState {
    const queue: QueueTable
    var exit: bool
    var out: seq<byte>

    constructor (queue: QueueTable)
      ensures this.queue == queue && !exit && out == []
    {
      this.queue := queue;
      exit, out := false, [];
    }

    ghost predicate Valid()
      reads this, queue
    {
      queue.n == |queue.records| && forall i :: 0 <= i < |queue.records| ==> |queue.records[i]| == RECORD_SIZE
    }

    function View(pc: Pc): Client
      reads this, queue
    {
      Client(queue.Contents(), exit, pc, out)
    }

    method Periodic()
      modifies this
      ensures View(Take) == Step(old(View(Check)), queue.limits, FlagCheck)
    {
      if queue.dberror {
        exit := true;
      }
    }

    /** loop(): one record from the queue and out to the client. */
    method Loop(waitStatus: int, getOk: bool, truncateStatus: int, results: seq<int>)
      requires Valid() && forall i :: 0 <= i < |results| ==> -1 <= results[i]
      modifies this, queue
      ensures Valid()
      ensures View(Top) == Step(Step(old(View(Take)), queue.limits, Receive(waitStatus, getOk, truncateStatus)),
                                queue.limits, Transmit(results))
    {
      hide PayloadOf, Accepted, Refusal;
      ghost var before := View(Take);
      var r := queue.Receive(waitStatus, getOk, truncateStatus);
      if r.Got? {
        var payload := PayloadOf(r.record);
        var n, taken := WriteM(payload, results);
        out := out + taken;
        if n < 0 || n != |payload| {
          exit := true;
        }
      }
    }
  }
}
