/** The scheduler: events that are due every `period` seconds, and events due each minute. */
module Periodic {
  datatype Event = Event(period: int, next: int)

  /** One call of periodic() for one event: at most one call of its procedure. */
  function Tick(e: Event, now: int): (Event, bool) {
    if now >= e.next then (e.(next := e.next + e.period), true) else (e, false)
  }

  /** An event with the number of times its procedure was called. */
  datatype Counted = Counted(event: Event, fired: nat)

  function Run(start: int, period: int, nows: seq<int>): Counted {
    if nows == [] then Counted(Event(period, start + period), 0)
    else
      var before := Run(start, period, nows[..|nows| - 1]);
      var (e, fired) := Tick(before.event, nows[|nows| - 1]);
      Counted(e, before.fired + if fired then 1 else 0)
  }

  /** The due times never drift: they are multiples of the period from the start, for every sequence of calls. */
  lemma {:induction false} NoDrift(start: int, period: int, nows: seq<int>)
    ensures var r := Run(start, period, nows);
            r.event.period == period && r.event.next == start + period * (r.fired + 1)
  {
    if nows != [] {
      NoDrift(start, period, nows[..|nows| - 1]);
      var fired := Run(start, period, nows[..|nows| - 1]).fired;
      assert period * (fired + 1) + period == period * (fired + 1 + 1);
    }
  }

  /**
   An event fires at a call exactly when its next due time has come, so never early, whatever the period
   and however the clock moves.
   */
  lemma FiresWhenDue(start: int, period: int, nows: seq<int>)
    requires nows != []
    ensures var before, now := Run(start, period, nows[..|nows| - 1]).fired, nows[|nows| - 1];
            Run(start, period, nows).fired == if now >= start + period * (before + 1) then before + 1 else before
  {
    NoDrift(start, period, nows[..|nows| - 1]);
  }

  /** How many due times have passed. */
  function Due(start: int, period: int, now: int): int
    requires period > 0
  {
    (now - start) / period
  }

  lemma Scale(p: int, a: int, b: int)
    requires p > 0 && a <= b
    ensures p * a <= p * b
  {
    assert p * b == p * a + p * (b - a);
    assert p * (b - a) >= 0;
  }

  lemma DueIff(start: int, period: int, now: int, k: int)
    requires period > 0
    ensures now >= start + period * k <==> Due(start, period, now) >= k
  {
    var q := Due(start, period, now);
    assert period * q <= now - start < period * q + period;
    if q >= k {
      Scale(period, k, q);
    } else {
      Scale(period, q + 1, k);
      assert period * (q + 1) == period * q + period;
    }
  }

  ghost predicate Forward(start: int, nows: seq<int>) {
    && (nows != [] ==> start <= nows[0])
    && forall i, j :: 0 <= i < j < |nows| ==> nows[i] <= nows[j]
  }

  function Last(start: int, nows: seq<int>): int {
    if nows == [] then start else nows[|nows| - 1]
  }

  lemma DueMonotone(start: int, period: int, a: int, b: int)
    requires period > 0 && a <= b
    ensures Due(start, period, a) <= Due(start, period, b)
  {
    DueIff(start, period, a, Due(start, period, a));
    DueIff(start, period, b, Due(start, period, a));
  }

  /**
   While the clock does not go back, the count is one more than before, or all that were due if that is
   less: a call makes up for at most one missed due time.
   */
  lemma {:induction false} FiredIs(start: int, period: int, nows: seq<int>)
    requires period > 0 && Forward(start, nows)
    ensures Run(start, period, nows).fired <= Due(start, period, Last(start, nows))
    ensures nows != [] ==>
              var before := Run(start, period, nows[..|nows| - 1]).fired;
              var due := Due(start, period, Last(start, nows));
              Run(start, period, nows).fired == if before + 1 <= due then before + 1 else due
  {
    if nows == [] {
      assert Due(start, period, start) == 0;
    } else {
      var before := nows[..|nows| - 1];
      FiredIs(start, period, before);
      NoDrift(start, period, before);
      var fired, now := Run(start, period, before).fired, Last(start, nows);
      assert Last(start, before) <= now;
      DueMonotone(start, period, Last(start, before), now);
      DueIff(start, period, now, fired + 1);
      hide Due;
    }
  }

  /** No two due times pass between two calls. */
  ghost predicate Prompt(start: int, period: int, nows: seq<int>)
    requires period > 0
  {
    forall k :: 0 <= k < |nows| ==>
      Due(start, period, nows[k]) <= Due(start, period, Last(start, nows[..k])) + 1
  }

  ghost predicate UpToDate(start: int, period: int, nows: seq<int>)
    requires period > 0
  {
    Run(start, period, nows).fired == Due(start, period, Last(start, nows))
  }

  ghost predicate AlwaysUpToDate(start: int, period: int, nows: seq<int>)
    requires period > 0
  {
    forall k :: 0 <= k <= |nows| ==> UpToDate(start, period, nows[..k])
  }

  lemma PromptStep(start: int, period: int, nows: seq<int>, m: nat)
    requires period > 0 && |nows| == m + 1
    ensures Prompt(start, period, nows) <==>
            && Prompt(start, period, nows[..m])
            && Due(start, period, nows[m]) <= Due(start, period, Last(start, nows[..m])) + 1
  {
    Prefixes(nows, m);
    hide Due, Last;
    assert forall k :: 0 <= k < m ==> nows[..m][k] == nows[k];
  }

  lemma UpToDateStep(start: int, period: int, nows: seq<int>, m: nat)
    requires period > 0 && |nows| == m + 1
    ensures AlwaysUpToDate(start, period, nows) <==>
            AlwaysUpToDate(start, period, nows[..m]) && UpToDate(start, period, nows)
    ensures AlwaysUpToDate(start, period, nows[..m]) ==> UpToDate(start, period, nows[..m])
  {
    Prefixes(nows, m);
    hide UpToDate;
    assert nows[..m + 1] == nows && nows[..m][..m] == nows[..m];
    if AlwaysUpToDate(start, period, nows) {
      assert UpToDate(start, period, nows[..m + 1]);
      forall k | 0 <= k <= m ensures UpToDate(start, period, nows[..m][..k]) {
        assert UpToDate(start, period, nows[..k]);
      }
    }
    if AlwaysUpToDate(start, period, nows[..m]) {
      assert UpToDate(start, period, nows[..m][..m]);
    }
    if AlwaysUpToDate(start, period, nows[..m]) && UpToDate(start, period, nows) {
      forall k | 0 <= k <= m + 1 ensures UpToDate(start, period, nows[..k]) {
        if k <= m { assert UpToDate(start, period, nows[..m][..k]); }
      }
    }
  }

  /** After every call the event has fired as often as it was due, exactly when no two due times fall between calls. */
  lemma {:induction false} UpToDateIff(start: int, period: int, nows: seq<int>)
    requires period > 0 && Forward(start, nows)
    ensures AlwaysUpToDate(start, period, nows) <==> Prompt(start, period, nows)
  {
    if nows == [] {
      assert nows[..0] == [] && Due(start, period, start) == 0;
    } else {
      var m := |nows| - 1;
      UpToDateIff(start, period, nows[..m]);
      FiredIs(start, period, nows);
      FiredIs(start, period, nows[..m]);
      PromptStep(start, period, nows, m);
      UpToDateStep(start, period, nows, m);
      hide Run, Due, AlwaysUpToDate, Prompt;
    }
  }

  lemma Prefixes(nows: seq<int>, m: nat)
    requires m < |nows|
    ensures forall k :: 0 <= k <= m ==> nows[..m][..k] == nows[..k]
  {
  }

  /** Calls at most one period apart are enough. */
  lemma NoDriftWhenCalledOften(start: int, period: int, nows: seq<int>)
    requires period > 0 && Forward(start, nows)
    requires forall k :: 0 <= k < |nows| ==> nows[k] <= Last(start, nows[..k]) + period
    ensures AlwaysUpToDate(start, period, nows)
  {
    forall k | 0 <= k < |nows|
      ensures Due(start, period, nows[k]) <= Due(start, period, Last(start, nows[..k])) + 1
    {
      var last := Last(start, nows[..k]);
      DueMonotone(start, period, nows[k], last + period);
      assert last + period - start == (last - start) + period;
      DueIff(start, period, last, Due(start, period, last) + 1);
      DueIff(start, period, last + period, Due(start, period, last) + 2);
      assert period * (Due(start, period, last) + 2) == period * (Due(start, period, last) + 1) + period;
    }
    UpToDateIff(start, period, nows);
  }

  /** A pause of more than a period leaves the event behind: it fires once for the two that were due. */
  lemma BehindAfterPause()
    ensures Run(0, 60, [120]).fired == 1 && Due(0, 60, 120) == 2
    ensures Run(0, 60, [120, 121]).fired == 2
  {
    assert [120][..0] == [] && [120, 121][..1] == [120];
    assert Run(0, 60, []) == Counted(Event(60, 60), 0);
    assert Run(0, 60, [120]) == Counted(Event(60, 120), 1);
  }

  // ------------------------------------------------------ the tables, updated in place

  class Scheduler {
    const events: array<Event>
    const lastMinute: array<int>

    /** init_periodic() */
    constructor (periods: seq<int>, minutely: nat, now: int, minute: int)
      ensures fresh(events) && fresh(lastMinute) && events.Length == |periods| && lastMinute.Length == minutely
      ensures forall j :: 0 <= j < |periods| ==> events[j] == Run(now, periods[j], []).event
      ensures forall j :: 0 <= j < minutely ==> lastMinute[j] == minute
    {
      events := new Event[|periods|](j requires 0 <= j < |periods| => Event(periods[j], 0));
      lastMinute := new int[minutely](_ => 0);
      new;
      for i := 0 to events.Length
        invariant forall j :: 0 <= j < i ==> events[j] == Event(periods[j], now + periods[j])
        invariant forall j :: i <= j < events.Length ==> events[j].period == periods[j]
      {
        events[i] := events[i].(next := now + events[i].period);
      }
      for i := 0 to lastMinute.Length
        modifies lastMinute
        invariant forall j :: 0 <= j < i ==> lastMinute[j] == minute
      {
        lastMinute[i] := minute;
      }
    }

    /** periodic(): each event on its own, whatever the others do; a minutely one when the minute has changed. */
    method Call(now: int, minute: int) returns (called: seq<bool>, calledMinutely: seq<bool>)
      modifies events, lastMinute
      ensures |called| == events.Length && |calledMinutely| == lastMinute.Length
      ensures forall j :: 0 <= j < events.Length ==> (events[j], called[j]) == Tick(old(events[j]), now)
      ensures forall j :: 0 <= j < lastMinute.Length ==>
                lastMinute[j] == minute && calledMinutely[j] == (old(lastMinute[j]) != minute)
    {
      called, calledMinutely := [], [];
      for i := 0 to events.Length
        modifies events
        invariant |called| == i
        invariant forall j :: 0 <= j < i ==> (events[j], called[j]) == Tick(old(events[j]), now)
        invariant forall j :: i <= j < events.Length ==> events[j] == old(events[j])
      {
        if now >= events[i].next {
          events[i] := events[i].(next := events[i].next + events[i].period);
          called := called + [true];
        } else {
          called := called + [false];
        }
      }
      for i := 0 to lastMinute.Length
        modifies lastMinute
        invariant |calledMinutely| == i
        invariant forall j :: 0 <= j < i ==>
          lastMinute[j] == minute && calledMinutely[j] == (old(lastMinute[j]) != minute)
        invariant forall j :: i <= j < lastMinute.Length ==> lastMinute[j] == old(lastMinute[j])
      {
        calledMinutely := calledMinutely + [minute != lastMinute[i]];
        if minute != lastMinute[i] {
          lastMinute[i] := minute;
        }
      }
    }
  }
}
