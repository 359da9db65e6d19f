/** The list of upstream servers: which one is tried next, and when none is available. */
module Servers {
  datatype Stats = Stats(connect: int, bad: int, consecutive: int)

  const FRESH := Stats(0, 0, 0)

  /** es_list; the source's `max` is the last index. */
  datatype List = List(stats: seq<Stats>, current: nat, refused: nat)

  datatype Config = Config(maxBad: int, minConsecutive: int)

  ghost predicate Wf(l: List) {
    l.current < |l.stats|
  }

  // ------------------------------------------------------------------- one step

  /** switch_server() */
  predicate Switch(l: List, cfg: Config)
    requires l.current < |l.stats|
  {
    l.refused > 0 || (cfg.maxBad > 0 && l.stats[l.current].bad == cfg.maxBad)
  }

  function Following(i: nat, n: nat): nat {
    if i + 1 > n - 1 then 0 else i + 1
  }

  /** get_next_server() up to the attempt to connect. */
  function Pick(l: List, cfg: Config, now: int): (r: List)
    requires Wf(l)
    ensures Wf(r) && |r.stats| == |l.stats| && r.refused == l.refused
  {
    var s := l.stats[l.current];
    if s.connect == 0 then l.(stats := l.stats[l.current := s.(connect := now)])
    else if Switch(l, cfg) then
      var i := Following(l.current, |l.stats|);
      l.(stats := l.stats[i := FRESH.(connect := now)], current := i)
    else l.(stats := l.stats[l.current := s.(consecutive := 0)])
  }

  /** get_next_server(); the second result says that no server is available. */
  function GetNext(l: List, cfg: Config, now: int, connected: bool): (r: (List, bool))
    requires Wf(l)
    ensures Wf(r.0) && |r.0.stats| == |l.stats|
  {
    var p := Pick(l, cfg, now);
    if connected then (p.(refused := 0), false)
    else
      var s := p.stats[p.current];
      var q := p.(stats := p.stats[p.current := s.(bad := s.bad + 1)], refused := p.refused + 1);
      if q.refused > |q.stats| - 1 + 1 then (q.(refused := 0), true) else (q, false)
  }

  /** update_emwin_server_stats() */
  function Packet(l: List, cfg: Config, status: int): (r: List)
    requires Wf(l)
    ensures Wf(r) && |r.stats| == |l.stats|
  {
    var s := l.stats[l.current];
    if status == 0 then
      var c := s.consecutive + 1;
      l.(stats := l.stats[l.current := s.(consecutive := c, bad := if c >= cfg.minConsecutive then 0 else s.bad)])
    else if s.consecutive < cfg.minConsecutive then l.(stats := l.stats[l.current := s.(bad := s.bad + 1)])
    else l
  }

  /** A connection lasts until the first packet that is not good, or until the program is told to stop. */
  function Session(l: List, cfg: Config, statuses: seq<int>): (r: List)
    requires Wf(l)
    ensures Wf(r) && |r.stats| == |l.stats|
    decreases |statuses|
  {
    if statuses == [] then l
    else if statuses[0] != 0 then Packet(l, cfg, statuses[0])
    else Session(Packet(l, cfg, 0), cfg, statuses[1..])
  }

  // ----------------------------------------------------------------------- runs

  /** One call of npemwin_loop(): the clock, whether the connection opens, the packets it then gives. */
  datatype Turn = Turn(now: int, connected: bool, statuses: seq<int>)

  datatype Attempt = Attempt(server: nat, connected: bool, none: bool)

  datatype Trace = Trace(list: List, attempts: seq<Attempt>)

  function Loop(l: List, cfg: Config, turn: Turn): (r: List)
    requires Wf(l)
    ensures Wf(r) && |r.stats| == |l.stats|
  {
    var (l1, none) := GetNext(l, cfg, turn.now, turn.connected);
    if none || !turn.connected then l1 else Session(l1, cfg, turn.statuses)
  }

  function Initial(n: nat): List {
    List(seq(n, _ => FRESH), 0, 0)
  }

  function Run(n: nat, cfg: Config, turns: seq<Turn>): (r: Trace)
    requires n > 0
    ensures Wf(r.list) && |r.list.stats| == n && |r.attempts| == |turns|
  {
    if turns == [] then Trace(Initial(n), [])
    else
      var before, turn := Run(n, cfg, turns[..|turns| - 1]), turns[|turns| - 1];
      var (l, none) := GetNext(before.list, cfg, turn.now, turn.connected);
      Trace(Loop(before.list, cfg, turn), before.attempts + [Attempt(l.current, turn.connected, none)])
  }

  /** time() never gives 0. */
  ghost predicate Clock(turns: seq<Turn>) {
    forall k :: 0 <= k < |turns| ==> turns[k].now != 0
  }

  // ------------------------------------------------------------- bad packet counts

  /** No count is over the limit, and a server that was never tried has none. */
  ghost predicate Counts(stats: seq<Stats>, cfg: Config) {
    forall i :: 0 <= i < |stats| ==> 0 <= stats[i].bad <= cfg.maxBad && (stats[i].connect == 0 ==> stats[i].bad == 0)
  }

  /** The server that is about to be tried is below the limit, so one more mark is allowed. */
  lemma PickBelow(l: List, cfg: Config, now: int)
    requires Wf(l) && cfg.maxBad > 0 && Counts(l.stats, cfg) && now != 0
    ensures var p := Pick(l, cfg, now);
            && Counts(p.stats, cfg)
            && p.stats[p.current].bad < cfg.maxBad && p.stats[p.current].connect != 0
  {
  }

  lemma {:induction false} SessionBelow(l: List, cfg: Config, statuses: seq<int>)
    requires Wf(l) && cfg.maxBad > 0 && Counts(l.stats, cfg)
    requires l.stats[l.current].bad < cfg.maxBad && l.stats[l.current].connect != 0
    ensures Counts(Session(l, cfg, statuses).stats, cfg)
    decreases |statuses|
  {
    if statuses != [] && statuses[0] == 0 {
      SessionBelow(Packet(l, cfg, 0), cfg, statuses[1..]);
    }
  }

  lemma LoopCounts(l: List, cfg: Config, turn: Turn)
    requires Wf(l) && cfg.maxBad > 0 && Counts(l.stats, cfg) && turn.now != 0
    ensures Counts(Loop(l, cfg, turn).stats, cfg)
  {
    PickBelow(l, cfg, turn.now);
    hide Pick;
    if turn.connected {
      hide Session;
      SessionBelow(GetNext(l, cfg, turn.now, true).0, cfg, turn.statuses);
    }
  }

  /**
   With a positive limit no server's count ever passes it, in any run; so a server at or over the limit
   is always exactly at it, and the test for equality is as good as one for "at least".
   */
  lemma {:induction false} BadCountBounded(n: nat, cfg: Config, turns: seq<Turn>)
    requires n > 0 && cfg.maxBad > 0 && Clock(turns)
    ensures Counts(Run(n, cfg, turns).list.stats, cfg)
    ensures var l := Run(n, cfg, turns).list;
            Switch(l, cfg) <==> l.refused > 0 || l.stats[l.current].bad >= cfg.maxBad
  {
    if turns != [] {
      BadCountBounded(n, cfg, turns[..|turns| - 1]);
      LoopCounts(Run(n, cfg, turns[..|turns| - 1]).list, cfg, turns[|turns| - 1]);
    }
  }

  // -------------------------------------------------------------------- rotation

  /** How many attempts were refused since the last connection and the last report. */
  function Streak(h: seq<Attempt>): nat {
    if h == [] || h[|h| - 1].connected || h[|h| - 1].none then 0 else Streak(h[..|h| - 1]) + 1
  }

  /** After a refused attempt that ends nothing, the next attempt is at the following server. */
  ghost predicate Chained(h: seq<Attempt>, n: nat) {
    forall p, q :: 0 <= p < |h| && q == p + 1 && q < |h| && !h[p].connected && !h[p].none ==>
      h[q].server == Following(h[p].server, n)
  }

  ghost predicate Follows(t: Trace, n: nat) {
    && |t.list.stats| == n && Wf(t.list)
    && t.list.refused == Streak(t.attempts)
    && Chained(t.attempts, n)
    && (forall p :: 0 <= p < |t.attempts| ==> t.attempts[p].server < n)
    && (t.attempts != [] ==> t.list.current == t.attempts[|t.attempts| - 1].server)
    && (t.attempts != [] ==> t.list.stats[t.list.current].connect != 0)
  }

  lemma {:induction false} SessionStays(l: List, cfg: Config, statuses: seq<int>)
    requires Wf(l)
    ensures var r := Session(l, cfg, statuses);
            r.current == l.current && r.refused == l.refused && r.stats[r.current].connect == l.stats[l.current].connect
    decreases |statuses|
  {
    if statuses != [] && statuses[0] == 0 {
      SessionStays(Packet(l, cfg, 0), cfg, statuses[1..]);
    }
  }

  lemma LoopStays(l: List, cfg: Config, turn: Turn)
    requires Wf(l) && turn.now != 0
    ensures var (l1, none) := GetNext(l, cfg, turn.now, turn.connected);
            var r := Loop(l, cfg, turn);
            && r.current == l1.current && r.refused == l1.refused && r.stats[r.current].connect != 0
            && none == (!turn.connected && l.refused >= |l.stats|)
            && r.refused == (if turn.connected || none then 0 else l.refused + 1)
            && (l.refused > 0 && l.stats[l.current].connect != 0 ==> r.current == Following(l.current, |l.stats|))
  {
    var l1 := GetNext(l, cfg, turn.now, turn.connected).0;
    SessionStays(l1, cfg, turn.statuses);
    hide Session;
  }

  lemma AppendStreak(h: seq<Attempt>, a: Attempt)
    ensures Streak(h + [a]) == if a.connected || a.none then 0 else Streak(h) + 1
  {
    assert (h + [a])[..|h|] == h;
  }

  lemma AppendFollows(h: seq<Attempt>, n: nat, a: Attempt)
    requires Chained(h, n)
    requires h != [] && !h[|h| - 1].connected && !h[|h| - 1].none ==> a.server == Following(h[|h| - 1].server, n)
    ensures Chained(h + [a], n)
  {
    hide Following;
    var g := h + [a];
    forall p, q | 0 <= p < |g| && q == p + 1 && q < |g| && !g[p].connected && !g[p].none
      ensures g[q].server == Following(g[p].server, n)
    {
      assert g[p] == h[p];
      if q < |h| { assert g[q] == h[q]; }
    }
  }

  lemma {:induction false} RunFollows(n: nat, cfg: Config, turns: seq<Turn>)
    requires n > 0 && Clock(turns)
    ensures Follows(Run(n, cfg, turns), n)
  {
    hide GetNext, Loop;
    if turns != [] {
      var before, turn := Run(n, cfg, turns[..|turns| - 1]), turns[|turns| - 1];
      RunFollows(n, cfg, turns[..|turns| - 1]);
      FollowsOn(before, cfg, turn, n);
    }
  }

  lemma FollowsOn(t: Trace, cfg: Config, turn: Turn, n: nat)
    requires n > 0 && Follows(t, n) && turn.now != 0
    ensures var (l, none) := GetNext(t.list, cfg, turn.now, turn.connected);
            Follows(Trace(Loop(t.list, cfg, turn), t.attempts + [Attempt(l.current, turn.connected, none)]), n)
  {
    LoopStays(t.list, cfg, turn);
    hide GetNext, Loop, Streak, Chained, Following;
    var (l, none) := GetNext(t.list, cfg, turn.now, turn.connected);
    var a := Attempt(l.current, turn.connected, none);
    StreakStarts(t.attempts);
    AppendFollows(t.attempts, n, a);
    AppendStreak(t.attempts, a);
  }

  lemma StreakStarts(h: seq<Attempt>)
    ensures h != [] && !h[|h| - 1].connected && !h[|h| - 1].none ==> Streak(h) > 0
  {
  }

  // ------------------------------------------------------------- nobody available

  /** The attempt k places before the end. */
  function Back(h: seq<Attempt>, k: nat): Attempt
    requires k < |h|
  {
    h[|h| - 1 - k]
  }

  lemma {:induction false} StreakBack(h: seq<Attempt>, k: nat)
    requires k < Streak(h)
    ensures Streak(h) <= |h| && !Back(h, k).connected && !Back(h, k).none
    decreases k
  {
    StreakShort(h);
    if k > 0 { StreakBack(h[..|h| - 1], k - 1); }
  }

  lemma {:induction false} StreakShort(h: seq<Attempt>)
    ensures Streak(h) <= |h|
  {
    if h != [] { StreakShort(h[..|h| - 1]); }
  }

  /** k steps on from i in a ring of n. */
  function Ring(i: int, k: nat, n: nat): int
    requires n > 0
  {
    (i + k) % n
  }

  lemma RingStep(i: nat, k: nat, n: nat)
    requires i < n
    ensures Ring(i, k + 1, n) == Following(Ring(i, k, n), n)
  {
    var r := (i + k) % n;
    var q := (i + k) / n;
    assert i + k == q * n + r;
    if r + 1 < n {
      Remainder(i + k + 1, q, r + 1, n);
    } else {
      assert i + k + 1 == (q + 1) * n + 0;
      Remainder(i + k + 1, q + 1, 0, n);
    }
  }

  lemma Remainder(x: int, q: int, r: nat, n: nat)
    requires r < n && x == q * n + r
    ensures x % n == r
  {
    var d := x / n - q;
    assert x % n == r - d * n;
    assert d >= 1 ==> d * n >= n;
    assert d <= -1 ==> d * n <= -1 * n;
  }

  /** In a streak the servers are those of the ring, one after the other. */
  lemma {:induction false} StreakRing(h: seq<Attempt>, n: nat, m: nat, k: nat)
    requires n > 0 && Chained(h, n) && k <= m < |h| && Back(h, m).server < n
    requires forall j :: 0 < j <= m ==> !Back(h, j).connected && !Back(h, j).none
    ensures Back(h, m - k).server == Ring(Back(h, m).server, k, n)
  {
    if k > 0 {
      StreakRing(h, n, m, k - 1);
      RingStep(Back(h, m).server, k - 1, n);
      assert !Back(h, m - k + 1).connected;
      assert Back(h, m - k) == h[|h| - 1 - (m - k)] && Back(h, m - k + 1) == h[|h| - 2 - (m - k)];
    }
  }

  lemma RefusedBefore(h: seq<Attempt>, n: nat)
    requires h != [] && Streak(h[..|h| - 1]) >= n
    ensures n < |h|
    ensures forall k :: 0 < k <= n ==> !Back(h, k).connected && !Back(h, k).none
  {
    var g := h[..|h| - 1];
    StreakShort(g);
    forall k | 0 < k <= n ensures !Back(h, k).connected && !Back(h, k).none {
      StreakBack(g, k - 1);
      assert Back(g, k - 1) == Back(h, k);
    }
  }

  lemma RoundTheRing(h: seq<Attempt>, n: nat)
    requires n > 0 && h != [] && Streak(h[..|h| - 1]) >= n && Chained(h, n)
    requires forall p :: 0 <= p < |h| ==> h[p].server < n
    ensures n < |h|
    ensures forall k :: 0 < k <= n ==> !Back(h, k).connected
    ensures forall k :: 0 <= k <= n ==> Back(h, n - k).server == Ring(Back(h, n).server, k, n)
  {
    RefusedBefore(h, n);
    hide Streak, Ring, Chained;
    forall k | 0 <= k <= n ensures Back(h, n - k).server == Ring(Back(h, n).server, k, n) {
      StreakRing(h, n, n, k);
    }
  }

  /**
   "No servers available" is reported by an attempt exactly when it is refused and so were the n before
   it, since the last connection or report. Those n + 1 attempts go round the list in order: they end
   where they began.
   */
  lemma NoneIff(n: nat, cfg: Config, turns: seq<Turn>)
    requires n > 0 && Clock(turns) && turns != []
    ensures var h := Run(n, cfg, turns).attempts;
            && (Back(h, 0).none <==> !Back(h, 0).connected && Streak(h[..|h| - 1]) >= n)
            && (Back(h, 0).none ==>
                  && n < |h|
                  && (forall k :: 0 <= k <= n ==> !Back(h, k).connected)
                  && (forall k :: 0 <= k <= n ==> Back(h, n - k).server == Ring(Back(h, n).server, k, n)))
  {
    var before := turns[..|turns| - 1];
    RunFollows(n, cfg, turns);
    RunFollows(n, cfg, before);
    var h := Run(n, cfg, turns).attempts;
    LoopStays(Run(n, cfg, before).list, cfg, turns[|turns| - 1]);
    assert h[..|h| - 1] == Run(n, cfg, before).attempts;
    hide Run, Loop, GetNext;
    if Back(h, 0).none {
      RoundTheRing(h, n);
      hide Streak, Ring, Chained;
    }
  }

  /** So every server of the list refused at least one of those attempts. */
  lemma EveryServerRefused(n: nat, cfg: Config, turns: seq<Turn>, server: nat)
    requires n > 0 && Clock(turns) && turns != [] && server < n && Back(Run(n, cfg, turns).attempts, 0).none
    ensures var h := Run(n, cfg, turns).attempts;
            exists k :: 0 <= k <= n < |h| && Back(h, k).server == server && !Back(h, k).connected
  {
    NoneIff(n, cfg, turns);
    RunFollows(n, cfg, turns);
    var h := Run(n, cfg, turns).attempts;
    hide Run;
    var first := Back(h, n).server;
    var k := if server >= first then server - first else server - first + n;
    assert Ring(first, k, n) == server by {
      if server >= first { Remainder(first + k, 0, server, n); } else { Remainder(first + k, 1, server, n); }
    }
    assert Back(h, n - k).server == server;
  }

  // -------------------------------------------------------- the list, updated in place

  class EmwinServers {
    const cfg: Config
    const stats: array<Stats>
    var current: nat
    var refused: nat

    ghost predicate Valid()
      reads this
    {
      current < stats.Length
    }

    ghost function Contents(): List
      reads this, stats
    {
      List(stats[..], current, refused)
    }

    constructor (n: nat, cfg: Config)
      requires n > 0
      ensures Valid() && fresh(stats) && this.cfg == cfg && Contents() == Initial(n)
    {
      this.cfg := cfg;
      stats := new Stats[n](_ => FRESH);
      current, refused := 0, 0;
    }

    /** get_next_server(): the index of the server that was tried, or -1. */
    method NextServer(now: int, connected: bool) returns (server: int)
      requires Valid()
      modifies this, stats
      ensures Valid()
      ensures Contents() == GetNext(old(Contents()), cfg, now, connected).0
      ensures server == if GetNext(old(Contents()), cfg, now, connected).1 then -1 else current
    {
      if stats[current].connect == 0 {
        stats[current] := stats[current].(connect := now);
      } else if refused > 0 || (cfg.maxBad > 0 && stats[current].bad == cfg.maxBad) {
        current := current + 1;
        if current > stats.Length - 1 { current := 0; }
        stats[current] := FRESH;
        stats[current] := stats[current].(connect := now);
      } else {
        stats[current] := stats[current].(consecutive := 0);
      }
      assert Contents() == Pick(old(Contents()), cfg, now);
      hide Pick;
      if !connected {
        stats[current] := stats[current].(bad := stats[current].bad + 1);
        refused := refused + 1;
      } else {
        refused := 0;
      }
      server := current;
      if refused > stats.Length - 1 + 1 {
        refused := 0;
        server := -1;
      }
    }

    /** update_emwin_server_stats() */
    method UpdateStats(status: int)
      requires Valid()
      modifies stats
      ensures Contents() == Packet(old(Contents()), cfg, status)
    {
      var s := stats[current];
      if status == 0 {
        s := s.(consecutive := s.consecutive + 1);
        if s.consecutive >= cfg.minConsecutive { s := s.(bad := 0); }
      } else if s.consecutive < cfg.minConsecutive {
        s := s.(bad := s.bad + 1);
      }
      stats[current] := s;
      assert stats[..] == old(stats[..])[current := s];
    }

    /** npemwin_loop() */
    method RunLoop(turn: Turn) returns (status: int)
      requires Valid()
      modifies this, stats
      ensures Valid() && Contents() == Loop(old(Contents()), cfg, turn)
    {
      status := 0;
      var server := NextServer(turn.now, turn.connected);
      if server == -1 || !turn.connected { status := 1; }
      ghost var l := Contents();
      var k := 0;
      while status == 0 && k < |turn.statuses|
        invariant 0 <= k <= |turn.statuses| && Valid()
        invariant server == -1 || !turn.connected ==> status != 0 && Contents() == l
        invariant status == 0 ==> Session(Contents(), cfg, turn.statuses[k..]) == Session(l, cfg, turn.statuses)
        invariant status != 0 && server != -1 && turn.connected ==> Contents() == Session(l, cfg, turn.statuses)
        decreases |turn.statuses| - k
      {
        hide Packet, GetNext;
        status := turn.statuses[k];
        UpdateStats(status);
        assert turn.statuses[k..][1..] == turn.statuses[k + 1..];
        k := k + 1;
      }
      assert turn.statuses[|turn.statuses|..] == [];
    }
  }
}
