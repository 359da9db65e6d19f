/** Two daemons in a row: what one sends to a V1 client, and what the other, as that client, receives. */
module Relay {
  import opened Bytes
  import opened Receive
  import opened DecodeBuilt
  import opened Spool
  import opened SpoolSessions
  import opened EndToEnd
  import opened BbFeed
  import Insert
  import Pipeline
  import C = ConnTable
  import Q = ClientQueue
  import T = ClientThread
  import S = ServerRun

  // -------------------------------------------------------------- what a client receives

  /** A selection of wires is the wires of a selection. */
  lemma {:induction false} WiresOf(a: seq<seq<byte>>, items: seq<Item>) returns (chosen: seq<Item>)
    requires AllRelayable(items) && T.Subsequence(a, Wires(items))
    ensures a == Wires(chosen) && AllRelayable(chosen)
    decreases |items|
  {
    hide Relayable;
    var b := Wires(items);
    if items == [] {
      chosen := [];
    } else {
      var before := items[..|items| - 1];
      assert b[..|b| - 1] == Wires(before);
      if T.Subsequence(a, b[..|b| - 1]) {
        chosen := WiresOf(a, before);
      } else {
        var front := WiresOf(a[..|a| - 1], before);
        chosen := front + [items[|items| - 1]];
        assert a == a[..|a| - 1] + [a[|a| - 1]];
        assert Wires(chosen) == Wires(front) + [Wire(items[|items| - 1])];
      }
    }
  }

  /** How many of the items were sent whole, and the piece of the next. */
  ghost predicate SentWhole(out: seq<byte>, items: seq<Item>, m: nat, piece: seq<byte>) {
    && m <= |items| && out == Concat(Wires(items[..m])) + piece
    && (if m < |items| then piece < Wire(items[m]) else piece == [])
  }

  lemma WholeItems(out: seq<byte>, items: seq<Item>) returns (m: nat, piece: seq<byte>)
    requires AllRelayable(items)
    requires exists k: nat, p :: T.OutputIs(out, Wires(items), k, p) && |items| <= k + 1
    ensures SentWhole(out, items, m, piece) && |items| <= m + 1
  {
    hide Relayable, Concat;
    m, piece :| T.OutputIs(out, Wires(items), m, piece) && |items| <= m + 1;
    assert Wires(items)[..m] == Wires(items[..m]);
    if m < |items| && piece == Wire(items[m]) {
      ConcatAppend(Wires(items[..m]), [Wire(items[m])]);
      assert Wires(items[..m + 1]) == Wires(items[..m]) + [Wire(items[m])];
      OneConcat(piece);
      assert out == Concat(Wires(items[..m + 1])) + [];
      m, piece := m + 1, [];
    }
  }

  lemma OneConcat(x: seq<byte>)
    ensures Concat([x]) == x
  {
    assert [x][..0] == [];
  }

  /** The other side reads exactly the items that were sent whole. */
  lemma ReadsWhole(out: seq<byte>, items: seq<Item>, m: nat, piece: seq<byte>)
    requires AllRelayable(items) && SentWhole(out, items, m, piece)
    ensures Items(out) == items[..m]
  {
    hide Relayable, NextItem, Items, Concat;
    if m < |items| {
      NoItem(items[m], piece);
    } else {
      NothingThere();
    }
    ItemsOfStream(items[..m], piece);
  }

  lemma NothingThere()
    ensures NextItem([]) == None
  {
  }

  lemma PrefixOf(items: seq<Item>, m: nat)
    requires m <= |items|
    ensures Wires(items[..m]) == Wires(items)[..m]
  {
  }

  /** What a client thread sends is read as some of the items offered to it, each whole, in their order. */
  lemma ReceivesOffered(lim: Q.Limits, log: seq<T.Event>, items: seq<Item>)
    requires (forall k :: 0 <= k < |log| ==> T.Possible(log[k])) && AllRelayable(items) && S.Offers(log) == Wires(items)
    ensures T.Subsequence(Wires(Items(T.RunWorld(lim, log).client.out)), S.Offers(log))
  {
    hide T.RunWorld, T.Subsequence, S.Offers, T.Possible, T.OutputIs, Relayable, Items, SentWhole;
    var w := T.RunWorld(lim, log);
    S.TakenWasOffered(lim, log);
    var taken := WiresOf(w.taken, items);
    var m, piece := WholeItems(w.client.out, taken);
    ReadsWhole(w.client.out, taken, m, piece);
    MFits(w.client.out, taken, m, piece);
    PrefixOf(taken, m);
    S.PrefixIsSubsequence(w.taken, m);
    S.SubsequenceOn(w.taken[..m], w.taken, S.Offers(log));
  }

  lemma MFits(out: seq<byte>, items: seq<Item>, m: nat, piece: seq<byte>)
    requires SentWhole(out, items, m, piece)
    ensures m <= |items|
  {
  }

  /** Every packet built from a file can be relayed. */
  lemma BuiltIsRelayable(file: seq<byte>, name: seq<byte>, date: seq<byte>, k: nat)
    requires Pipeline.Sendable(file, name, date) && 1 <= k <= Insert.PartsTotal(|file|)
    ensures Relayable(Data(Insert.PacketOf(file, name, date, k)))
  {
    hide Insert.PacketOf, Decode;
    Pipeline.BuiltPacket(file, name, date, k);
    Pipeline.BlockOfPacket(file, name, date, k);
    var p := Insert.PacketOf(file, name, date, k);
    assert p[0] == p[..6][0];
  }

  // ------------------------------------------------------------------ the whole server

  /** Every packet that is sent goes to V1 clients as a server list or a good packet, masked. */
  ghost predicate Relaying(steps: seq<S.Step>) {
    forall k :: 0 <= k < |steps| && steps[k].Send? ==> Sends(steps[k])
  }

  ghost predicate Sends(st: S.Step)
    requires st.Send?
  {
    |st.v2| <= 1116 && exists item :: Relayable(item) && st.v1 == Wire(item)
  }

  lemma RelayableSize(item: Item)
    requires Relayable(item)
    ensures |Wire(item)| <= 1116
  {
    hide Decode;
    if item.Servers? { ListEndSize(item.list, 1, 0); }
  }

  lemma {:induction false} ListEndSize(t: seq<byte>, i: nat, count: nat)
    requires i <= |t| && i <= PACKET_SIZE
    ensures ListEnd(t, i, count).Some? ==> ListEnd(t, i, count).value <= PACKET_SIZE
    decreases |t| - i
  {
    if count != 4 && i < PACKET_SIZE && i < |t| {
      ListEndSize(t, i + 1, if t[i] == BACKSLASH then count + 1 else count);
    }
  }

  lemma {:induction false} SentItems(t: C.Table, steps: seq<S.Step>, id: nat) returns (items: seq<Item>)
    requires |t.fds| == |t.entries| && Relaying(steps)
    ensures S.SentTo(t, steps, id, C.V1) == Wires(items) && AllRelayable(items)
  {
    hide Relayable, S.Run;
    if steps == [] {
      items := [];
    } else {
      var before, st := steps[..|steps| - 1], steps[|steps| - 1];
      assert forall k :: 0 <= k < |before| ==> before[k] == steps[k];
      items := SentItems(t, before, id);
      if S.Reached(S.Run(t, before).table, id, st) {
        assert Sends(st);
        var item :| Relayable(item) && st.v1 == Wire(item);
        assert Wires(items + [item]) == Wires(items) + [Wire(item)];
        items := items + [item];
      }
    }
  }

  lemma RelayingFits(steps: seq<S.Step>)
    requires Relaying(steps)
    ensures S.Fitting(steps)
  {
    hide Relayable;
    forall k | 0 <= k < |steps| && steps[k].Send? ensures |steps[k].v1| <= 1116 && |steps[k].v2| <= 1116 {
      assert Sends(steps[k]);
      var item :| Relayable(item) && steps[k].v1 == Wire(item);
      RelayableSize(item);
    }
  }

  /**
   For every run of the whole server and every V1 connection: the daemon at the other end reads packets and
   server lists that were sent while the connection's thread was running, each whole, unchanged and in
   their order, whatever was refused, lost or cut.
   */
  lemma RelayIsFaithful(t: C.Table, steps: seq<S.Step>, lim: Q.Limits, id: nat)
    requires C.Inv(t) && (forall j :: 0 <= j < |t.entries| ==> t.entries[j].thread.NoThread?) && Relaying(steps)
    requires |t.fds| == |t.entries| && id in S.Run(t, steps).past && S.Run(t, steps).past[id].protocol == C.V1
    ensures var out := T.RunWorld(lim, S.Run(t, steps).past[id].log).client.out;
            T.Subsequence(Wires(Items(out)), S.SentTo(t, steps, id, C.V1))
  {
    hide C.Inv, S.Run, S.SentTo, S.Offers, T.RunWorld, T.Subsequence, T.Possible, Relaying, Relayable, Items, S.Fitting;
    hide S.Speaks;
    RelayingFits(steps);
    S.LogsFit(t, steps);
    S.OneProtocol(t, steps, id);
    var items := SentItems(t, steps, id);
    ReceivesOffered(lim, S.Run(t, steps).past[id].log, items);
  }

  // ------------------------------------------------------------------ file to file

  /** No queue operation fails, and there is no hard limit. */
  ghost predicate Reliable(lim: Q.Limits, log: seq<T.Event>) {
    && lim.hard <= 0
    && forall k :: 0 <= k < |log| ==>
         && (log[k].Offer? ==> log[k].putOk && |log[k].payload| <= 1116)
         && (log[k].Receive? ==> log[k].truncateStatus == 0)
  }

  lemma {:induction false} AllQueued(lim: Q.Limits, log: seq<T.Event>)
    requires Reliable(lim, log)
    ensures T.RunWorld(lim, log).queued == S.Offers(log)
  {
    if log != [] {
      var before := log[..|log| - 1];
      assert forall k :: 0 <= k < |before| ==> before[k] == log[k];
      AllQueued(lim, before);
      hide T.Step;
    }
  }

  lemma {:induction false} SameItems(a: seq<Item>, b: seq<Item>)
    requires AllRelayable(a) && AllRelayable(b) && Wires(a) == Wires(b)
    ensures a == b
  {
    hide Relayable, NextItem;
    ItemsOfStream(a, []) by { NothingThere(); }
    ItemsOfStream(b, []) by { NothingThere(); }
  }

  /** Reliably sent, the first k items arrive once their bytes are out. */
  lemma Arrived(lim: Q.Limits, log: seq<T.Event>, items: seq<Item>, k: nat)
    requires Reliable(lim, log) && AllRelayable(items) && S.Offers(log) == Wires(items) && k <= |items|
    requires |T.RunWorld(lim, log).client.out| >= |Concat(Wires(items[..k]))|
    ensures var got := Items(T.RunWorld(lim, log).client.out); k <= |got| && got[..k] == items[..k]
  {
    hide T.RunWorld, S.Offers, T.OutputIs, T.Subsequence, Relayable, Items, SentWhole, Concat;
    var w := T.RunWorld(lim, log);
    T.ClientOutput(lim, log);
    T.NothingLost(lim, log);
    AllQueued(lim, log);
    S.TakenWasOffered(lim, log);
    var taken := WiresOf(w.taken, items);
    assert AllRelayable(taken);
    var n := |taken|;
    assert Wires(taken) == Wires(items)[..n];
    PrefixOf(items, n);
    SameItems(taken, items[..n]);
    var m, piece := WholeItems(w.client.out, taken);
    ReadsWhole(w.client.out, taken, m, piece);
    MFits(w.client.out, taken, m, piece);
    Enough(w.client.out, items, taken, m, piece, k);
  }

  /** When the bytes of the first k items are out, at least k items were sent whole. */
  lemma Enough(out: seq<byte>, items: seq<Item>, taken: seq<Item>, m: nat, piece: seq<byte>, k: nat)
    requires AllRelayable(items) && |taken| <= |items| && taken == items[..|taken|] && k <= |items|
    requires SentWhole(out, taken, m, piece) && |out| >= |Concat(Wires(items[..k]))|
    ensures k <= m
  {
    hide Concat, Relayable;
    assert taken[..m] == items[..m];
    if m < |items| {
      WireNotEmpty(items[m]);
      if m < k {
        Longer(Wires(items), m, k);
        PrefixOf(items, m);
        PrefixOf(items, k);
      }
    }
  }

  lemma WireNotEmpty(item: Item)
    requires Relayable(item)
    ensures |Wire(item)| > 0
  {
  }

  lemma Longer(xs: seq<seq<byte>>, m: nat, k: nat)
    requires m < k <= |xs|
    ensures |Concat(xs[..k])| >= |Concat(xs[..m])| + |xs[m]|
  {
    assert xs[..k] == xs[..m] + xs[m..k] && xs[m..k][0] == xs[m];
    ConcatAppend(xs[..m], xs[m..k]);
    ConcatHead(xs[m..k]);
    hide Concat;
  }

  /** The packets among the items, as they reach the spool. */
  function ItemFeed(items: seq<Item>): seq<Feed> {
    if items == [] then [] else
    ItemFeed(items[..|items| - 1])
    + match items[|items| - 1] case Data(packet) => [Packet(packet)] case Servers(_) => []
  }

  /**
   File to file over two daemons: when the packets of a file, among any other packets and server lists,
   were offered to a V1 client and their bytes are out, the daemon at the other end, which takes the first
   item only to see that the server is there, assembles the file from what it then reads.
   */
  lemma RelayedFile(lim: Q.Limits, log: seq<T.Event>, items: seq<Item>, k: nat,
                    key: int, pre: seq<Feed>, during: seq<Feed>, file: seq<byte>, name: seq<byte>, date: seq<byte>)
    requires Reliable(lim, log) && AllRelayable(items) && S.Offers(log) == Wires(items) && 1 <= k <= |items|
    requires |T.RunWorld(lim, log).client.out| >= |Concat(Wires(items[..k]))|
    requires ItemFeed(items[1..k]) == pre + during && Transmitted(during, [], file, name, date)
    requires FreshFrom(key, EventsOf3(pre, during, []), SpoolName(name), |EventsOf(pre)|, false)
    ensures ValidName(SpoolName(name)) && k <= |Items(T.RunWorld(lim, log).client.out)|
    ensures var got := Items(T.RunWorld(lim, log).client.out);
            Joins(Process(Run(Empty(key), EventsOf(ItemFeed(got[1..k]))), SpoolName(name)).1, file, name)
  {
    hide T.RunWorld, S.Offers, Relayable, Items, Concat, Transmitted, FreshFrom, Process, Run, EventsOf, ItemFeed;
    hide SpoolName, Reliable;
    Arrived(lim, log, items, k);
    var got := Items(T.RunWorld(lim, log).client.out);
    assert got[1..k] == got[..k][1..] && items[1..k] == items[..k][1..];
    EventsAppend(pre, during);
    NoEvents();
    assert EventsOf3(pre, during, []) == EventsOf(pre + during);
    FileSurvives(key, pre, during, [], file, name, date);
  }

  lemma NoEvents()
    ensures EventsOf([]) == []
  {
  }
}
