/** From a file handed to npemwininsert to the file joined by the queue runner. */
module EndToEnd {
  import opened Bytes
  import opened Header
  import opened Insert
  import opened Receive
  import opened DecodeBuilt
  import opened Spool
  import opened SpoolSessions
  import opened SpoolHistory

  /** What reaches the receiving side: a 1116-byte packet, or a turn of the queue runner. */
  datatype Feed = Packet(bytes: seq<byte>) | Runner(name: Name)

  /** The block a packet brings to the spool, if it decodes. */
  function BlockOf(packet: seq<byte>): Option<Arrival> {
    if |packet| != Receive.PACKET_SIZE then None else
    match Decode(packet)
    case Bad(_) => None
    case Good(p) => Some(Arrival(p.name, p.blockno, p.numblocks, p.data))
  }

  /** Packets that decode reach the spool; the others are dropped. */
  function EventsOf(feed: seq<Feed>): seq<Event> {
    if feed == [] then [] else
    var rest := EventsOf(feed[..|feed| - 1]);
    match feed[|feed| - 1]
    case Packet(bytes) =>
      var b := BlockOf(bytes);
      if b.Some? then rest + [Arrive(b.value)] else rest
    case Runner(name) => rest + [RunRecord(name)]
  }

  lemma {:induction false} EventsAppend(a: seq<Feed>, b: seq<Feed>)
    ensures EventsOf(a + b) == EventsOf(a) + EventsOf(b)
  {
    hide BlockOf;
    if b == [] {
      assert a + b == a;
    } else {
      EventsAppend(a, b[..|b| - 1]);
      assert (a + b)[..|a + b| - 1] == a + b[..|b| - 1];
    }
  }

  /** The packets of a feed that decode to one product. */
  function Own(feed: seq<Feed>, name: Name): seq<seq<byte>> {
    if feed == [] then [] else
    var rest := Own(feed[..|feed| - 1], name);
    match feed[|feed| - 1]
    case Packet(bytes) =>
      var b := BlockOf(bytes);
      if b.Some? && b.value.name == name then rest + [bytes] else rest
    case Runner(_) => rest
  }

  // ----------------------------------------------------------- one transmission

  /** The blocks delivered for a product are those of its packets, one by one. */
  ghost predicate Delivers(packets: seq<seq<byte>>, blocks: seq<Arrival>) {
    |packets| == |blocks| && forall i :: 0 <= i < |packets| ==> BlockOf(packets[i]) == Some(blocks[i])
  }

  lemma {:induction false} OwnBlocks(feed: seq<Feed>, name: Name)
    ensures Delivers(Own(feed, name), BlocksOf(EventsOf(feed), name))
  {
    hide BlockOf, Decode;
    if feed != [] {
      var before := feed[..|feed| - 1];
      OwnBlocks(before, name);
      hide Delivers;
      var events, events' := EventsOf(before), EventsOf(feed);
      if events' != events {
        assert events'[..|events'| - 1] == events;
      }
      match feed[|feed| - 1]
      case Packet(bytes) =>
        if BlockOf(bytes).Some? {
          DeliversOneMore(Own(before, name), BlocksOf(events, name), bytes, BlockOf(bytes).value);
        }
      case Runner(_) =>
    }
  }

  lemma DeliversOneMore(packets: seq<seq<byte>>, blocks: seq<Arrival>, packet: seq<byte>, block: Arrival)
    requires Delivers(packets, blocks) && BlockOf(packet) == Some(block)
    ensures Delivers(packets + [packet], blocks + [block])
  {
    hide BlockOf;
  }

  /** The blocks 1..n of one product, in order. */
  ghost predicate WholeProduct(parts: seq<Arrival>, name: Name) {
    forall k :: 0 <= k < |parts| ==>
      parts[k].name == name && parts[k].blockno == k + 1 && parts[k].numblocks == |parts|
  }

  ghost predicate EndsWithLast(events: seq<Event>, name: Name) {
    events != [] && LastOf(events[|events| - 1], name)
  }

  lemma LastStep(pre: seq<Event>, during: seq<Event>, name: Name)
    requires during != []
    ensures var before, e := during[..|during| - 1], during[|during| - 1];
            && RunRef(pre + during) == StepRef(RunRef(pre + before), e)
            && BlocksOf(during, name)
               == BlocksOf(before, name) + (if e.Arrive? && e.arrival.name == name then [e.arrival] else [])
  {
    assert (pre + during)[..|pre + during| - 1] == pre + during[..|during| - 1];
  }

  lemma LastPart(parts: seq<Arrival>, n: nat, before: seq<Arrival>, a: Arrival)
    requires 1 <= n <= |parts| && before + [a] == parts[..n]
    ensures before == parts[..n - 1] && a == parts[n - 1]
  {
    assert (before + [a])[..n - 1] == before && (before + [a])[n - 1] == a;
    assert parts[..n][..n - 1] == parts[..n - 1];
  }

  /** While the parts of a transmission arrive in order, the spool holds those received so far. */
  lemma {:induction false} Transmission(pre: seq<Event>, during: seq<Event>, parts: seq<Arrival>, name: Name, n: nat)
    requires WholeProduct(parts, name) && 1 <= n <= |parts|
    requires BlocksOf(during, name) == parts[..n]
    ensures n < |parts| ==>
      var r := RunRef(pre + during); name in r.open && r.open[name] == parts[..n]
    ensures n == |parts| && EndsWithLast(during, name) ==>
      var r := RunRef(pre + during); name in r.queued && r.queued[name] == parts
  {
    assert during != [];
    hide RunRef, BlocksOf;
    var before, e := during[..|during| - 1], during[|during| - 1];
    LastStep(pre, during, name);
    if e.Arrive? && e.arrival.name == name {
      LastPart(parts, n, BlocksOf(before, name), e.arrival);
      assert n == 1 ==> parts[..0] == [];
      assert parts[..n - 1] + [e.arrival] == parts[..n];
      assert parts[..|parts|] == parts;
      if n > 1 {
        Transmission(pre, before, parts, name, n - 1);
      }
    } else if n < |parts| {
      Transmission(pre, before, parts, name, n);
    }
  }

  /** Events of other products leave a waiting product alone. */
  lemma {:induction false} Undisturbed(events: seq<Event>, after: seq<Event>, name: Name)
    requires BlocksOf(after, name) == [] && RunRecord(name) !in after
    requires name in RunRef(events).queued
    ensures name in RunRef(events + after).queued && RunRef(events + after).queued[name] == RunRef(events).queued[name]
  {
    if after == [] {
      assert events + after == events;
    } else {
      assert (events + after)[..|events + after| - 1] == events + after[..|after| - 1];
      Undisturbed(events, after[..|after| - 1], name);
    }
  }

  lemma {:induction false} DataForWhole(parts: seq<Arrival>, name: Name, n: nat, k: int)
    requires WholeProduct(parts, name) && 1 <= k <= n <= |parts|
    ensures DataFor(parts[..n], k) == Some(parts[k - 1].data)
  {
    assert parts[..n][..n - 1] == parts[..n - 1];
    if k < n {
      DataForWhole(parts, name, n - 1, k);
    }
  }

  /** The parts stored of a file, one after another. */
  function Restored(file: seq<byte>, name: seq<byte>, n: nat): seq<byte>
    requires n <= PartsTotal(|file|) && ValidName(SpoolName(name))
  {
    if n == 0 then [] else Restored(file, name, n - 1) + StoredPart(file, name, n)
  }

  ghost predicate PartsOfFile(parts: seq<Arrival>, file: seq<byte>, name: seq<byte>)
    requires ValidName(SpoolName(name))
  {
    && |parts| == PartsTotal(|file|)
    && WholeProduct(parts, SpoolName(name))
    && forall k :: 0 <= k < |parts| ==> parts[k].data == StoredPart(file, name, k + 1)
  }

  lemma {:induction false} InOrderIsRestored(parts: seq<Arrival>, file: seq<byte>, name: seq<byte>, n: nat)
    requires ValidName(SpoolName(name)) && PartsOfFile(parts, file, name) && n <= |parts|
    ensures forall k :: 1 <= k <= n ==> DataFor(parts, k).Some?
    ensures InOrder(parts, n) == Restored(file, name, n)
  {
    hide StoredPart;
    assert parts[..|parts|] == parts;
    forall k | 1 <= k <= n ensures DataFor(parts, k) == Some(parts[k - 1].data) {
      DataForWhole(parts, SpoolName(name), |parts|, k);
    }
    if n > 0 {
      InOrderIsRestored(parts, file, name, n - 1);
    }
  }

  lemma AssemblyOfFile(parts: seq<Arrival>, file: seq<byte>, name: seq<byte>)
    requires ValidName(SpoolName(name)) && PartsOfFile(parts, file, name)
    ensures Assembly(parts) == Some(Restored(file, name, |parts|))
  {
    hide StoredPart;
    assert EachOnce(BlockNumbers(parts), |parts|);
    InOrderIsRestored(parts, file, name, |parts|);
  }

  lemma PacketsDeliverParts(file: seq<byte>, name: seq<byte>, date: seq<byte>, parts: seq<Arrival>)
    requires PartsTotal(|file|) <= 99999
    requires |date| == STAMP_SIZE && NUL !in date && ValidName(SpoolName(name))
    requires Delivers(PacketsOf(file, name, date, PartsTotal(|file|)), parts)
    ensures PartsOfFile(parts, file, name)
  {
    hide Decode, StoredPart, PacketOf;
    var packets := PacketsOf(file, name, date, PartsTotal(|file|));
    forall i | 0 <= i < |packets|
      ensures parts[i] == Arrival(SpoolName(name), i + 1, PartsTotal(|file|), StoredPart(file, name, i + 1))
    {
      DecodePacket(file, name, date, i + 1);
      assert packets[i] == PacketOf(file, name, date, i + 1);
    }
  }

  /**
   The packets of a file have all arrived in order, mixed with anything that does not decode to the
   same product, and after them nothing of the product.
   */
  ghost predicate Transmitted(during: seq<Feed>, after: seq<Feed>, file: seq<byte>, name: seq<byte>, date: seq<byte>) {
    && file != [] && PartsTotal(|file|) <= 99999
    && |date| == STAMP_SIZE && NUL !in date && ValidName(SpoolName(name))
    && Own(during, SpoolName(name)) == PacketsOf(file, name, date, PartsTotal(|file|))
    && during != [] && during[|during| - 1] == Packet(PacketOf(file, name, date, PartsTotal(|file|)))
    && Own(after, SpoolName(name)) == [] && Runner(SpoolName(name)) !in after
  }

  /** The events of a feed in three pieces. */
  function EventsOf3(pre: seq<Feed>, during: seq<Feed>, after: seq<Feed>): seq<Event> {
    EventsOf(pre) + EventsOf(during) + EventsOf(after)
  }

  /**
   End to end: the queue runner then joins the stored parts of the file, provided that since its
   transmission began no key was issued to it and to another product at a time; neither what happened
   before nor stale files matter.
   */
  lemma RoundTrip(key: int, pre: seq<Feed>, during: seq<Feed>, after: seq<Feed>,
                  file: seq<byte>, name: seq<byte>, date: seq<byte>)
    requires Transmitted(during, after, file, name, date)
    requires FreshFrom(key, EventsOf3(pre, during, after), SpoolName(name), |EventsOf(pre)|, false)
    ensures Process(Run(Empty(key), EventsOf3(pre, during, after)), SpoolName(name)).1
            == Some(Restored(file, name, PartsTotal(|file|)))
  {
    hide StoredPart, PacketOf, Process, Assembly, Run, FreshFrom, BlocksOf, EventsOf, Own, Restored, BlockOf;
    var sname := SpoolName(name);
    var parts := BlocksOf(EventsOf(during), sname);
    OwnBlocks(during, sname);
    OwnBlocks(after, sname);
    assert BlocksOf(EventsOf(after), sname) == [];
    PacketsDeliverParts(file, name, date, parts);
    LastEvent(during, file, name, date);
    NoRunner(after, sname);
    FileParts(parts, file, name);
    AssemblyOfFile(parts, file, name);
    ReceivedWhole(key, EventsOf(pre), EventsOf(during), EventsOf(after), parts, sname);
  }

  lemma FileParts(parts: seq<Arrival>, file: seq<byte>, name: seq<byte>)
    requires ValidName(SpoolName(name)) && PartsOfFile(parts, file, name) && file != []
    ensures parts != [] && |parts| == PartsTotal(|file|) && WholeProduct(parts, SpoolName(name))
  {
  }

  /** The transmission is a session that began with its block 1. */
  lemma {:induction false} WholeSession(during: seq<Event>, parts: seq<Arrival>, name: Name, n: nat) returns (f: int)
    requires WholeProduct(parts, name) && 1 <= n <= |parts| && BlocksOf(during, name) == parts[..n]
    ensures n < |parts| ==> OpenFrom(during, name, f)
    ensures n == |parts| && EndsWithLast(during, name) ==> Session(during, name, f, |during| - 1)
  {
    assert during != [];
    var before, e := during[..|during| - 1], during[|during| - 1];
    LastStep([], during, name);
    hide BlocksOf;
    f := |during| - 1;
    if e.Arrive? && e.arrival.name == name {
      LastPart(parts, n, BlocksOf(before, name), e.arrival);
      if n > 1 { f := WholeSession(before, parts, name, n - 1); }
      OpenStep(during, name, f);
      ClosingSession(during, name, f);
    } else if n < |parts| {
      f := WholeSession(before, parts, name, n);
      OpenStep(during, name, f);
    }
  }

  /** A session keeps its place among other events, and waits if nothing of the product follows. */
  lemma SessionAmong(p: seq<Event>, d: seq<Event>, a: seq<Event>, name: Name, f: int)
    requires Session(d, name, f, |d| - 1)
    requires BlocksOf(a, name) == [] && RunRecord(name) !in a
    ensures Waiting(p + d + a, name, |p| + f, |p| + |d| - 1)
  {
    var all := p + d + a;
    BlocksAreEvents(a, name);
    hide BlocksOf;
    assert forall k :: 0 <= k < |d| ==> all[|p| + k] == d[k];
    assert forall k :: |p| <= k < |p| + |d| ==> all[k] == d[k - |p|];
    assert forall k :: |p| + |d| <= k < |all| ==> all[k] == a[k - |p| - |d|];
    assert forall k :: 0 <= k < |a| ==> a[k] in a && !LastOf(a[k], name);
  }

  /** A whole product, received in order and not yet run, is assembled from its blocks. */
  lemma ReceivedWhole(key: int, p: seq<Event>, d: seq<Event>, a: seq<Event>, parts: seq<Arrival>, name: Name)
    requires FreshFrom(key, p + d + a, name, |p|, false)
    requires WholeProduct(parts, name) && parts != [] && Assembly(parts).Some?
    requires BlocksOf(d, name) == parts && EndsWithLast(d, name)
    requires BlocksOf(a, name) == [] && RunRecord(name) !in a
    ensures Process(Run(Empty(key), p + d + a), name).1 == Assembly(parts)
  {
    hide Process, Assembly, Run, RunRef, BlocksOf, FreshFrom, WholeProduct, EndsWithLast, Waiting;
    var i, j := WaitingWhole(p, d, a, parts, name);
    FreshLater(key, p + d + a, name, |p|, i, false);
    WholeOutcome(key, p + d + a, name, i, j);
  }

  /** The session of a whole product, when nothing of the product has come since. */
  lemma WaitingWhole(p: seq<Event>, d: seq<Event>, a: seq<Event>, parts: seq<Arrival>, name: Name)
    returns (i: int, j: int)
    requires WholeProduct(parts, name) && parts != []
    requires BlocksOf(d, name) == parts && EndsWithLast(d, name)
    requires BlocksOf(a, name) == [] && RunRecord(name) !in a
    ensures |p| <= i <= j < |p + d + a| && Waiting(p + d + a, name, i, j)
    ensures BlocksOf((p + d + a)[i..j + 1], name) == parts
  {
    hide RunRef, BlocksOf, Session, WholeProduct, EndsWithLast;
    assert parts[..|parts|] == parts;
    var f := WholeSession(d, parts, name, |parts|);
    SessionStart(d, name, f, |d| - 1);
    SessionAmong(p, d, a, name, f);
    hide Waiting;
    i, j := |p| + f, |p| + |d| - 1;
    Transmission(p, d, parts, name, |parts|);
    Undisturbed(p + d, a, name);
    QueuedHistory(p + d + a, name);
  }

  lemma FreshLater(key: int, events: seq<Event>, name: Name, i: int, later: int, exact: bool)
    requires FreshFrom(key, events, name, i, exact) && i <= later
    ensures FreshFrom(key, events, name, later, exact)
  {
    hide KeyGoodFor, Run;
  }

  lemma SessionStart(events: seq<Event>, name: Name, i: int, j: int)
    requires Session(events, name, i, j)
    ensures 0 <= i <= j < |events|
  {
  }

  lemma LastEvent(during: seq<Feed>, file: seq<byte>, name: seq<byte>, date: seq<byte>)
    requires during != [] && file != [] && PartsTotal(|file|) <= 99999
    requires |date| == STAMP_SIZE && NUL !in date && ValidName(SpoolName(name))
    requires during[|during| - 1] == Packet(PacketOf(file, name, date, PartsTotal(|file|)))
    ensures EndsWithLast(EventsOf(during), SpoolName(name))
  {
    hide Decode, StoredPart, PacketOf;
    DecodePacket(file, name, date, PartsTotal(|file|));
  }

  lemma {:induction false} NoRunner(feed: seq<Feed>, name: Name)
    requires Runner(name) !in feed
    ensures RunRecord(name) !in EventsOf(feed)
  {
    hide BlockOf;
    if feed != [] {
      NoRunner(feed[..|feed| - 1], name);
    }
  }

  // --------------------------------------------------------- what is restored

  /** The bytes covered by the first n parts. */
  function Sent(file: seq<byte>, n: nat): seq<byte> {
    file[..Min(1024 * n, |file|)]
  }

  lemma SentStep(file: seq<byte>, n: nat)
    requires 1 <= n <= PartsTotal(|file|)
    ensures Sent(file, n) == Sent(file, n - 1) + PartData(file, n)
  {
  }

  lemma SentAll(file: seq<byte>)
    ensures Sent(file, PartsTotal(|file|)) == file && Sent(file, 0) == []
  {
  }

  lemma {:induction false} RestoredBinaryPrefix(file: seq<byte>, name: seq<byte>, n: nat)
    requires n <= PartsTotal(|file|) && ValidName(SpoolName(name)) && !IsTextFile(SpoolName(name))
    ensures n < PartsTotal(|file|) || n == 0 ==> Restored(file, name, n) == Sent(file, n)
    ensures n == PartsTotal(|file|) ==> Restored(file, name, n) == file + Zeros(Fill1024(|file|))
  {
    hide Sent, PartData;
    SentAll(file);
    assert Zeros(0) == [];
    if n > 0 {
      RestoredBinaryPrefix(file, name, n - 1);
      SentStep(file, n);
      PartSizes(file, n);
      LastPartSize(file);
    }
  }

  /** How many bytes n lacks to a multiple of 1024. */
  function Fill1024(n: nat): nat {
    (1024 - n % 1024) % 1024
  }

  lemma LastPartSize(file: seq<byte>)
    ensures file != [] ==> DATA_SIZE - |PartData(file, PartsTotal(|file|))| == Fill1024(|file|)
  {
    if file != [] {
      var n, q, r := |file|, |file| / 1024, |file| % 1024;
      assert n == 1024 * q + r;
      var total := if r == 0 then q else q + 1;
      assert PartsTotal(n) == total;
      assert |PartData(file, total)| == n - 1024 * (total - 1);
    }
  }

  /** A file that is not text comes back zero-filled to whole blocks. */
  lemma RestoredBinary(file: seq<byte>, name: seq<byte>)
    requires ValidName(SpoolName(name)) && !IsTextFile(SpoolName(name))
    ensures Restored(file, name, PartsTotal(|file|)) == file + Zeros(Fill1024(|file|))
  {
    hide Restored, Fill1024, Sent;
    RestoredBinaryPrefix(file, name, PartsTotal(|file|));
  }

  /** Bytes lost to NUL trimming: none without a NUL, at least one with. */
  ghost predicate Trimmed(sent: seq<byte>, got: seq<byte>) {
    if NUL in sent then |got| < |sent| else got == sent
  }

  lemma TrimmedAppend(sent: seq<byte>, got: seq<byte>, part: seq<byte>)
    requires Trimmed(sent, got)
    ensures Trimmed(sent + part, got + CString(part))
  {
    CStringWhole(part);
  }

  lemma CStringWhole(s: seq<byte>)
    ensures if NUL in s then |CString(s)| < |s| else CString(s) == s
  {
    if NUL !in s {
      CStringPrefix(s, |s|) by { assert s[..|s|] == s; }
    }
  }

  lemma {:induction false} RestoredTextPrefix(file: seq<byte>, name: seq<byte>, n: nat)
    requires n <= PartsTotal(|file|) && ValidName(SpoolName(name)) && IsTextFile(SpoolName(name))
    ensures Trimmed(Sent(file, n), Restored(file, name, n))
  {
    hide Sent, CString, PartData;
    SentAll(file);
    if n > 0 {
      RestoredTextPrefix(file, name, n - 1);
      SentStep(file, n);
      TrimmedAppend(Sent(file, n - 1), Restored(file, name, n - 1), PartData(file, n));
    }
  }

  /** A text file comes back exactly when it has no NUL byte. */
  lemma RestoredText(file: seq<byte>, name: seq<byte>)
    requires ValidName(SpoolName(name)) && IsTextFile(SpoolName(name))
    ensures Restored(file, name, PartsTotal(|file|)) == file <==> NUL !in file
  {
    hide Sent, Restored;
    RestoredTextPrefix(file, name, PartsTotal(|file|));
    SentAll(file);
  }

  /** What is joined of a file: a text file exactly when it has no NUL, any other file zero-filled. */
  ghost predicate Joins(joined: Option<seq<byte>>, file: seq<byte>, name: seq<byte>)
    requires ValidName(SpoolName(name))
  {
    if IsTextFile(SpoolName(name)) then joined == Some(file) <==> NUL !in file
    else joined == Some(file + Zeros(Fill1024(|file|)))
  }

  /** A text file survives exactly when it has no NUL; a file that is not text comes back zero-filled. */
  lemma FileSurvives(key: int, pre: seq<Feed>, during: seq<Feed>, after: seq<Feed>,
                     file: seq<byte>, name: seq<byte>, date: seq<byte>)
    requires Transmitted(during, after, file, name, date)
    requires FreshFrom(key, EventsOf3(pre, during, after), SpoolName(name), |EventsOf(pre)|, false)
    ensures ValidName(SpoolName(name))
    ensures Joins(Process(Run(Empty(key), EventsOf3(pre, during, after)), SpoolName(name)).1, file, name)
  {
    hide Process, Run, EventsOf, EventsOf3, Restored, Own, Decode, PacketOf, StoredPart, FreshFrom;
    RoundTrip(key, pre, during, after, file, name, date);
    if IsTextFile(SpoolName(name)) {
      RestoredText(file, name);
    } else {
      RestoredBinary(file, name);
    }
  }
}
