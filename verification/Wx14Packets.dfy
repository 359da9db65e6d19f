/** The WX14 reader on a stream of packets: exactly those whose start mark was not cut are delivered. */
module Wx14Packets {
  import opened Bytes
  import opened Wx14

  // -------------------------------------------------------------- marks in a stream

  /** A "/PF" at p, or a "/" at p after six NULs. */
  ghost predicate MarkAt(s: seq<byte>, p: int) {
    OccursAt(s, PF, p) || OccursAt(s, NULS_SLASH, p - 6)
  }

  /** The mark at p lies whole in the bytes from lo up to hi. */
  ghost predicate WholeIn(s: seq<byte>, lo: int, hi: int, p: int) {
    || (OccursAt(s, PF, p) && lo <= p && p + 3 <= hi)
    || (OccursAt(s, NULS_SLASH, p - 6) && lo <= p - 6 && p + 1 <= hi)
  }

  /** The mark at p lies whole in one of the messages. */
  ghost predicate Uncut(s: seq<byte>, ms: seq<seq<byte>>, offset: nat, p: int) {
    ms != [] && (WholeIn(s, offset, offset + |ms[0]|, p) || Uncut(s, ms[1..], offset + |ms[0]|, p))
  }

  lemma OccursInPart(s: seq<byte>, lo: nat, hi: nat, pattern: seq<byte>, i: int)
    requires lo <= hi <= |s| && pattern != []
    ensures OccursAt(s[lo..hi], pattern, i) <==>
            OccursAt(s, pattern, lo + i) && lo <= lo + i && lo + i + |pattern| <= hi
  {
    if 0 <= i && i + |pattern| <= hi - lo {
      SubSlice(s, lo, hi, i, i + |pattern|);
    }
  }

  /** A message has a start exactly when some mark lies whole in it, and the start is such a mark. */
  lemma StartIsWhole(s: seq<byte>, lo: nat, hi: nat)
    requires lo <= hi <= |s|
    ensures Start(s[lo..hi]).Some? ==> WholeIn(s, lo, hi, lo + Start(s[lo..hi]).value)
    ensures Start(s[lo..hi]).None? ==> forall p :: !WholeIn(s, lo, hi, p)
  {
    var d := s[lo..hi];
    var a, b := Find(d, PF, 0), Find(d, NULS_SLASH, 0);
    if a.Some? {
      OccursInPart(s, lo, hi, PF, a.value);
    } else if b.Some? {
      OccursInPart(s, lo, hi, NULS_SLASH, b.value);
    } else {
      forall p ensures !WholeIn(s, lo, hi, p) {
        OccursInPart(s, lo, hi, PF, p - lo);
        OccursInPart(s, lo, hi, NULS_SLASH, p - 6 - lo);
      }
    }
  }

  // --------------------------------------------------------------------- the grid

  ghost predicate OnGrid(origin: int, p: int) {
    origin <= p && (p - origin) % BLOCK_SIZE == 0
  }

  /** Marks occur only where packets start. */
  ghost predicate Gridded(s: seq<byte>, origin: int) {
    forall p :: MarkAt(s, p) ==> OnGrid(origin, p)
  }

  lemma GridGap(origin: int, p: int, q: int)
    requires OnGrid(origin, p) && OnGrid(origin, q) && p < q
    ensures p + BLOCK_SIZE <= q
  {
    var i, j := (p - origin) / BLOCK_SIZE, (q - origin) / BLOCK_SIZE;
    assert p == origin + 1116 * i && q == origin + 1116 * j;
  }

  ghost predicate Ascending(ks: seq<int>) {
    forall i, j :: 0 <= i < j < |ks| ==> ks[i] < ks[j]
  }

  lemma AscendingCons(p: nat, later: seq<nat>)
    requires Ascending(later) && forall q :: q in later ==> p < q
    ensures Ascending([p] + later)
  {
    var ps := [p] + later;
    forall i, j | 0 <= i < j < |ps| ensures ps[i] < ps[j] {
      assert ps[j] == later[j - 1] && ps[j] in later;
      if i > 0 { assert ps[i] == later[i - 1]; }
    }
  }

  /** In one message of a gridded stream there is at most one whole mark, the one that is found. */
  ghost predicate OnlyStart(s: seq<byte>, lo: int, hi: int, origin: int, start: Option<nat>) {
    forall p :: WholeIn(s, lo, hi, p) <==> start.Some? && p == lo + start.value && lo <= p < hi && OnGrid(origin, p)
  }

  lemma WholeIsStart(s: seq<byte>, lo: nat, hi: nat, origin: int, d: seq<byte>)
    requires lo <= hi <= |s| && hi <= lo + MAX_PAYLOAD && Gridded(s, origin) && d == s[lo..hi]
    ensures OnlyStart(s, lo, hi, origin, Start(d))
    ensures Start(d).Some? ==> WholeIn(s, lo, hi, lo + Start(d).value)
  {
    StartIsWhole(s, lo, hi);
    forall p | WholeIn(s, lo, hi, p)
      ensures Start(d).Some? && p == lo + Start(d).value && lo <= p < hi && OnGrid(origin, p)
    {
      assert MarkAt(s, p);
      OneStart(s, lo, hi, origin, p, lo + Start(d).value);
    }
  }

  ghost predicate AreUncut(s: seq<byte>, ms: seq<seq<byte>>, offset: nat, origin: int, starts: seq<nat>) {
    && (forall p :: p in starts <==> Uncut(s, ms, offset, p))
    && (forall p :: p in starts ==> offset <= p && OnGrid(origin, p))
    && Ascending(starts)
  }

  lemma AreUncutStep(s: seq<byte>, ms: seq<seq<byte>>, lo: nat, hi: nat, origin: int,
                     start: Option<nat>, later: seq<nat>)
    requires ms != [] && hi == lo + |ms[0]| && AreUncut(s, ms[1..], hi, origin, later)
    requires OnlyStart(s, lo, hi, origin, start) && (start.Some? ==> WholeIn(s, lo, hi, lo + start.value))
    ensures AreUncut(s, ms, lo, origin, (if start.Some? then [lo + start.value] else []) + later)
  {
    hide WholeIn, OnGrid;
    var here := if start.Some? then [lo + start.value] else [];
    if start.Some? {
      AscendingCons(lo + start.value, later);
    } else {
      assert here + later == later;
    }
    forall p ensures p in here + later <==> Uncut(s, ms, lo, p) {
      assert p in later <==> Uncut(s, ms[1..], hi, p);
      assert p in here <==> WholeIn(s, lo, hi, p);
    }
  }

  lemma NoMessages(s: seq<byte>, offset: nat, origin: int)
    ensures AreUncut(s, [], offset, origin, [])
  {
  }

  /** On any stream, the reader takes nothing for a start but a mark. */
  lemma {:induction false} StartsAreMarks(s: seq<byte>, ms: seq<seq<byte>>, offset: nat)
    requires Ahead(s, ms, offset)
    ensures forall p :: p in Starts(ms, offset) ==> MarkAt(s, p)
  {
    hide Ahead, Start, OccursAt;
    if ms != [] {
      StreamStep(s, ms, offset);
      StartsAreMarks(s, ms[1..], offset + |ms[0]|);
      StartIsWhole(s, offset, offset + |ms[0]|);
    }
  }

  ghost predicate BlockFrom(s: seq<byte>, block: seq<byte>, p: nat) {
    MarkAt(s, p) && p + 1110 <= |s| && block == BlockAt(s, p)
  }

  /** On any stream, every block is 1116 bytes: six zeros and 1110 consecutive bytes from a mark on. */
  lemma BlocksStartAtMarks(ms: seq<seq<byte>>)
    requires Bounded(ms)
    ensures forall b :: b in Session(ms).0 ==> |b| == BLOCK_SIZE && exists p: nat :: BlockFrom(Concat(ms), b, p)
  {
    SessionExact(ms);
    StartsAreMarks(Concat(ms), ms, 0);
    var blocks, starts := Session(ms).0, Starts(ms, 0);
    hide Session, Starts, MarkAt;
    forall b | b in blocks ensures |b| == BLOCK_SIZE && exists p: nat :: BlockFrom(Concat(ms), b, p) {
      var i :| 0 <= i < |blocks| && blocks[i] == b;
      assert BlockFrom(Concat(ms), b, starts[i]);
    }
  }

  /** On a gridded stream the reader's starts are exactly the uncut marks, in order. */
  lemma {:induction false} StartsAreUncutMarks(s: seq<byte>, ms: seq<seq<byte>>, offset: nat, origin: int)
    requires Bounded(ms) && Ahead(s, ms, offset) && Gridded(s, origin)
    ensures AreUncut(s, ms, offset, origin, Starts(ms, offset))
  {
    hide WholeIn, Ahead, Gridded, Start, OnGrid, AreUncut, OnlyStart;
    if ms == [] {
      NoMessages(s, offset, origin);
    } else {
      var hi := offset + |ms[0]|;
      StreamStep(s, ms, offset);
      StartsAreUncutMarks(s, ms[1..], hi, origin);
      WholeIsStart(s, offset, hi, origin, ms[0]);
      AreUncutStep(s, ms, offset, hi, origin, Start(ms[0]), Starts(ms[1..], hi));
    }
  }

  lemma OneStart(s: seq<byte>, lo: int, hi: int, origin: int, p: int, q: int)
    requires Gridded(s, origin) && hi <= lo + MAX_PAYLOAD && WholeIn(s, lo, hi, p) && WholeIn(s, lo, hi, q)
    ensures p == q
  {
    assert MarkAt(s, p) && MarkAt(s, q);
    if p < q { GridGap(origin, p, q); }
    if q < p { GridGap(origin, q, p); }
  }

  // ----------------------------------------------------------- streams of packets

  /** Six NULs, "/PF", six NULs at the end, and no other start mark. */
  ghost predicate WellFormed(packet: seq<byte>) {
    && |packet| == BLOCK_SIZE
    && packet[..6] == Zeros(6) && packet[6..9] == PF && packet[1110..] == Zeros(6)
    && forall p :: MarkAt(packet, p) ==> p == 6
  }

  lemma MarkBytes(s: seq<byte>, p: int)
    requires MarkAt(s, p)
    ensures 0 <= p < |s| && s[p] == 47
    ensures OccursAt(s, PF, p) ==> p + 3 <= |s| && s[p + 1] == 80 && s[p + 2] == 70
    ensures OccursAt(s, NULS_SLASH, p - 6) ==> 6 <= p && forall i :: p - 6 <= i < p ==> s[i] == 0
  {
    if OccursAt(s, PF, p) {
      var w := s[p..p + 3];
      assert s[p] == w[0] && s[p + 1] == w[1] && s[p + 2] == w[2];
    }
    if OccursAt(s, NULS_SLASH, p - 6) {
      var w := s[p - 6..p + 1];
      assert forall i :: p - 6 <= i <= p ==> s[i] == w[i - (p - 6)];
    }
  }

  /** Adding a packet to a stream adds only its own mark. */
  lemma MarksOfAppend(s: seq<byte>, packet: seq<byte>, p: int)
    requires WellFormed(packet) && MarkAt(s + packet, p)
    ensures MarkAt(s, p) || p == |s| + 6
  {
    var t := s + packet;
    MarkBytes(t, p);
    assert forall i :: 0 <= i < 6 ==> t[|s| + i] == packet[..6][i] == 0;
    if p < |s| {
      if OccursAt(t, PF, p) {
        assert p + 3 <= |s|;
        assert s[p..p + 3] == t[p..p + 3];
      } else {
        assert s[p - 6..p + 1] == t[p - 6..p + 1];
      }
    } else {
      var q := p - |s|;
      if OccursAt(t, PF, p) {
        assert packet[q..q + 3] == t[p..p + 3];
        assert MarkAt(packet, q);
      } else if q >= 6 {
        assert packet[q - 6..q + 1] == t[p - 6..p + 1];
        assert MarkAt(packet, q);
      }
    }
  }

  /** A stream of well-formed packets after bytes without a mark has its marks on the packet grid. */
  lemma {:induction false} PacketsAreGridded(pre: seq<byte>, packets: seq<seq<byte>>)
    requires forall p :: !MarkAt(pre, p)
    requires forall k :: 0 <= k < |packets| ==> WellFormed(packets[k])
    ensures |pre + Concat(packets)| == |pre| + 1116 * |packets|
    ensures Gridded(pre + Concat(packets), |pre| + 6)
  {
    hide WellFormed, MarkAt;
    if packets == [] {
      assert pre + Concat(packets) == pre;
    } else {
      var before, packet := packets[..|packets| - 1], packets[|packets| - 1];
      PacketsAreGridded(pre, before);
      var s := pre + Concat(before);
      assert pre + Concat(packets) == s + packet;
      assert |packet| == 1116 by { PacketSize(packet); }
      forall p | MarkAt(s + packet, p) ensures OnGrid(|pre| + 6, p) {
        MarksOfAppend(s, packet, p);
        OnGridAt(|pre| + 6, |before|);
      }
    }
  }

  lemma PacketSize(packet: seq<byte>)
    requires WellFormed(packet)
    ensures |packet| == 1116
  {
  }

  lemma OnGridAt(origin: int, k: nat)
    ensures OnGrid(origin, origin + 1116 * k)
  {
  }

  /** The packet at a place of the stream, as the reader rebuilds it. */
  lemma {:induction false} PacketAt(pre: seq<byte>, packets: seq<seq<byte>>, k: nat)
    requires k < |packets| && forall i :: 0 <= i < |packets| ==> WellFormed(packets[i])
    ensures var s := pre + Concat(packets);
            var p := |pre| + 6 + 1116 * k;
            p + 1110 <= |s| && BlockAt(s, p) == packets[k]
    decreases |packets|
  {
    var before, packet := packets[..|packets| - 1], packets[|packets| - 1];
    var s, t := pre + Concat(before), pre + Concat(packets);
    assert t == s + packet;
    if k == |packets| - 1 {
      PacketsSize(pre, before);
      var p := |s| + 6;
      assert t[p..p + 1110] == packet[6..];
      assert packet == packet[..6] + packet[6..];
    } else {
      PacketAt(pre, before, k);
      var p := |pre| + 6 + 1116 * k;
      assert t[p..p + 1110] == s[p..p + 1110];
    }
  }

  lemma {:induction false} PacketsSize(pre: seq<byte>, packets: seq<seq<byte>>)
    requires forall k :: 0 <= k < |packets| ==> |packets[k]| == 1116
    ensures |pre + Concat(packets)| == |pre| + 1116 * |packets|
  {
    if packets != [] {
      PacketsSize(pre, packets[..|packets| - 1]);
    }
  }

  // ------------------------------------------------------------- what is delivered

  /** Which packets the reader found, by their place in the stream. */
  ghost function FoundPackets(ms: seq<seq<byte>>, origin: int): (r: seq<int>)
    ensures |r| == |Starts(ms, 0)|
    ensures forall i :: 0 <= i < |r| ==> r[i] == (Starts(ms, 0)[i] - origin) / BLOCK_SIZE
  {
    seq(|Starts(ms, 0)|, i requires 0 <= i < |Starts(ms, 0)| => (Starts(ms, 0)[i] - origin) / BLOCK_SIZE)
  }

  /** A stream of packets after bytes without a mark. */
  ghost predicate PacketStream(s: seq<byte>, pre: seq<byte>, packets: seq<seq<byte>>) {
    && s == pre + Concat(packets)
    && (forall p :: !MarkAt(pre, p))
    && (forall k :: 0 <= k < |packets| ==> WellFormed(packets[k]))
  }

  lemma GridIndex(origin: int, p: int)
    requires OnGrid(origin, p)
    ensures p == origin + 1116 * ((p - origin) / BLOCK_SIZE) && (p - origin) / BLOCK_SIZE >= 0
  {
  }

  lemma FoundIsAscending(s: seq<byte>, ms: seq<seq<byte>>, origin: int)
    requires AreUncut(s, ms, 0, origin, Starts(ms, 0))
    ensures Ascending(FoundPackets(ms, origin))
    ensures forall i :: 0 <= i < |Starts(ms, 0)| ==> Starts(ms, 0)[i] == origin + 1116 * FoundPackets(ms, origin)[i]
    ensures forall i :: 0 <= i < |Starts(ms, 0)| ==> FoundPackets(ms, origin)[i] >= 0
  {
    var starts, ks := Starts(ms, 0), FoundPackets(ms, origin);
    forall i | 0 <= i < |starts| ensures starts[i] == origin + 1116 * ks[i] && ks[i] >= 0 {
      assert starts[i] in starts;
      GridIndex(origin, starts[i]);
    }
    forall i, j | 0 <= i < j < |ks| ensures ks[i] < ks[j] {
      assert starts[i] < starts[j];
    }
  }

  lemma UncutIsMark(s: seq<byte>, ms: seq<seq<byte>>, offset: nat, p: int)
    requires Uncut(s, ms, offset, p)
    ensures MarkAt(s, p)
    decreases |ms|
  {
    if !WholeIn(s, offset, offset + |ms[0]|, p) {
      UncutIsMark(s, ms[1..], offset + |ms[0]|, p);
    }
  }

  lemma NotShort(s: seq<byte>, ms: seq<seq<byte>>, origin: int, blocks: seq<seq<byte>>, short: bool)
    requires AreUncut(s, ms, 0, origin, Starts(ms, 0)) && Delivered(s, Starts(ms, 0), Ends(ms, 0), blocks, short)
    ensures !short
  {
    EndsFit(ms, 0);
    if short {
      var starts, n := Starts(ms, 0), |blocks|;
      assert starts[n] in starts && starts[n + 1] in starts;
      GridGap(origin, starts[n], starts[n + 1]);
    }
  }

  /** The packets found are exactly those whose mark lies whole in one message. */
  ghost predicate FoundUncut(ms: seq<seq<byte>>, pre: seq<byte>, packets: seq<seq<byte>>, found: seq<int>) {
    forall k :: k in found <==> 0 <= k < |packets| && Uncut(Concat(ms), ms, 0, |pre| + 6 + 1116 * k)
  }

  /** The blocks are the packets found, but for the last. */
  ghost predicate AllButLast(blocks: seq<seq<byte>>, packets: seq<seq<byte>>, found: seq<int>) {
    && |blocks| == (if found == [] then 0 else |found| - 1)
    && forall i :: 0 <= i < |blocks| ==> 0 <= found[i] < |packets| && blocks[i] == packets[found[i]]
  }

  /**
   However the stream is cut into messages of at most 1110 bytes, the reader never gives up, and it
   delivers, unchanged and in order, exactly the packets whose start mark was not cut, the last of
   them excepted: that one waits for the next mark.
   */
  lemma UncutPacketsDelivered(pre: seq<byte>, packets: seq<seq<byte>>, ms: seq<seq<byte>>)
    requires Bounded(ms) && PacketStream(Concat(ms), pre, packets)
    ensures var (blocks, short) := Session(ms);
            var found := FoundPackets(ms, |pre| + 6);
            !short && Ascending(found) && FoundUncut(ms, pre, packets, found) && AllButLast(blocks, packets, found)
  {
    hide AreUncut, Session, Starts, PacketStream, FoundPackets, FoundUncut, Delivered, Ascending, AllButLast;
    var s, origin := Concat(ms), |pre| + 6;
    var (blocks, short) := Session(ms);
    GridOf(s, pre, packets, ms);
    SessionExact(ms);
    FoundIsAscending(s, ms, origin);
    FoundAreUncut(s, pre, packets, ms);
    if Starts(ms, 0) != [] {
      NotShort(s, ms, origin, blocks, short);
      BlocksArePackets(pre, packets, ms, blocks);
    } else {
      NoBlocks(packets, ms, origin);
    }
  }

  lemma NoBlocks(packets: seq<seq<byte>>, ms: seq<seq<byte>>, origin: int)
    requires Starts(ms, 0) == []
    ensures AllButLast([], packets, FoundPackets(ms, origin))
  {
  }

  lemma BlocksArePackets(pre: seq<byte>, packets: seq<seq<byte>>, ms: seq<seq<byte>>, blocks: seq<seq<byte>>)
    requires Bounded(ms) && PacketStream(Concat(ms), pre, packets)
    requires Delivered(Concat(ms), Starts(ms, 0), Ends(ms, 0), blocks, false)
    ensures AllButLast(blocks, packets, FoundPackets(ms, |pre| + 6))
  {
    hide WellFormed, AreUncut, Starts, Uncut, PacketStream, FoundPackets, Ascending, BlockAt, Concat, FoundUncut;
    var s, found, starts := Concat(ms), FoundPackets(ms, |pre| + 6), Starts(ms, 0);
    GridOf(s, pre, packets, ms);
    FoundIsAscending(s, ms, |pre| + 6);
    FoundAreUncut(s, pre, packets, ms);
    forall i | 0 <= i < |blocks| ensures 0 <= found[i] < |packets| && blocks[i] == packets[found[i]] {
      FoundRange(ms, pre, packets, found, i);
      DeliveredPacket(s, pre, packets, found[i]);
      assert blocks[i] == BlockAt(s, starts[i]);
    }
  }

  lemma FoundRange(ms: seq<seq<byte>>, pre: seq<byte>, packets: seq<seq<byte>>, found: seq<int>, i: nat)
    requires FoundUncut(ms, pre, packets, found) && i < |found|
    ensures 0 <= found[i] < |packets|
  {
    assert found[i] in found;
  }

  lemma GridOf(s: seq<byte>, pre: seq<byte>, packets: seq<seq<byte>>, ms: seq<seq<byte>>)
    requires Bounded(ms) && s == Concat(ms) && PacketStream(s, pre, packets)
    ensures AreUncut(s, ms, 0, |pre| + 6, Starts(ms, 0))
  {
    hide AreUncut, WellFormed, MarkAt, Gridded, Starts;
    PacketsAreGridded(pre, packets);
    assert s[0..] == s;
    StartsAreUncutMarks(s, ms, 0, |pre| + 6);
  }

  lemma DeliveredPacket(s: seq<byte>, pre: seq<byte>, packets: seq<seq<byte>>, k: int)
    requires PacketStream(s, pre, packets) && 0 <= k < |packets|
    ensures |pre| + 6 + 1116 * k + 1110 <= |s| && BlockAt(s, |pre| + 6 + 1116 * k) == packets[k]
  {
    hide WellFormed, MarkAt, BlockAt;
    PacketAt(pre, packets, k);
  }

  lemma FoundIff(starts: seq<nat>, found: seq<int>, origin: int, k: int)
    requires |starts| == |found| && forall i :: 0 <= i < |starts| ==> starts[i] == origin + 1116 * found[i]
    ensures k in found <==> origin + 1116 * k in starts
  {
    if k in found {
      var i :| 0 <= i < |found| && found[i] == k;
      assert starts[i] == origin + 1116 * k;
    }
    if origin + 1116 * k in starts {
      var i :| 0 <= i < |starts| && starts[i] == origin + 1116 * k;
      assert found[i] == k;
    }
  }

  lemma UncutInRange(s: seq<byte>, pre: seq<byte>, packets: seq<seq<byte>>, ms: seq<seq<byte>>, k: int)
    requires PacketStream(s, pre, packets) && Uncut(s, ms, 0, |pre| + 6 + 1116 * k)
    ensures 0 <= k < |packets|
  {
    var p := |pre| + 6 + 1116 * k;
    UncutIsMark(s, ms, 0, p);
    MarkBytes(s, p);
    StreamSize(s, pre, packets);
    PacketsAreGridded(pre, packets);
    assert OnGrid(|pre| + 6, p);
  }

  lemma FoundAreUncut(s: seq<byte>, pre: seq<byte>, packets: seq<seq<byte>>, ms: seq<seq<byte>>)
    requires Bounded(ms) && s == Concat(ms) && PacketStream(s, pre, packets)
    ensures FoundUncut(ms, pre, packets, FoundPackets(ms, |pre| + 6))
  {
    hide Starts, Uncut, PacketStream, FoundPackets, Ascending, Concat, Bounded, OnGrid;
    var origin := |pre| + 6;
    var found, starts := FoundPackets(ms, origin), Starts(ms, 0);
    GridOf(s, pre, packets, ms);
    FoundIsAscending(s, ms, origin);
    forall k ensures k in found <==> 0 <= k < |packets| && Uncut(s, ms, 0, origin + 1116 * k) {
      FoundIff(starts, found, origin, k);
      if Uncut(s, ms, 0, origin + 1116 * k) {
        UncutInRange(s, pre, packets, ms, k);
      }
    }
  }

  lemma StreamSize(s: seq<byte>, pre: seq<byte>, packets: seq<seq<byte>>)
    requires PacketStream(s, pre, packets)
    ensures |s| == |pre| + 1116 * |packets|
  {
    PacketsSize(pre, packets);
  }

  // ------------------------------------------------------------------ no mark is cut

  /** A message starts at stream position b. */
  ghost predicate Boundary(ms: seq<seq<byte>>, offset: nat, b: int) {
    ms != [] && (b == offset || Boundary(ms[1..], offset + |ms[0]|, b))
  }

  lemma {:induction false} UncutWithoutBoundary(s: seq<byte>, ms: seq<seq<byte>>, offset: nat, p: int)
    requires Bounded(ms) && Ahead(s, ms, offset) && offset <= p && OccursAt(s, PF, p)
    requires !Boundary(ms, offset, p + 1) && !Boundary(ms, offset, p + 2)
    ensures Uncut(s, ms, offset, p)
    decreases |ms|
  {
    if ms != [] {
      StreamStep(s, ms, offset);
      var hi := offset + |ms[0]|;
      if ms[1..] == [] {
        assert hi == |s|;
      }
      if p >= hi {
        UncutWithoutBoundary(s, ms[1..], hi, p);
      }
    }
  }

  lemma PacketMark(s: seq<byte>, pre: seq<byte>, packets: seq<seq<byte>>, k: nat)
    requires PacketStream(s, pre, packets) && k < |packets|
    ensures OccursAt(s, PF, |pre| + 6 + 1116 * k)
  {
    var p := |pre| + 6 + 1116 * k;
    DeliveredPacket(s, pre, packets, k);
    assert s[p..p + 1110] == BlockAt(s, p)[6..] == packets[k][6..];
    assert s[p..p + 3] == s[p..p + 1110][0..3] by { SubSlice(s, p, p + 1110, 0, 3); }
    assert packets[k][6..][0..3] == packets[k][6..9];
  }

  /** No message boundary falls inside the "/PF" of a packet. */
  ghost predicate NoneCut(ms: seq<seq<byte>>, pre: seq<byte>, packets: seq<seq<byte>>) {
    forall k :: 0 <= k < |packets| ==>
      !Boundary(ms, 0, |pre| + 6 + 1116 * k + 1) && !Boundary(ms, 0, |pre| + 6 + 1116 * k + 2)
  }

  lemma AllUncut(pre: seq<byte>, packets: seq<seq<byte>>, ms: seq<seq<byte>>, k: nat)
    requires Bounded(ms) && PacketStream(Concat(ms), pre, packets) && NoneCut(ms, pre, packets) && k < |packets|
    ensures Uncut(Concat(ms), ms, 0, |pre| + 6 + 1116 * k)
  {
    var s := Concat(ms);
    assert s[0..] == s;
    hide Uncut, Concat, Boundary, OccursAt, PacketStream;
    PacketMark(s, pre, packets, k);
    UncutWithoutBoundary(s, ms, 0, |pre| + 6 + 1116 * k);
  }

  ghost predicate Counting(ks: seq<int>, n: nat) {
    |ks| == n && forall i :: 0 <= i < n ==> ks[i] == i
  }

  lemma FoundAll(pre: seq<byte>, packets: seq<seq<byte>>, ms: seq<seq<byte>>, found: seq<int>)
    requires Bounded(ms) && PacketStream(Concat(ms), pre, packets) && NoneCut(ms, pre, packets)
    requires Ascending(found) && FoundUncut(ms, pre, packets, found)
    ensures Counting(found, |packets|)
  {
    hide Uncut, Concat, PacketStream, NoneCut, Bounded, Ascending;
    forall k ensures k in found <==> 0 <= k < |packets| {
      if 0 <= k < |packets| { AllUncut(pre, packets, ms, k); }
    }
    AllInOrder(found, |packets|);
  }

  lemma PrefixDelivered(blocks: seq<seq<byte>>, packets: seq<seq<byte>>, found: seq<int>)
    requires packets != [] && Counting(found, |packets|) && AllButLast(blocks, packets, found)
    ensures blocks == packets[..|packets| - 1]
  {
    assert |blocks| == |packets| - 1;
  }

  /** When no message boundary falls inside a "/PF", no packet is lost, repeated or reordered. */
  lemma AllDelivered(pre: seq<byte>, packets: seq<seq<byte>>, ms: seq<seq<byte>>)
    requires Bounded(ms) && PacketStream(Concat(ms), pre, packets) && NoneCut(ms, pre, packets) && packets != []
    ensures Session(ms) == (packets[..|packets| - 1], false)
  {
    hide Session, Starts, PacketStream, FoundPackets, Concat, NoneCut, FoundUncut, AllButLast, Ascending, Bounded;
    hide Counting;
    UncutPacketsDelivered(pre, packets, ms);
    var found := FoundPackets(ms, |pre| + 6);
    FoundAll(pre, packets, ms, found);
    PrefixDelivered(Session(ms).0, packets, found);
  }

  /** An ascending sequence of exactly the numbers below n is 0, 1, ..., n - 1. */
  lemma {:induction false} AllInOrder(ks: seq<int>, n: nat)
    requires Ascending(ks) && forall k :: k in ks <==> 0 <= k < n
    ensures Counting(ks, n)
    decreases n
  {
    if n == 0 {
      assert forall i :: 0 <= i < |ks| ==> ks[i] in ks;
    } else {
      assert n - 1 in ks;
      var i :| 0 <= i < |ks| && ks[i] == n - 1;
      var last := |ks| - 1;
      assert ks[last] in ks;
      assert i == last;
      var rest := ks[..last];
      forall k ensures k in rest <==> 0 <= k < n - 1 {
        if k in rest { assert k in ks; }
        if 0 <= k < n - 1 {
          assert k in ks;
          var j :| 0 <= j < |ks| && ks[j] == k;
          assert rest[j] == k;
        }
      }
      AllInOrder(rest, n - 1);
    }
  }
}
