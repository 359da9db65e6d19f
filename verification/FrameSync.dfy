/** Synchronising to a stream of packets that has no other framing. */
module FrameSync {
  import opened Bytes
  import opened IoLoops
  import Header
  import opened Receive

  /** NUL "/PF": the end of the leading NULs and the start of a header. */
  const MARK: seq<byte> := [0, 47, 80, 70]
  const MAX_LOOPS: nat := 4464
  const REST_OF_PACKET: nat := 1107

  ghost predicate MarkAt(s: seq<byte>, p: int) {
    0 <= p && p + 4 <= |s| && s[p] == 0 && s[p + 1] == 47 && s[p + 2] == 80 && s[p + 3] == 70
  }

  ghost predicate FirstMark(s: seq<byte>, p: int) {
    MarkAt(s, p) && forall q :: 0 <= q < p ==> !MarkAt(s, q)
  }

  ghost predicate UsableMark(s: seq<byte>, p: int) {
    FirstMark(s, p) && p + 4 <= MAX_LOOPS && p + 4 + REST_OF_PACKET <= |s|
  }

  /** The stream after a successful synchronisation at its first mark. */
  ghost function SyncRest(s: seq<byte>): Option<seq<byte>> {
    if exists p :: UsableMark(s, p) then
      var p :| UsableMark(s, p);
      Some(s[p + 4 + REST_OF_PACKET..])
    else None
  }

  lemma SyncRestAt(s: seq<byte>, p: int)
    requires FirstMark(s, p)
    ensures SyncRest(s) == if UsableMark(s, p) then Some(s[p + 4 + REST_OF_PACKET..]) else None
  {
    assert forall q :: FirstMark(s, q) ==> q == p;
  }

  // ------------------------------------------------------------- the automaton

  /** The last k bytes read are the first k of the mark. */
  ghost predicate EndsWith(s: seq<byte>, k: int) {
    && 0 <= k <= |s| && k <= 4
    && (k >= 1 ==> s[|s| - k] == MARK[0]) && (k >= 2 ==> s[|s| - k + 1] == MARK[1])
    && (k >= 3 ==> s[|s| - k + 2] == MARK[2]) && (k >= 4 ==> s[|s| - k + 3] == MARK[3])
  }

  /** The stage is the longest such k, minus one. */
  ghost predicate StageIs(s: seq<byte>, stage: int) {
    -1 <= stage <= 3 && EndsWith(s, stage + 1) && forall k :: stage + 1 < k <= 4 ==> !EndsWith(s, k)
  }

  /** The switch on one byte. */
  function NextStage(stage: int, c: byte): int {
    if c == 0 then 0
    else if c == 47 then if stage == 0 then 1 else -1
    else if c == 80 then if stage == 1 then 2 else -1
    else if c == 70 then if stage == 2 then 3 else -1
    else -1
  }

  lemma EndsWithStep(s: seq<byte>, c: byte, k: int)
    requires 1 <= k <= 4
    ensures EndsWith(s + [c], k) <==> EndsWith(s, k - 1) && c == MARK[k - 1]
  {
  }

  /** The four stages track the longest prefix of the mark, whatever is read. */
  lemma StageStep(s: seq<byte>, c: byte, stage: int)
    requires StageIs(s, stage)
    ensures StageIs(s + [c], NextStage(stage, c))
  {
    EndsWithStep(s, c, 1);
    EndsWithStep(s, c, 2);
    EndsWithStep(s, c, 3);
    EndsWithStep(s, c, 4);
    assert EndsWith(s, 0) && EndsWith(s + [c], 0);
  }

  lemma NothingRead()
    ensures StageIs([], -1)
  {
  }

  /** Stage 3 after n bytes means that a mark ends there. */
  lemma StageThree(s: seq<byte>, n: nat, stage: int)
    requires n <= |s| && StageIs(s[..n], stage)
    ensures -1 <= stage <= 3 && (stage == 3 <==> MarkAt(s, n - 4))
  {
    assert MarkAt(s, n - 4) <==> EndsWith(s[..n], 4);
  }

  lemma NoSync(s: seq<byte>, n: int)
    requires (forall q :: 0 <= q && q + 4 <= n ==> !MarkAt(s, q)) && (n == |s| || n == MAX_LOOPS)
    ensures SyncRest(s).None?
  {
  }

  /** emwin_sync_device() */
  method SyncDevice(src: Source) returns (status: int)
    requires Proper(src.script)
    modifies src
    ensures Proper(src.script)
    ensures status == 0 || status == -1
    ensures status == 0 <==> SyncRest(old(Lead(src.script))).Some?
    ensures status == 0 ==> SyncRest(old(Lead(src.script))) == Some(Lead(src.script))
    ensures status == 0 ==> Stop(src.script) == old(Stop(src.script))
  {
    hide SyncRest, StageIs, MarkAt;
    var stage, nloop := -1, 0;
    NothingRead();
    ghost var all := Lead(src.script);
    while stage != 3 && nloop < MAX_LOOPS
      invariant Proper(src.script) && Stop(src.script) == old(Stop(src.script))
      invariant 0 <= nloop <= |all| && nloop <= MAX_LOOPS && Lead(src.script) == all[nloop..]
      invariant StageIs(all[..nloop], stage)
      invariant forall q :: 0 <= q && (q + 4 < nloop || (q + 4 == nloop && stage != 3)) ==> !MarkAt(all, q)
      decreases MAX_LOOPS - nloop
    {
      nloop := nloop + 1;
      var n, data, eof := src.ReadM(1);
      if n != 1 {
        NoSync(all, |all|);
        return -1;
      }
      var c := data[0];
      ghost var before := all[..nloop - 1];
      assert all[..nloop] == before + [c];
      StageStep(before, c, stage);
      stage := NextStage(stage, c);
      StageThree(all, nloop, stage);
    }
    if stage != 3 {
      NoSync(all, MAX_LOOPS);
      return -1;
    }
    StageThree(all, nloop, stage);
    SyncRestAt(all, nloop - 4);
    var n, data, eof := src.ReadM(REST_OF_PACKET);
    if n != REST_OF_PACKET {
      return -1;
    }
    assert all[nloop..][REST_OF_PACKET..] == all[nloop + REST_OF_PACKET..];
    return 0;
  }

  // -------------------------------------------------------- junk, then packets

  /** The fixed bytes at the start of a packet. */
  ghost predicate PacketShape(packet: seq<byte>) {
    && |packet| == PACKET_SIZE
    && (forall i :: 0 <= i < 6 ==> packet[i] == 0)
    && packet[6] == 47 && packet[7] == 80 && packet[8] == 70
  }

  /**
   After junk without a mark, synchronisation ends exactly at the start of the second packet, and it
   does so if and only if the junk is at most 4455 bytes.
   */
  lemma SyncAfterJunk(junk: seq<byte>, packet: seq<byte>, rest: seq<byte>)
    requires (forall q :: !MarkAt(junk, q)) && PacketShape(packet)
    ensures SyncRest(junk + packet + rest) == if |junk| <= 4455 then Some(rest) else None
  {
    var s := junk + packet + rest;
    var p := |junk| + 5;
    assert forall i :: 0 <= i < |junk| ==> s[i] == junk[i];
    assert forall i :: 0 <= i < |packet| ==> s[|junk| + i] == packet[i];
    forall q | q < p ensures !MarkAt(s, q) {
      if q + 4 <= |junk| {
        assert !MarkAt(junk, q);
      }
    }
    assert s[|junk| + 5] == packet[5] && s[|junk| + 6] == packet[6];
    assert s[|junk| + 7] == packet[7] && s[|junk| + 8] == packet[8];
    SyncRestAt(s, p);
    assert s[|junk| + PACKET_SIZE..] == rest;
  }

  // ------------------------------------------------------------- reading packets

  function StatusOf(d: Decoded): int {
    if d.Good? then 0 else d.status
  }

  /** What a read says that cannot give a whole packet. */
  function ShortStatus(s: seq<byte>, stop: ReadEvent): int {
    if stop == Failed then -1 else if s != [] then 1 else if stop == Timeout then -2 else -3
  }

  /** get_emwin_packet_serial(), also used for the fifo and the WX14 raw port. */
  method GetPacket(src: Source) returns (status: int, packet: seq<byte>)
    requires Proper(src.script)
    modifies src
    ensures Proper(src.script)
    ensures |old(Lead(src.script))| >= PACKET_SIZE ==>
      && packet == old(Lead(src.script))[..PACKET_SIZE] && Lead(src.script) == old(Lead(src.script))[PACKET_SIZE..]
      && status == StatusOf(Decode(packet)) && Stop(src.script) == old(Stop(src.script))
    ensures |old(Lead(src.script))| < PACKET_SIZE ==>
      status == ShortStatus(old(Lead(src.script)), old(Stop(src.script)))
  {
    hide Decode;
    StopIsNoChunk(src.script);
    var n, data, eof := src.ReadM(PACKET_SIZE);
    packet := data;
    if n != PACKET_SIZE {
      status := if n == -1 then -1 else if n == -2 then -2 else if n == 0 then -3 else 1;
    } else {
      status := StatusOf(Decode(data));
    }
  }

  /** Where a feed stands after synchronisation, or the code with which that failed. */
  datatype Synced = Synced(rest: seq<byte>) | NotSynced(status: int)

  ghost function Resync(s: seq<byte>): Synced {
    match SyncRest(s) case Some(rest) => Synced(rest) case None => NotSynced(-1)
  }

  /** A packet that decodes, or one that does not and a new synchronisation, `tries` times more. */
  ghost function Settle(s: seq<byte>, stop: ReadEvent, tries: nat): Synced
    decreases tries
  {
    if |s| < PACKET_SIZE then NotSynced(ShortStatus(s, stop))
    else if Decode(s[..PACKET_SIZE]).Good? then Synced(s[PACKET_SIZE..])
    else
      var again := Resync(s[PACKET_SIZE..]);
      if again.NotSynced? || tries == 0 then again else Settle(again.rest, stop, tries - 1)
  }

  ghost function SerialSync(s: seq<byte>, stop: ReadEvent, retry: nat): Synced {
    var r := Resync(s);
    if r.NotSynced? then r else Settle(r.rest, stop, retry)
  }

  lemma DecodeStatus(packet: seq<byte>)
    requires |packet| == PACKET_SIZE
    ensures Decode(packet).Bad? ==> 2 <= Decode(packet).status <= 4
  {
    hide Header.Scan, Sum, CString, ValidName, StoredData;
  }

  /** emwin_sync_serial() */
  method SyncSerial(src: Source, retry: nat) returns (status: int)
    requires Proper(src.script)
    modifies src
    ensures Proper(src.script)
    ensures match SerialSync(old(Lead(src.script)), old(Stop(src.script)), retry)
            case Synced(rest) => status == 0 && Lead(src.script) == rest
            case NotSynced(code) => status == code != 0
  {
    hide Decode, SyncRest;
    ghost var stop := Stop(src.script);
    ghost var goal := SerialSync(Lead(src.script), stop, retry);
    status := SyncDevice(src);
    var i := 0;
    while i <= retry && status == 0
      invariant Proper(src.script) && 0 <= i <= retry + 1
      invariant status == 0 ==> Stop(src.script) == stop
      invariant status == 0 && i <= retry ==> Settle(Lead(src.script), stop, retry - i) == goal
      invariant status == 0 && i > retry ==> goal == Synced(Lead(src.script))
      invariant status != 0 ==> goal == NotSynced(status)
      decreases retry - i
    {
      var packet;
      status, packet := GetPacket(src);
      if |packet| == PACKET_SIZE { DecodeStatus(packet); }
      if status < 2 {
        break;
      }
      status := SyncDevice(src);
      i := i + 1;
    }
  }

  /**
   Opening a serial feed: whatever the number of retries, a stream of junk and then packets is left at
   its third packet, the first having been used to synchronise and the second to make sure.
   */
  lemma SerialAfterJunk(junk: seq<byte>, p1: seq<byte>, p2: seq<byte>, rest: seq<byte>, stop: ReadEvent, retry: nat)
    requires (forall q :: !MarkAt(junk, q)) && |junk| <= 4455 && PacketShape(p1)
    requires |p2| == PACKET_SIZE && Decode(p2).Good?
    ensures SerialSync(junk + p1 + p2 + rest, stop, retry) == Synced(rest)
  {
    hide Decode, SyncRest;
    assert junk + p1 + p2 + rest == junk + p1 + (p2 + rest);
    SyncAfterJunk(junk, p1, p2 + rest);
    assert (p2 + rest)[..PACKET_SIZE] == p2 && (p2 + rest)[PACKET_SIZE..] == rest;
  }

  /** The packets that successive reads take from a stream. */
  function PacketsIn(s: seq<byte>): (r: seq<seq<byte>>)
    ensures forall i :: 0 <= i < |r| ==> |r[i]| == PACKET_SIZE
  {
    if |s| < PACKET_SIZE then [] else [s[..PACKET_SIZE]] + PacketsIn(s[PACKET_SIZE..])
  }

  /** A stream of whole packets is read back packet by packet. */
  lemma {:induction false} PacketsOfStream(packets: seq<seq<byte>>, tail: seq<byte>)
    requires forall i :: 0 <= i < |packets| ==> |packets[i]| == PACKET_SIZE
    requires |tail| < PACKET_SIZE
    ensures PacketsIn(Concat(packets) + tail) == packets
  {
    if packets == [] {
      assert Concat(packets) + tail == tail;
    } else {
      ConcatHead(packets);
      var s := Concat(packets) + tail;
      assert s == packets[0] + (Concat(packets[1..]) + tail);
      assert s[..PACKET_SIZE] == packets[0] && s[PACKET_SIZE..] == Concat(packets[1..]) + tail;
      PacketsOfStream(packets[1..], tail);
    }
  }

  /** A test of packets: whether they decode. */
  function Decodes(): seq<byte> -> bool {
    (packet: seq<byte>) => |packet| == PACKET_SIZE && Decode(packet).Good?
  }

  /** The packets up to the first that is not good. */
  function GoodPrefix(packets: seq<seq<byte>>, good: seq<byte> -> bool): seq<seq<byte>> {
    if packets == [] || !good(packets[0]) then [] else [packets[0]] + GoodPrefix(packets[1..], good)
  }

  lemma PrefixStep(s: seq<byte>, good: seq<byte> -> bool)
    ensures |s| < PACKET_SIZE ==> GoodPrefix(PacketsIn(s), good) == []
    ensures |s| >= PACKET_SIZE ==>
              var packet, rest := s[..PACKET_SIZE], s[PACKET_SIZE..];
              GoodPrefix(PacketsIn(s), good)
              == if good(packet) then [packet] + GoodPrefix(PacketsIn(rest), good) else []
  {
    if |s| >= PACKET_SIZE {
      assert PacketsIn(s)[1..] == PacketsIn(s[PACKET_SIZE..]);
    }
  }

  /** The loop over one connection to a feed: packets are taken until a read or a packet is bad. */
  method ReadWhileGood(src: Source) returns (status: int, packets: seq<seq<byte>>)
    requires Proper(src.script)
    modifies src
    ensures Proper(src.script) && status != 0
    ensures packets == GoodPrefix(PacketsIn(old(Lead(src.script))), Decodes())
  {
    hide Decode, GoodPrefix, PacketsIn;
    packets, status := [], 0;
    ghost var good := Decodes();
    ghost var goal := GoodPrefix(PacketsIn(Lead(src.script)), good);
    while status == 0
      invariant Proper(src.script)
      invariant status == 0 ==> goal == packets + GoodPrefix(PacketsIn(Lead(src.script)), good)
      invariant status != 0 ==> goal == packets
      decreases if status == 0 then 1 else 0, |Lead(src.script)|
    {
      ghost var s := Lead(src.script);
      PrefixStep(s, good);
      var packet;
      status, packet := GetPacket(src);
      if |s| >= PACKET_SIZE { DecodeStatus(packet); }
      if status == 0 {
        packets := packets + [packet];
      }
    }
  }

  /** All of them when all of them are good. */
  lemma {:induction false} AllGood(packets: seq<seq<byte>>, good: seq<byte> -> bool)
    requires forall i :: 0 <= i < |packets| ==> good(packets[i])
    ensures GoodPrefix(packets, good) == packets
  {
    if packets != [] { AllGood(packets[1..], good); }
  }
}
