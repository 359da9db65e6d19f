/** Opening a WX14 device as a feed of packets, and a file that comes in over its wire. */
module Wx14Feed {
  import opened Bytes
  import opened Receive
  import opened DecodeBuilt
  import opened Spool
  import opened SpoolSessions
  import opened EndToEnd
  import opened FrameSync
  import opened Pipeline
  import Insert
  import X = Wx14
  import P = Wx14Packets
  import D = Wx14Device

  // ------------------------------------------------------------------ opening the feed

  /** Where the reader stands when the feed is open: its partial packet and the messages to come. */
  datatype Feeding = Feeding(part: seq<byte>, rest: seq<seq<byte>>) | NotOpen

  ghost predicate Sized(f: Feeding) {
    f.Feeding? ==> 6 <= |f.part| <= X.BLOCK_SIZE && X.Bounded(f.rest)
  }

  function FirstStart(ms: seq<seq<byte>>): (f: Feeding)
    requires X.Bounded(ms)
    ensures Sized(f) && (f.Feeding? ==> |f.rest| < |ms|)
  {
    X.InitPart(ms);
    match X.Init(ms) case Found(part, rest) => Feeding(part, rest) case NotFound => NotOpen
  }

  /** A packet that decodes, or one that does not and a new search for a start, `tries` times more. */
  function Settled(part: seq<byte>, ms: seq<seq<byte>>, tries: nat): (f: Feeding)
    requires 6 <= |part| <= X.BLOCK_SIZE && X.Bounded(ms)
    ensures Sized(f)
    decreases tries
  {
    X.ReadBlockPart(part, ms);
    match X.ReadBlock(part, ms)
    case Block(block, part', rest) =>
      if Decode(block).Good? then Feeding(part', rest)
      else
        var again := FirstStart(rest);
        if again.NotOpen? || tries == 0 then again else Settled(again.part, again.rest, tries - 1)
    case _ => NotOpen
  }

  function OpenFeed(ms: seq<seq<byte>>, retry: nat): (f: Feeding)
    requires X.Bounded(ms)
    ensures Sized(f)
  {
    var f := FirstStart(ms);
    if f.NotOpen? then f else Settled(f.part, f.rest, retry)
  }

  /** get_emwin_packet_wx14_msg(): 8 for a block that does not decode. */
  method GetPacketWx14(r: D.Wx14Reader) returns (status: int)
    requires r.Valid() && 6 <= r.partSize <= X.BLOCK_SIZE
    modifies r, r.message, r.part, r.block, r.src
    ensures match X.ReadBlock(old(r.Part()), old(r.Coming()))
            case Block(block, part, rest) =>
              && r.Valid() && r.partSize <= X.BLOCK_SIZE && r.Part() == part && r.Coming() == rest
              && |block| == PACKET_SIZE && status == if Decode(block).Good? then 0 else 8
            case _ => status != 0 && status != 8
  {
    hide Decode, X.ReadBlock, D.Payloads, D.Fits;
    X.ReadBlockPart(r.Part(), r.Coming());
    status := r.ReadNext();
    if status == 0 && Decode(r.block[..]).Bad? {
      status := 8;
    }
  }

  /** emwin_sync_wx14_msg() */
  method SyncWx14(r: D.Wx14Reader, retry: nat) returns (status: int)
    requires r.Valid()
    modifies r, r.message, r.part, r.block, r.src
    ensures X.Bounded(old(r.Coming()))
    ensures match OpenFeed(old(r.Coming()), retry)
            case Feeding(part, rest) =>
              status == 0 && r.Valid() && 6 <= r.partSize <= X.BLOCK_SIZE && r.Part() == part && r.Coming() == rest
            case NotOpen => status != 0
  {
    hide Decode, X.ReadBlock, X.Init, D.Payloads, D.Fits, Settled;
    ghost var goal := OpenFeed(r.Coming(), retry);
    X.InitPart(r.Coming());
    status := r.InitBlock();
    var i := 0;
    while i <= retry && status == 0
      invariant 0 <= i <= retry + 1
      invariant status == 0 ==> r.Valid() && 6 <= r.partSize <= X.BLOCK_SIZE
      invariant status == 0 && i <= retry ==> Settled(r.Part(), r.Coming(), retry - i) == goal
      invariant status == 0 && i > retry ==> goal == Feeding(r.Part(), r.Coming())
      invariant status != 0 ==> goal.NotOpen?
      decreases retry - i
    {
      SettledStep(r.Part(), r.Coming(), retry - i);
      status := GetPacketWx14(r);
      if status != 8 {
        break;
      }
      X.InitPart(r.Coming());
      status := r.InitBlock();
      i := i + 1;
    }
  }

  lemma SettledStep(part: seq<byte>, ms: seq<seq<byte>>, tries: nat)
    requires 6 <= |part| <= X.BLOCK_SIZE && X.Bounded(ms)
    ensures match X.ReadBlock(part, ms)
            case Block(block, part', rest) =>
              && |block| == PACKET_SIZE && 6 <= |part'| <= X.BLOCK_SIZE && X.Bounded(rest)
              && Settled(part, ms, tries)
                 == if Decode(block).Good? then Feeding(part', rest)
                    else if FirstStart(rest).NotOpen? || tries == 0 then FirstStart(rest)
                    else Settled(FirstStart(rest).part, FirstStart(rest).rest, tries - 1)
            case _ => Settled(part, ms, tries) == NotOpen
  {
    hide Decode, X.ReadBlock, X.Init;
    X.ReadBlockPart(part, ms);
  }

  /** Opening takes the first packet when it decodes, whatever the number of retries. */
  lemma OpenTakesFirst(ms: seq<seq<byte>>, retry: nat)
    requires X.Bounded(ms) && X.Session(ms).0 != []
    requires |X.Session(ms).0[0]| == PACKET_SIZE && Decode(X.Session(ms).0[0]).Good?
    ensures var f := OpenFeed(ms, retry);
            f.Feeding? && Sized(f) && X.Session(ms).0 == [X.Session(ms).0[0]] + X.Deliver(f.part, f.rest).0
  {
    hide Decode, X.Init;
    X.InitPart(ms);
    var f := X.Init(ms);
    SettledStep(f.part, f.rest, retry);
  }

  // ---------------------------------------------------------------- a file over the wire

  /** A built packet is well formed on the wire exactly when it has no start mark but its own. */
  lemma BuiltIsWellFormed(file: seq<byte>, name: seq<byte>, date: seq<byte>, k: nat)
    requires Pipeline.Sendable(file, name, date) && 1 <= k <= Insert.PartsTotal(|file|)
    ensures var p := Insert.PacketOf(file, name, date, k);
            P.WellFormed(p) <==> forall i :: P.MarkAt(p, i) ==> i == 6
  {
    BuiltPacket(file, name, date, k);
    hide Insert.PacketOf, P.MarkAt;
  }

  ghost predicate AllGood(packets: seq<seq<byte>>) {
    forall i :: 0 <= i < |packets| ==> |packets[i]| == PACKET_SIZE && Decode(packets[i]).Good?
  }

  /** The packets of a feed, between one more before them and one more after them, as they cross the wire. */
  ghost predicate OverTheWire(msgs: seq<D.Msg>, junk: seq<byte>, first: seq<byte>, packets: seq<seq<byte>>,
                              next: seq<byte>) {
    var ms, all := D.EmwinData(msgs), [first] + packets + [next];
    && D.Sendable(msgs) && X.Bounded(ms)
    && P.PacketStream(Concat(ms), junk, all) && P.NoneCut(ms, junk, all)
    && AllGood([first] + packets)
  }

  /** After opening, the device gives exactly these packets. */
  lemma TakenFromWire(msgs: seq<D.Msg>, junk: seq<byte>, first: seq<byte>, packets: seq<seq<byte>>, next: seq<byte>,
                      retry: nat)
    requires OverTheWire(msgs, junk, first, packets, next)
    ensures D.Fits(D.WireAll(msgs)) && X.Bounded(D.Payloads(D.WireAll(msgs)))
    ensures var f := OpenFeed(D.Payloads(D.WireAll(msgs)), retry);
            f.Feeding? && Sized(f) && GoodPrefix(X.Deliver(f.part, f.rest).0, Decodes()) == packets
  {
    hide Decode, OpenFeed, X.Deliver, X.Session, P.PacketStream, P.NoneCut, D.Payloads, D.Fits;
    var ms, all := D.Payloads(D.WireAll(msgs)), [first] + packets + [next];
    D.WireDeliversAll(junk, all, msgs);
    var blocks := X.Session(ms).0;
    assert blocks == [first] + packets;
    assert blocks[0] == ([first] + packets)[0];
    OpenTakesFirst(ms, retry);
    var f := OpenFeed(ms, retry);
    assert ([first] + X.Deliver(f.part, f.rest).0)[1..] == ([first] + packets)[1..];
    forall i | 0 <= i < |packets| ensures Decodes()(packets[i]) {
      assert packets[i] == ([first] + packets)[i + 1];
    }
    FrameSync.AllGood(packets, Decodes());
  }

  /**
   A file that crosses a WX14 wire among packets of other products, with any status messages in between,
   is assembled by the queue runner: a text file as itself exactly when it has no NUL, a file that is not
   text zero-filled to whole blocks.
   */
  lemma Wx14RoundTrip(key: int, msgs: seq<D.Msg>, junk: seq<byte>, first: seq<byte>, packets: seq<seq<byte>>,
                      next: seq<byte>, retry: nat, pre: seq<Feed>, during: seq<Feed>, after: seq<Feed>,
                      file: seq<byte>, name: seq<byte>, date: seq<byte>)
    requires OverTheWire(msgs, junk, first, packets, next) && FeedOf(packets) == pre + during + after
    requires Transmitted(during, after, file, name, date)
    requires FreshFrom(key, EventsOf3(pre, during, after), SpoolName(name), |EventsOf(pre)|, false)
    ensures X.Bounded(D.Payloads(D.WireAll(msgs))) && ValidName(SpoolName(name))
    ensures var f := OpenFeed(D.Payloads(D.WireAll(msgs)), retry);
            && f.Feeding? && Sized(f)
            && var taken := GoodPrefix(X.Deliver(f.part, f.rest).0, Decodes());
               Joins(Process(Run(Empty(key), EventsOf(FeedOf(taken))), SpoolName(name)).1, file, name)
  {
    hide Decode, OpenFeed, X.Deliver, OverTheWire, Transmitted, FreshFrom, Process, Run, EventsOf, FeedOf, SpoolName;
    TakenFromWire(msgs, junk, first, packets, next, retry);
    EventsAppend(pre + during, after);
    EventsAppend(pre, during);
    FileSurvives(key, pre, during, after, file, name, date);
  }
}
