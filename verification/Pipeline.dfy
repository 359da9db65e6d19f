/** The whole way of one file: cut, written to a fifo, read back, decoded, spooled and joined. */
module Pipeline {
  import opened Bytes
  import opened Header
  import opened Insert
  import opened Receive
  import opened DecodeBuilt
  import opened Spool
  import opened SpoolSessions
  import opened SpoolKeys
  import opened EndToEnd
  import opened FrameSync

  /** The packets that a reader takes from a byte stream, as they reach the spool. */
  function FeedOf(packets: seq<seq<byte>>): (r: seq<Feed>)
    ensures |r| == |packets|
    ensures forall i :: 0 <= i < |r| ==> r[i] == Packet(packets[i])
  {
    seq(|packets|, i requires 0 <= i < |packets| => Packet(packets[i]))
  }

  ghost predicate Sendable(file: seq<byte>, name: seq<byte>, date: seq<byte>) {
    && file != [] && PartsTotal(|file|) <= 99999
    && |date| == STAMP_SIZE && NUL !in date && ValidName(SpoolName(name))
  }

  lemma BlockOfPacket(file: seq<byte>, name: seq<byte>, date: seq<byte>, k: nat)
    requires Sendable(file, name, date) && 1 <= k <= PartsTotal(|file|)
    ensures var b := BlockOf(PacketOf(file, name, date, k));
            b.Some? && b.value.name == SpoolName(name) && b.value.blockno == k
    ensures |PacketOf(file, name, date, k)| == Receive.PACKET_SIZE && Decode(PacketOf(file, name, date, k)).Good?
  {
    hide Decode, StoredPart, PacketOf, SpoolName;
    DecodePacket(file, name, date, k);
  }

  /** A built packet begins with six NULs and "/PF" and ends with six NULs. */
  lemma BuiltPacket(file: seq<byte>, name: seq<byte>, date: seq<byte>, k: nat)
    requires Sendable(file, name, date) && 1 <= k <= PartsTotal(|file|)
    ensures var p := PacketOf(file, name, date, k);
            |p| == Receive.PACKET_SIZE && p[..6] == Zeros(6) && p[6..9] == PF && p[1110..] == Zeros(6)
  {
    hide Print, Sum, HeaderName, SpoolName, PartData, Frame;
    PartSizes(file, k);
    var data, n := PartData(file, k), PartsTotal(|file|);
    SumBound(data);
    PrintedSize(HeaderName(name), k, n, Sum(data), date);
    PrintedMark(HeaderName(name), k, n, Sum(data), date);
    FrameParts(Print(HeaderName(name), k, n, Sum(data), date), data);
  }

  lemma PrintedMark(name: seq<byte>, part: nat, total: nat, sum: nat, stamp: seq<byte>)
    ensures |Print(name, part, total, sum, stamp)| >= 3 && Print(name, part, total, sum, stamp)[..3] == PF
  {
    hide PrintInt, PrintStamp, PadRight;
  }

  lemma FrameParts(header: seq<byte>, data: seq<byte>)
    requires |header| == HEADER_SIZE && |data| <= DATA_SIZE
    ensures var p := Frame(header, data);
            |p| == Receive.PACKET_SIZE && p[..6] == Zeros(6) && p[6..9] == header[..3] && p[1110..] == Zeros(6)
  {
  }

  lemma OneMore(before: seq<Feed>, packet: seq<byte>, name: Name)
    requires BlockOf(packet).Some? && BlockOf(packet).value.name == name
    ensures Own(before + [Packet(packet)], name) == Own(before, name) + [packet]
    ensures FirstBlocks(EventsOf(before + [Packet(packet)]))
            == FirstBlocks(EventsOf(before)) + if BlockOf(packet).value.blockno == 1 then 1 else 0
  {
    hide BlockOf;
    var feed := before + [Packet(packet)];
    assert feed[..|feed| - 1] == before;
    var events := EventsOf(feed);
    assert events == EventsOf(before) + [Arrive(BlockOf(packet).value)];
    assert events[..|events| - 1] == EventsOf(before);
  }

  lemma FeedStep(file: seq<byte>, name: seq<byte>, date: seq<byte>, n: nat)
    requires 0 < n <= PartsTotal(|file|)
    ensures var packets, before := PacketsOf(file, name, date, n), PacketsOf(file, name, date, n - 1);
            && packets == before + [PacketOf(file, name, date, n)]
            && FeedOf(packets) == FeedOf(before) + [Packet(PacketOf(file, name, date, n))]
  {
    hide PacketOf, PartsTotal;
  }

  lemma OwnNothing(name: Name)
    ensures Own([], name) == [] && EventsOf([]) == [] && FirstBlocks([]) == 0
  {
  }

  /** Alone on the line, all packets are the product's own, and only the first is a block 1. */
  lemma {:induction false} AloneOnTheLine(file: seq<byte>, name: seq<byte>, date: seq<byte>, n: nat)
    requires Sendable(file, name, date) && n <= PartsTotal(|file|)
    ensures var packets := PacketsOf(file, name, date, n);
            && Own(FeedOf(packets), SpoolName(name)) == packets
            && FirstBlocks(EventsOf(FeedOf(packets))) == if n == 0 then 0 else 1
  {
    hide BlockOf, PacketOf, Sendable, Own, EventsOf, FirstBlocks, SpoolName, PartsTotal, FeedOf, PacketsOf, Decode;
    if n == 0 {
      assert PacketsOf(file, name, date, 0) == [] && FeedOf([]) == [];
      OwnNothing(SpoolName(name));
    } else {
      AloneOnTheLine(file, name, date, n - 1);
      BlockOfPacket(file, name, date, n);
      FeedStep(file, name, date, n);
      OneMore(FeedOf(PacketsOf(file, name, date, n - 1)), PacketOf(file, name, date, n), SpoolName(name));
    }
  }

  lemma AloneIsTransmitted(file: seq<byte>, name: seq<byte>, date: seq<byte>)
    requires Sendable(file, name, date)
    ensures Transmitted(FeedOf(PacketsOf(file, name, date, PartsTotal(|file|))), [], file, name, date)
  {
    AloneOnTheLine(file, name, date, PartsTotal(|file|));
    hide PacketOf, Own, EventsOf, FirstBlocks;
    assert Own([], SpoolName(name)) == [] by { OwnNothing(SpoolName(name)); }
  }

  /**
   From file to file: the packets of a file, written one after the other to the fifo and taken from the
   byte stream by the reading loop, give a text file again exactly when it has no NUL; a file that is not
   text comes back zero-filled to whole blocks.
   */
  lemma FifoRoundTrip(key: int, file: seq<byte>, name: seq<byte>, date: seq<byte>, tail: seq<byte>)
    requires Sendable(file, name, date) && KEY_FIRST <= key <= KEY_LAST && |tail| < Receive.PACKET_SIZE
    ensures var stream := Concat(PacketsOf(file, name, date, PartsTotal(|file|))) + tail;
            var taken := GoodPrefix(PacketsIn(stream), Decodes());
            Joins(Process(Run(Empty(key), EventsOf(FeedOf(taken))), SpoolName(name)).1, file, name)
  {
    hide PacketOf, Own, EventsOf, FirstBlocks, Process, Run, Transmitted, FeedOf, SpoolName, FreshFrom, Decode;
    var n := PartsTotal(|file|);
    var packets := PacketsOf(file, name, date, n);
    forall i | 0 <= i < |packets| ensures |packets[i]| == Receive.PACKET_SIZE && Decode(packets[i]).Good? {
      BlockOfPacket(file, name, date, i + 1);
    }
    PacketsOfStream(packets, tail);
    AllGood(packets, Decodes());
    AloneOnTheLine(file, name, date, n);
    AloneIsTransmitted(file, name, date);
    OwnNothing(SpoolName(name));
    var events := EventsOf(FeedOf(packets));
    assert EventsOf3([], FeedOf(packets), []) == events;
    FewFirstBlocks(key, events, SpoolName(name), 0, false);
    FileSurvives(key, [], FeedOf(packets), [], file, name, date);
  }
}
