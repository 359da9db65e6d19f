/** The WX14 device library: messages on the wire and the block reader with its buffers. */
module Wx14Device {
  import opened Bytes
  import opened IoLoops
  import opened Wx14
  import opened Wx14Packets

  const EMWIN: int := 0x0b
  const SIGNAL_STATUS: int := 0x1b

  const ERROR_INVALID_HEADER: int := 1
  const ERROR_UNEXPECTED_MSGTYPE: int := 3
  const ERROR_READ_TIMEOUT: int := 4
  const ERROR_READ_EOF: int := 5
  const ERROR_READ_SHORT: int := 6
  const ERROR_INCOMPLETE_BLOCK: int := 9

  // ------------------------------------------------------------ messages on the wire

  const HEADER_SIZE: nat := 5

  /** The room for data in the buffer for a message. */
  const DATA_MAX: nat := 1116

  datatype Msg = Msg(kind: byte, data: seq<byte>)

  /** The five header bytes and the data; the length field counts one more byte for EMWIN messages. */
  function Wire(m: Msg): seq<byte>
    requires |m.data| <= DATA_MAX
  {
    var n := if m.kind == EMWIN then |m.data| + 1 else |m.data|;
    [0xbb, 0xd2, n / 256, n % 256, m.kind] + m.data
  }

  /** The size of the data, from a header. */
  function DataSize(head: seq<byte>): int
    requires |head| >= 5
  {
    var n := head[2] as int * 256 + head[3] as int;
    if head[4] == EMWIN then n - 1 else n
  }

  /** The first message of a byte stream, if it is whole. */
  function ParseOne(s: seq<byte>): (r: Option<(Msg, seq<byte>)>)
    ensures r.Some? ==> |r.value.1| < |s|
  {
    if |s| < 5 || s[0] != 0xbb || s[1] != 0xd2 then None else
    var n := DataSize(s);
    if n <= 0 || |s| < 5 + n then None else Some((Msg(s[4], s[5..5 + n]), s[5 + n..]))
  }

  /** The EMWIN payloads of a byte stream; signal status messages are passed over. */
  function Payloads(s: seq<byte>): seq<seq<byte>>
    decreases |s|
  {
    var one := ParseOne(s);
    if one.None? then [] else
    var (m, rest) := one.value;
    if m.kind == EMWIN then [m.data] + Payloads(rest)
    else if m.kind == SIGNAL_STATUS then Payloads(rest)
    else []
  }

  /** A message that is written is read back. */
  lemma ParseWire(m: Msg, rest: seq<byte>)
    requires 0 < |m.data| <= DATA_MAX
    ensures ParseOne(Wire(m) + rest) == Some((m, rest))
  {
    var s := Wire(m) + rest;
    var n := if m.kind == EMWIN then |m.data| + 1 else |m.data|;
    assert s[2] == n / 256 && s[3] == n % 256 && s[4] == m.kind;
    assert DataSize(s) == |m.data|;
    assert s[5..5 + |m.data|] == m.data && s[5 + |m.data|..] == rest;
  }

  function WireAll(msgs: seq<Msg>): seq<byte>
    requires forall i :: 0 <= i < |msgs| ==> 0 < |msgs[i].data| <= DATA_MAX
  {
    if msgs == [] then [] else Wire(msgs[0]) + WireAll(msgs[1..])
  }

  function EmwinData(msgs: seq<Msg>): seq<seq<byte>> {
    if msgs == [] then []
    else (if msgs[0].kind == EMWIN then [msgs[0].data] else []) + EmwinData(msgs[1..])
  }

  /** EMWIN and status messages that fit the message buffer. */
  ghost predicate Sendable(msgs: seq<Msg>) {
    forall i :: 0 <= i < |msgs| ==>
      0 < |msgs[i].data| <= DATA_MAX && (msgs[i].kind == EMWIN || msgs[i].kind == SIGNAL_STATUS)
  }

  /** No message that the reader comes to announces more data than its buffer has room for. */
  ghost predicate Fits(s: seq<byte>)
    decreases |s|
  {
    |s| >= HEADER_SIZE && s[0] == 0xbb && s[1] == 0xd2 ==>
      && 0 <= DataSize(s) <= DATA_MAX
      && (ParseOne(s).Some? && (s[4] == EMWIN || s[4] == SIGNAL_STATUS) ==> Fits(ParseOne(s).value.1))
  }

  lemma {:induction false} WireFits(msgs: seq<Msg>)
    requires Sendable(msgs)
    ensures Fits(WireAll(msgs))
  {
    if msgs != [] {
      ParseWire(msgs[0], WireAll(msgs[1..]));
      WireFits(msgs[1..]);
      WireSize(msgs[0], WireAll(msgs[1..]));
    }
  }

  lemma WireSize(m: Msg, rest: seq<byte>)
    requires |m.data| <= DATA_MAX
    ensures DataSize(Wire(m) + rest) == |m.data|
  {
    var n := if m.kind == EMWIN then |m.data| + 1 else |m.data|;
    var s := Wire(m) + rest;
    assert s[2] == n / 256 && s[3] == n % 256 && s[4] == m.kind;
  }

  /** Status messages in between do not disturb the sequence of EMWIN payloads. */
  lemma {:induction false} PayloadsOfWire(msgs: seq<Msg>)
    requires Sendable(msgs)
    ensures Payloads(WireAll(msgs)) == EmwinData(msgs)
  {
    if msgs != [] {
      ParseWire(msgs[0], WireAll(msgs[1..]));
      PayloadsOfWire(msgs[1..]);
    }
  }

  /**
   From the wire: whatever status messages that fit the buffer come in between, and however the packets are
   cut into EMWIN messages of at most 1110 bytes, exactly the packets whose mark was not cut are delivered,
   in order, the last of them excepted.
   */
  lemma WireDelivered(pre: seq<byte>, packets: seq<seq<byte>>, msgs: seq<Msg>)
    requires Sendable(msgs) && Bounded(EmwinData(msgs)) && PacketStream(Concat(EmwinData(msgs)), pre, packets)
    ensures Fits(WireAll(msgs)) && Bounded(Payloads(WireAll(msgs)))
    ensures var (blocks, short) := Session(Payloads(WireAll(msgs)));
            var found := FoundPackets(EmwinData(msgs), |pre| + 6);
            && !short && Ascending(found)
            && FoundUncut(EmwinData(msgs), pre, packets, found) && AllButLast(blocks, packets, found)
  {
    PayloadsOfWire(msgs);
    WireFits(msgs);
    UncutPacketsDelivered(pre, packets, EmwinData(msgs));
  }

  /** ... and all packets but the last if no message boundary cuts a "/PF". */
  lemma WireDeliversAll(pre: seq<byte>, packets: seq<seq<byte>>, msgs: seq<Msg>)
    requires Sendable(msgs) && Bounded(EmwinData(msgs)) && PacketStream(Concat(EmwinData(msgs)), pre, packets)
    requires NoneCut(EmwinData(msgs), pre, packets) && packets != []
    ensures Fits(WireAll(msgs)) && Bounded(Payloads(WireAll(msgs)))
    ensures Session(Payloads(WireAll(msgs))) == (packets[..|packets| - 1], false)
  {
    PayloadsOfWire(msgs);
    WireFits(msgs);
    AllDelivered(pre, packets, EmwinData(msgs));
  }

  // --------------------------------------------------------------------- the reader

  /** struct wx14_msg_st and the open descriptor. */
  class Wx14Reader {
    const src: Source
    const message: array<byte>
    var msgType: int
    var data: seq<byte>
    var index: nat
    const part: array<byte>
    var partSize: nat
    const block: array<byte>
    var blockSize: nat

    constructor (src: Source)
      requires Proper(src.script) && Fits(Lead(src.script)) && Bounded(Payloads(Lead(src.script)))
      ensures Valid() && this.src == src && fresh(message) && fresh(part) && fresh(block)
    {
      this.src := src;
      message := new byte[HEADER_SIZE + DATA_MAX];
      msgType, data, index, partSize, blockSize := 0, [], 0, 0, 0;
      part := new byte[BLOCK_SIZE + 6];
      block := new byte[BLOCK_SIZE];
    }

    ghost predicate Valid()
      reads this, src
    {
      && message.Length == HEADER_SIZE + DATA_MAX && message != part && message != block
      && part.Length == BLOCK_SIZE + 6 && block.Length == BLOCK_SIZE && part != block
      && Proper(src.script) && Fits(Lead(src.script)) && Bounded(Payloads(Lead(src.script)))
    }

    ghost function Part(): seq<byte>
      requires partSize <= part.Length
      reads this, part
    {
      part[..partSize]
    }

    ghost function Coming(): seq<seq<byte>>
      reads this, src
    {
      Payloads(Lead(src.script))
    }

    /** The reader is ready for a message, which will fit. */
    ghost predicate Ready()
      reads this, src
    {
      message.Length == HEADER_SIZE + DATA_MAX && Proper(src.script) && Fits(Lead(src.script))
    }

    /** wx14_readn(): the bytes go to the buffer at `at`, if all of them come. */
    method ReadN(at: nat, size: nat) returns (status: int)
      requires message.Length == HEADER_SIZE + DATA_MAX && at + size <= message.Length && Proper(src.script)
      modifies message, src
      ensures Proper(src.script) && -1 <= status <= ERROR_READ_SHORT
      ensures status == 0 <==> 0 < size <= |old(Lead(src.script))|
      ensures status == 0 ==> Lead(src.script) == old(Lead(src.script))[size..]
      ensures status == 0 ==>
        message[..] == old(message[..at]) + old(Lead(src.script))[..size] + old(message[at + size..])
    {
      StopIsNoChunk(src.script);
      var n, bytes, _ := src.ReadM(size);
      if n == -1 {
        return -1;
      }
      if n == -2 {
        return ERROR_READ_TIMEOUT;
      }
      if n == 0 {
        return ERROR_READ_EOF;
      }
      if n != size {
        return ERROR_READ_SHORT;
      }
      CopyInto(message, at, bytes);
      return 0;
    }

    /** wx14_read_msg_header(): the type and size of the message that comes. */
    method ReadMsgHeader() returns (status: int, size: nat)
      requires Ready()
      modifies this`msgType, message, src
      ensures Proper(src.script) && -1 <= status <= ERROR_READ_SHORT
      ensures var s := old(Lead(src.script));
              && (status == 0 <==> |s| >= HEADER_SIZE && s[0] == 0xbb && s[1] == 0xd2)
              && (status == 0 ==>
                    && msgType == s[4] && size == DataSize(s) <= DATA_MAX
                    && message[..HEADER_SIZE] == s[..HEADER_SIZE] && Lead(src.script) == s[HEADER_SIZE..])
    {
      size := 0;
      status := ReadN(0, HEADER_SIZE);
      if status != 0 {
        return;
      }
      assert message[..HEADER_SIZE] == old(Lead(src.script))[..HEADER_SIZE];
      assert forall i :: 0 <= i < HEADER_SIZE ==> message[i] == message[..HEADER_SIZE][i];
      if message[0] != 0xbb || message[1] != 0xd2 {
        return ERROR_INVALID_HEADER, 0;
      }
      msgType := message[4];
      size := DataSize(message[..HEADER_SIZE]);
    }

    /** wx14_read_msg(): 0 and a message, or the error of the read that failed. */
    method ReadMsg() returns (status: int)
      requires Ready()
      modifies this`msgType, this`data, message, src
      ensures Proper(src.script)
      ensures -1 <= status <= ERROR_READ_SHORT
      ensures status == 0 <==> ParseOne(old(Lead(src.script))).Some?
      ensures status == 0 ==> 0 <= msgType < 256
      ensures status == 0 ==> ParseOne(old(Lead(src.script))) == Some((Msg(msgType, data), Lead(src.script)))
      ensures status == 0 ==> message[..HEADER_SIZE + |data|] == old(Lead(src.script))[..HEADER_SIZE + |data|]
    {
      hide DataSize;
      ghost var s := Lead(src.script);
      var size;
      status, size := ReadMsgHeader();
      if status != 0 {
        return;
      }
      status := ReadN(HEADER_SIZE, size);
      if status != 0 {
        return;
      }
      HeadAndData(s, size);
      data := message[HEADER_SIZE..HEADER_SIZE + size];
      assert message[..HEADER_SIZE + size] == s[..HEADER_SIZE] + s[HEADER_SIZE..][..size];
    }

    /** wx14_read1_data_msg_emwin(): the next EMWIN message. */
    method ReadEmwinMsg() returns (status: int)
      requires Ready()
      modifies this`msgType, this`data, message, src
      ensures Proper(src.script) && (status == 0 ==> Ready())
      ensures -1 <= status <= ERROR_READ_SHORT
      ensures status == 0 <==> old(Coming()) != []
      ensures status == 0 ==> old(Coming()) == [data] + Coming()
    {
      status := 0;
      ghost var goal := Coming();
      while true
        invariant Ready() && Coming() == goal
        decreases |Lead(src.script)|
      {
        status := ReadMsg();
        if status != 0 {
          return;
        }
        if msgType != EMWIN && msgType != SIGNAL_STATUS {
          return ERROR_UNEXPECTED_MSGTYPE;
        }
        if msgType == EMWIN {
          return;
        }
      }
    }

    /** find_emwin_block_start(): two searches, the second only when the first fails. */
    method FindStart() returns (found: bool)
      modifies this`index
      ensures found == Start(data).Some?
      ensures index == if found then Start(data).value else old(index)
    {
      hide OccursAt;
      var size := |data|;
      var i := 0;
      while i < size - 2
        invariant 0 <= i && (i <= size - 2 || i == 0)
        invariant Find(data, PF, 0) == Find(data, PF, i) && index == old(index)
        decreases size - i
      {
        SlashPF(data, i);
        if data[i] == 47 && data[i + 1] == 80 && data[i + 2] == 70 {
          index := i;
          return true;
        }
        i := i + 1;
      }
      i := 0;
      while i < size - 6
        invariant 0 <= i && (i <= size - 6 || i == 0)
        invariant Find(data, PF, 0).None? && Find(data, NULS_SLASH, 0) == Find(data, NULS_SLASH, i)
        invariant index == old(index)
        decreases size - i
      {
        SixNuls(data, i);
        if data[i] == 0 && data[i + 1] == 0 && data[i + 2] == 0 && data[i + 3] == 0
           && data[i + 4] == 0 && data[i + 5] == 0 && data[i + 6] == 47 {
          index := i + 6;
          return true;
        }
        i := i + 1;
      }
      return false;
    }

    /** find_emwin_block_end(): whether the message fills the packet, and with how many bytes. */
    method FindEnd() returns (found: bool)
      requires partSize <= BLOCK_SIZE
      modifies this`index
      ensures found == (partSize + |data| >= BLOCK_SIZE)
      ensures index == if found then BLOCK_SIZE - partSize else old(index)
    {
      if partSize + |data| < BLOCK_SIZE {
        return false;
      }
      index := BLOCK_SIZE - partSize;
      return true;
    }

    /** start_emwin_block() */
    method StartBlock()
      requires part.Length == BLOCK_SIZE + 6 && index <= |data| <= MAX_PAYLOAD
      modifies part, this`partSize
      ensures partSize <= BLOCK_SIZE && Part() == NewPart(data, index)
    {
      ClearAll(part, BLOCK_SIZE);
      CopyInto(part, 6, data[index..]);
      partSize := |data| - index + 6;
      assert Part() == Zeros(6) + data[index..];
    }

    /** append_emwin_block() */
    method AppendBlock()
      requires part.Length == BLOCK_SIZE + 6 && partSize + |data| < BLOCK_SIZE
      modifies part, this`partSize
      ensures partSize < BLOCK_SIZE && Part() == old(Part()) + data
    {
      CopyInto(part, partSize, data);
      partSize := partSize + |data|;
    }

    /** end_emwin_block(): the full packet is copied out and, if it can be, the next one begun. */
    method EndBlock()
      requires part.Length == BLOCK_SIZE + 6 && block.Length == BLOCK_SIZE && part != block
      requires partSize + index == BLOCK_SIZE && index <= |data| <= MAX_PAYLOAD
      modifies part, block, this`partSize, this`blockSize, this`index
      ensures blockSize == BLOCK_SIZE && block[..] == old(Part()) + data[..old(index)]
      ensures partSize <= BLOCK_SIZE && (Start(data).Some? ==> Part() == NewPart(data, Start(data).value))
    {
      CopyInto(part, partSize, data[..index]);
      partSize := partSize + index;
      CopyInto(block, 0, part[..partSize]);
      blockSize := partSize;
      var found := FindStart();
      if found {
        StartBlock();
      }
    }

    /** wx14_init_emwin_block() */
    method InitBlock() returns (status: int)
      requires Valid()
      modifies this, message, part, src
      ensures -1 <= status <= ERROR_READ_SHORT && (status == 0 ==> Valid())
      ensures blockSize == old(blockSize)
      ensures match Init(old(Coming()))
              case NotFound => status != 0
              case Found(p, rest) => status == 0 && partSize <= BLOCK_SIZE && Part() == p && Coming() == rest
    {
      hide Payloads, Fits, Start, Init, NewPart, Lead;
      index := 0;
      ghost var goal := Init(Coming());
      while true
        invariant Valid() && Init(Coming()) == goal && blockSize == old(blockSize)
        decreases |Coming()|
      {
        ghost var before := Coming();
        InitStep(before);
        status := ReadEmwinMsg();
        if status != 0 {
          return;
        }
        assert before[0] == data && before[1..] == Coming();
        var found := FindStart();
        if found {
          StartBlock();
          return;
        }
      }
    }

    /** wx14_read_emwin_block() */
    method ReadNext() returns (status: int)
      requires Valid() && partSize <= BLOCK_SIZE
      modifies this, message, part, block, src
      ensures status == 0 ==> Valid() && partSize <= BLOCK_SIZE
      ensures match ReadBlock(old(Part()), old(Coming()))
              case Ended => status != 0 && -1 <= status <= ERROR_READ_SHORT
              case Incomplete => status == ERROR_INCOMPLETE_BLOCK
              case Block(b, p, rest) =>
                status == 0 && blockSize == BLOCK_SIZE && block[..] == b && Part() == p && Coming() == rest
    {
      hide Payloads, Fits, Start, Init, NewPart, Lead;
      ghost var goal := ReadBlock(Part(), Coming());
      while true
        invariant Valid() && partSize <= BLOCK_SIZE && ReadBlock(Part(), Coming()) == goal
        decreases |Coming()|
      {
        ghost var before := Coming();
        ghost var was := Part();
        status := ReadEmwinMsg();
        if status != 0 {
          return;
        }
        assert before[0] == data && before[1..] == Coming();
        var full := FindEnd();
        if full {
          EndBlock();
          var found := FindStart();
          if found {
            StartBlock();
          } else {
            status := InitBlock();
          }
          return;
        }
        var found := FindStart();
        if found {
          return ERROR_INCOMPLETE_BLOCK;
        }
        AppendBlock();
      }
    }

    /** Packets are read until a read fails. */
    method ReadOn() returns (status: int, blocks: seq<seq<byte>>)
      requires Valid() && 6 <= partSize <= BLOCK_SIZE
      modifies this, message, part, block, src
      ensures Bounded(old(Coming())) && status != 0
      ensures (blocks, status == ERROR_INCOMPLETE_BLOCK) == Deliver(old(Part()), old(Coming()))
    {
      hide Deliver, ReadBlock, Payloads, Fits;
      ghost var goal := Deliver(Part(), Coming());
      blocks, status := [], 0;
      NothingYet(Part(), Coming());
      while status == 0
        invariant status == 0 ==> Valid() && 6 <= partSize <= BLOCK_SIZE
        invariant status == 0 ==> goal == Continued(blocks, Part(), Coming())
        invariant status != 0 ==> goal == (blocks, status == ERROR_INCOMPLETE_BLOCK)
        decreases if status == 0 then 1 else 0, |Coming()|
      {
        DeliverStep(blocks, Part(), Coming());
        status := ReadNext();
        if status == 0 {
          blocks := blocks + [block[..]];
        }
      }
    }

    /** A session with the device: initialise, then read. */
    method ReadAll() returns (status: int, blocks: seq<seq<byte>>)
      requires Valid()
      modifies this, message, part, block, src
      ensures Bounded(old(Coming())) && status != 0
      ensures (blocks, status == ERROR_INCOMPLETE_BLOCK) == Session(old(Coming()))
    {
      InitPart(Coming());
      hide Init, Deliver, Payloads, Fits;
      status := InitBlock();
      if status != 0 {
        return status, [];
      }
      status, blocks := ReadOn();
    }
  }

  /** The packets delivered so far and those that the rest of the messages gives. */
  function Continued(blocks: seq<seq<byte>>, part: seq<byte>, ms: seq<seq<byte>>): (seq<seq<byte>>, bool)
    requires 6 <= |part| <= BLOCK_SIZE && Bounded(ms)
  {
    var (more, short) := Deliver(part, ms);
    (blocks + more, short)
  }

  lemma NothingYet(part: seq<byte>, ms: seq<seq<byte>>)
    requires 6 <= |part| <= BLOCK_SIZE && Bounded(ms)
    ensures Continued([], part, ms) == Deliver(part, ms)
  {
    hide Deliver;
    assert [] + Deliver(part, ms).0 == Deliver(part, ms).0;
  }

  lemma DeliverStep(blocks: seq<seq<byte>>, part: seq<byte>, ms: seq<seq<byte>>)
    requires 6 <= |part| <= BLOCK_SIZE && Bounded(ms)
    ensures match ReadBlock(part, ms)
            case Ended => Continued(blocks, part, ms) == (blocks, false)
            case Incomplete => Continued(blocks, part, ms) == (blocks, true)
            case Block(b, p, rest) =>
              && 6 <= |p| <= BLOCK_SIZE && Bounded(rest) && |rest| < |ms|
              && Continued(blocks, part, ms) == Continued(blocks + [b], p, rest)
  {
    ReadBlockPart(part, ms);
    hide ReadBlock;
    match ReadBlock(part, ms)
    case Block(b, p, rest) =>
      assert blocks + ([b] + Deliver(p, rest).0) == blocks + [b] + Deliver(p, rest).0;
    case _ =>
      assert Deliver(part, ms).0 == [] && blocks + [] == blocks;
  }

  lemma HeadAndData(s: seq<byte>, size: nat)
    requires HEADER_SIZE + size <= |s|
    ensures s[..HEADER_SIZE] + s[HEADER_SIZE..][..size] == s[..HEADER_SIZE + size]
    ensures s[HEADER_SIZE..][..size] == s[HEADER_SIZE..HEADER_SIZE + size]
    ensures s[HEADER_SIZE..][size..] == s[HEADER_SIZE + size..]
  {
  }

  lemma InitStep(ms: seq<seq<byte>>)
    ensures ms == [] ==> Init(ms) == NotFound
    ensures ms != [] && Start(ms[0]).Some? ==> Init(ms) == Found(NewPart(ms[0], Start(ms[0]).value), ms[1..])
    ensures ms != [] && Start(ms[0]).None? ==> Init(ms) == Init(ms[1..])
  {
  }

  lemma SlashPF(d: seq<byte>, i: nat)
    requires i + 3 <= |d|
    ensures OccursAt(d, PF, i) <==> d[i] == 47 && d[i + 1] == 80 && d[i + 2] == 70
  {
    var w := d[i..i + 3];
    assert w == [d[i], d[i + 1], d[i + 2]];
  }

  lemma SixNuls(d: seq<byte>, i: nat)
    requires i + 7 <= |d|
    ensures OccursAt(d, NULS_SLASH, i) <==>
      && d[i] == 0 && d[i + 1] == 0 && d[i + 2] == 0 && d[i + 3] == 0
      && d[i + 4] == 0 && d[i + 5] == 0 && d[i + 6] == 47
  {
    var w := d[i..i + 7];
    assert w == [d[i], d[i + 1], d[i + 2], d[i + 3], d[i + 4], d[i + 5], d[i + 6]];
  }
}
