/** npemwininsert: cutting a file into 1116-byte packets. */
module Insert {
  import opened Bytes
  import opened Header

  const NULL_SIZE: nat := 6
  const DATA_SIZE: nat := 1024
  const PACKET_SIZE: nat := 1116

  function Min(a: int, b: int): int {
    if a < b then a else b
  }

  function ToUpper(b: byte): byte {
    if 97 <= b <= 122 then b - 32 else b
  }

  function UpperAll(s: seq<byte>): (r: seq<byte>)
    ensures |r| == |s|
    ensures forall i :: 0 <= i < |s| ==> r[i] == ToUpper(s[i])
  {
    seq(|s|, i requires 0 <= i < |s| => ToUpper(s[i]))
  }

  // ------------------------------------------------ what the packets should be

  /** The number of 1024-byte parts that cover n bytes. */
  function PartsTotal(n: nat): nat {
    (n + 1023) / 1024
  }

  /** The bytes of part k, counted from 1. */
  function PartData(file: seq<byte>, k: nat): seq<byte>
    requires 1 <= k <= PartsTotal(|file|)
  {
    file[1024 * (k - 1)..Min(1024 * k, |file|)]
  }

  function HeaderName(name: seq<byte>): (r: seq<byte>)
    ensures |r| <= FNAME_SIZE
  {
    UpperAll(if |name| < FNAME_SIZE then name else name[..FNAME_SIZE])
  }

  /** A well-formed packet: NULs, header, zero-filled data, NULs. */
  function Frame(header: seq<byte>, data: seq<byte>): seq<byte>
    requires |data| <= DATA_SIZE
  {
    Zeros(NULL_SIZE) + header + data + Zeros(DATA_SIZE - |data|) + Zeros(NULL_SIZE)
  }

  function PacketOf(file: seq<byte>, name: seq<byte>, date: seq<byte>, k: nat): seq<byte>
    requires 1 <= k <= PartsTotal(|file|)
  {
    var data := PartData(file, k);
    Frame(Print(HeaderName(name), k, PartsTotal(|file|), Sum(data), date), data)
  }

  function PacketsOf(file: seq<byte>, name: seq<byte>, date: seq<byte>, n: nat): (r: seq<seq<byte>>)
    requires n <= PartsTotal(|file|)
    ensures |r| == n
    ensures forall k :: 0 <= k < n ==> r[k] == PacketOf(file, name, date, k + 1)
  {
    seq(n, i requires 0 <= i < n => PacketOf(file, name, date, i + 1))
  }

  lemma PacketOfShortName(file: seq<byte>, name: seq<byte>, date: seq<byte>, k: nat)
    requires 1 <= k <= PartsTotal(|file|)
    ensures var n := if |name| < FNAME_SIZE then name else name[..FNAME_SIZE];
            PacketOf(file, n, date, k) == PacketOf(file, name, date, k)
  {
    var n := if |name| < FNAME_SIZE then name else name[..FNAME_SIZE];
    assert HeaderName(n) == HeaderName(name);
  }

  /** Where part k lies, and how the reader of the file gets to it. */
  lemma PartRange(file: seq<byte>, last: nat, k: nat)
    requires 1 <= k && 0 < last <= DATA_SIZE
    requires |file| > 0 ==> |file| == 1024 * (PartsTotal(|file|) - 1) + last
    ensures k <= PartsTotal(|file|) ==>
      var from, to := Min(1024 * (k - 1), |file|), Min(1024 * k, |file|);
      && PartData(file, k) == file[from..to]
      && to - from == (if k == PartsTotal(|file|) then last else DATA_SIZE)
    ensures k > PartsTotal(|file|) ==> Min(1024 * (k - 1), |file|) == |file|
  {
  }

  lemma PlacedInZeros(q: seq<byte>, p: nat, data: seq<byte>)
    requires p + |data| <= PACKET_SIZE
    requires q == Zeros(PACKET_SIZE)[..p] + data + Zeros(PACKET_SIZE)[p + |data|..]
    ensures q[p..p + |data|] == data
    ensures q == Zeros(p) + data + Zeros(PACKET_SIZE - p - |data|)
  {
  }

  lemma Splice(header: seq<byte>, data: seq<byte>)
    requires |header| == HEADER_SIZE && |data| <= DATA_SIZE
    ensures var before := Zeros(86) + data + Zeros(1030 - |data|);
            before[..6] + header + before[86..] == Frame(header, data)
  {
  }

  /** The parts of a file are all full but the last, and none is empty. */
  lemma PartSizes(file: seq<byte>, k: nat)
    requires 1 <= k <= PartsTotal(|file|)
    ensures 0 < |PartData(file, k)| <= DATA_SIZE
    ensures k < PartsTotal(|file|) ==> |PartData(file, k)| == DATA_SIZE
    ensures k == PartsTotal(|file|) ==> 1024 * k >= |file|
  {
  }

  // --------------------------------------------------------------- the program

  method CalcChecksum(p: array<byte>, start: nat, size: nat) returns (c: nat)
    requires start + size <= p.Length
    ensures c == Sum(p[start..start + size])
  {
    c := 0;
    for i := 0 to size
      invariant c == Sum(p[start..start + i])
    {
      assert p[start..start + i + 1][..i] == p[start..start + i];
      c := c + p[start + i];
    }
  }

  method GetPartsTotal(fsize: nat) returns (pt: nat)
    ensures pt == PartsTotal(fsize)
  {
    pt := fsize / DATA_SIZE;
    if fsize % DATA_SIZE != 0 {
      pt := pt + 1;
    }
  }

  method GetLastPartSize(fsize: nat) returns (size: nat)
    ensures 0 < size <= DATA_SIZE
    ensures fsize > 0 ==> fsize == 1024 * (PartsTotal(fsize) - 1) + size
  {
    size := fsize % DATA_SIZE;
    if size == 0 {
      size := DATA_SIZE;
    }
  }

  /** struct emwin_packet_st, with the open file as its bytes and a read offset. */
  class PacketBuilder {
    const packet: array<byte>
    const file: seq<byte>
    const fname: seq<byte>
    const headerDate: seq<byte>
    const partsTotal: nat
    const lastPartSize: nat
    var offset: nat
    var partNumber: nat
    var checksum: nat

    ghost predicate Valid()
      reads this
    {
      && packet.Length == PACKET_SIZE
      && |fname| <= FNAME_SIZE && |headerDate| == STAMP_SIZE
      && partsTotal == PartsTotal(|file|)
      && 0 < lastPartSize <= DATA_SIZE
      && (|file| > 0 ==> |file| == 1024 * (partsTotal - 1) + lastPartSize)
      && partNumber <= partsTotal
      && offset == Min(1024 * partNumber, |file|)
    }

    constructor (file: seq<byte>, emwinfname: seq<byte>, date: seq<byte>)
      requires |date| == STAMP_SIZE
      ensures Valid() && fresh(packet)
      ensures this.file == file && headerDate == date && partNumber == 0
      ensures fname == if |emwinfname| < FNAME_SIZE then emwinfname else emwinfname[..FNAME_SIZE]
    {
      this.file := file;
      this.headerDate := date;
      this.fname := if |emwinfname| < FNAME_SIZE then emwinfname else emwinfname[..FNAME_SIZE];
      var pt := GetPartsTotal(|file|);
      var last := GetLastPartSize(|file|);
      partsTotal := pt;
      lastPartSize := last;
      offset := 0;
      partNumber := 0;
      checksum := 0;
      packet := new byte[PACKET_SIZE];
    }

    /** read(2) of a regular file into packet[at..]: as many bytes as are left. */
    method Read(at: nat, size: nat) returns (n: nat)
      requires packet.Length == PACKET_SIZE && offset <= |file| && at + size <= PACKET_SIZE
      modifies packet, this`offset
      ensures n == Min(size, |file| - old(offset)) && offset == old(offset) + n
      ensures packet[..] == old(packet[..at]) + file[old(offset)..offset] + old(packet[at + n..])
    {
      n := Min(size, |file| - offset);
      CopyInto(packet, at, file[offset..offset + n]);
      offset := offset + n;
    }

    /** 0, 1 when the header does not have 80 bytes. */
    method BuildHeader() returns (status: int)
      requires packet.Length == PACKET_SIZE && |fname| <= FNAME_SIZE && |headerDate| == STAMP_SIZE
      modifies packet
      ensures status == if |Print(UpperAll(fname), partNumber, partsTotal, checksum, headerDate)| == HEADER_SIZE
                        then 0 else 1
      ensures status != 0 ==> packet[..] == old(packet[..])
      ensures status == 0 ==>
        packet[..] == old(packet[..NULL_SIZE])
                      + Print(UpperAll(fname), partNumber, partsTotal, checksum, headerDate)
                      + old(packet[NULL_SIZE + HEADER_SIZE..])
    {
      var caps: seq<byte> := [];
      for i := 0 to |fname|
        invariant caps == UpperAll(fname)[..i]
      {
        caps := caps + [ToUpper(fname[i])];
      }
      assert caps == UpperAll(fname);
      var header := Print(caps, partNumber, partsTotal, checksum, headerDate);
      if |header| != HEADER_SIZE {
        return 1;
      }
      CopyInto(packet, NULL_SIZE, header);
      return 0;
    }

    /** Everything but the header: the zeroed packet with the next part in place and its checksum. */
    method FillData() returns (ok: bool)
      requires Valid()
      modifies this, packet
      ensures partNumber == old(partNumber) + 1
      ensures ok == (old(partNumber) < partsTotal)
      ensures ok ==>
        && Valid()
        && checksum == Sum(PartData(file, partNumber))
        && |PartData(file, partNumber)| <= DATA_SIZE
        && packet[..] == Zeros(86) + PartData(file, partNumber) + Zeros(1030 - |PartData(file, partNumber)|)
    {
      hide Sum;
      partNumber := partNumber + 1;
      var dataSize := DATA_SIZE;
      if partNumber == partsTotal {
        dataSize := lastPartSize;
      }
      PartRange(file, lastPartSize, partNumber);
      ClearAll(packet, PACKET_SIZE);
      assert packet[..] == Zeros(PACKET_SIZE);
      var p := NULL_SIZE + HEADER_SIZE;
      var n := Read(p, dataSize);
      if n != dataSize {
        return false;
      }
      ghost var data := file[old(offset)..offset];
      PlacedInZeros(packet[..], p, data);
      checksum := CalcChecksum(packet, p, dataSize);
      return true;
    }

    /** 0, -1 on a short read, 1 on a header error. */
    method BuildPacket() returns (status: int)
      requires Valid()
      modifies this, packet
      ensures old(partNumber) == partsTotal ==> status == -1
      ensures old(partNumber) < partsTotal ==>
        && Valid() && partNumber == old(partNumber) + 1
        && checksum == Sum(PartData(file, partNumber))
        && status == (if partNumber <= 99999 && partsTotal <= 99999 then 0 else 1)
        && (status == 0 ==> packet[..] == PacketOf(file, fname, headerDate, partNumber))
    {
      hide Print, Sum;
      var ok := FillData();
      if !ok {
        return -1;
      }
      ghost var data := PartData(file, partNumber);
      SumBound(data);
      PrintedSize(UpperAll(fname), partNumber, partsTotal, checksum, headerDate);
      ghost var header := Print(UpperAll(fname), partNumber, partsTotal, checksum, headerDate);
      if |header| == HEADER_SIZE {
        Splice(header, data);
        assert HeaderName(fname) == UpperAll(fname);
      }
      status := BuildHeader();
    }
  }

  /**
   The sending loop. `fifo` gives the status of each write to the fifo in turn (0 written whole,
   1 short, -1 error); `sent` holds the packets written whole.
   */
  method ProcessFile(file: seq<byte>, emwinfname: seq<byte>, date: seq<byte>, fifo: seq<int>)
    returns (status: int, sent: seq<seq<byte>>)
    requires |date| == STAMP_SIZE && |fifo| >= PartsTotal(|file|)
    ensures |sent| <= PartsTotal(|file|) && sent == PacketsOf(file, emwinfname, date, |sent|)
    ensures status == 0 <==> |sent| == PartsTotal(|file|)
    ensures status == 0 <==>
            || file == []
            || (PartsTotal(|file|) <= 99999 && forall i :: 0 <= i < PartsTotal(|file|) ==> fifo[i] == 0)
  {
    hide PacketOf;
    var ep := new PacketBuilder(file, emwinfname, date);
    status, sent := 0, [];
    var i := 1;
    while i <= ep.partsTotal
      invariant ep.Valid() && fresh(ep) && fresh(ep.packet)
      invariant 1 <= i <= ep.partsTotal + 1 && ep.partNumber == i - 1 == |sent| && status == 0
      invariant i > 1 ==> ep.partsTotal <= 99999
      invariant sent == PacketsOf(file, emwinfname, date, |sent|)
      invariant forall k :: 0 <= k < i - 1 ==> fifo[k] == 0
    {
      status := ep.BuildPacket();
      if status == 0 {
        PacketOfShortName(file, emwinfname, date, i);
        status := fifo[i - 1];
      }
      if status != 0 {
        break;
      }
      sent := sent + [ep.packet[..]];
      i := i + 1;
    }
  }
}
