/** The receiving daemon: decoding one 1116-byte packet. */
module Receive {
  import opened Bytes
  import opened Header

  const PACKET_SIZE: nat := 1116
  const NULLPAD_SIZE: nat := 6
  const RAW_SIZE: nat := 1104
  const BLOCK_SIZE: nat := 1024

  // --------------------------------------------------------------- file names

  predicate IsAlnum(b: byte) {
    48 <= b <= 57 || 65 <= b <= 90 || 97 <= b <= 122
  }

  function ToLower(b: byte): byte {
    if 65 <= b <= 90 then b + 32 else b
  }

  function LowerAll(s: seq<byte>): (r: seq<byte>)
    ensures |r| == |s|
    ensures forall i :: 0 <= i < |s| ==> r[i] == ToLower(s[i])
  {
    seq(|s|, i requires 0 <= i < |s| => ToLower(s[i]))
  }

  /** Letters and digits but for a dot before the last three. */
  predicate ValidName(name: seq<byte>) {
    && 4 <= |name|
    && name[|name| - 4] == 46
    && forall i :: 0 <= i < |name| && i != |name| - 4 ==> IsAlnum(name[i])
  }

  const TXT: seq<byte> := [116, 120, 116]
  const TXT_CAPS: seq<byte> := [84, 88, 84]

  predicate IsTextFile(name: seq<byte>)
    requires 3 <= |name|
  {
    name[|name| - 3..] == TXT || name[|name| - 3..] == TXT_CAPS
  }

  // ------------------------------------------- what a packet should decode to

  datatype Received = Received(name: seq<byte>, blockno: int, numblocks: int, stamp: seq<byte>, data: seq<byte>)

  /** Bad carries the daemon's status: 2 header, 3 checksum, 4 file name. */
  datatype Decoded = Bad(status: int) | Good(packet: Received)

  function RawOf(packet: seq<byte>): (r: seq<byte>)
    requires |packet| == PACKET_SIZE
    ensures |r| == RAW_SIZE
  {
    packet[NULLPAD_SIZE..NULLPAD_SIZE + RAW_SIZE]
  }

  function StoredData(name: seq<byte>, block: seq<byte>): seq<byte>
    requires 3 <= |name|
  {
    if IsTextFile(name) then CString(block) else block
  }

  function DecodeRaw(raw: seq<byte>): (r: Decoded)
    requires |raw| == RAW_SIZE
  {
    var s := Scan(CString(raw));
    var block := raw[HEADER_SIZE..];
    if s.Mismatch? then Bad(2)
    else if s.value.sum != Sum(block) then Bad(3)
    else if !ValidName(s.value.name) then Bad(4)
    else
      var name := LowerAll(s.value.name);
      Good(Received(name, s.value.part, s.value.total, s.value.stamp, StoredData(name, block)))
  }

  function Decode(packet: seq<byte>): Decoded
    requires |packet| == PACKET_SIZE
  {
    DecodeRaw(RawOf(packet))
  }

  // --------------------------------------------------------------- the program

  /** struct emwin_packet */
  class EmwinPacket {
    const rawdata: array<byte>
    const bbdata: array<byte>
    var dataSize: nat
    var filename: seq<byte>
    var blockno: int
    var numblocks: int
    var checksum: int
    var dtstamp: seq<byte>

    ghost predicate Valid()
      reads this
    {
      rawdata.Length == PACKET_SIZE && bbdata.Length == PACKET_SIZE && rawdata != bbdata
    }

    constructor ()
      ensures Valid() && fresh(rawdata) && fresh(bbdata)
    {
      rawdata := new byte[PACKET_SIZE];
      bbdata := new byte[PACKET_SIZE];
      dataSize, filename, blockno, numblocks, checksum, dtstamp := 0, [], 0, 0, 0, [];
    }

    ghost function Contents(): Received
      requires Valid() && HEADER_SIZE + dataSize <= PACKET_SIZE
      reads this, rawdata
    {
      Received(filename, blockno, numblocks, dtstamp, rawdata[HEADER_SIZE..HEADER_SIZE + dataSize])
    }

    /** Compares the byte sum of the data with the header's number. */
    method Checksum() returns (status: int)
      requires Valid() && dataSize == BLOCK_SIZE
      ensures status == if checksum == Sum(rawdata[HEADER_SIZE..HEADER_SIZE + BLOCK_SIZE]) then 0 else 1
    {
      var c: int := 0;
      for i := 0 to dataSize
        invariant c == Sum(rawdata[HEADER_SIZE..HEADER_SIZE + i])
      {
        assert rawdata[HEADER_SIZE..HEADER_SIZE + i + 1][..i] == rawdata[HEADER_SIZE..HEADER_SIZE + i];
        c := c + rawdata[HEADER_SIZE + i];
      }
      return if checksum != c then 1 else 0;
    }

    /** Checks the file name and, when it is good, turns it to lower case. */
    method CheckFilename() returns (status: int)
      modifies this`filename
      ensures status == if ValidName(old(filename)) then 0 else 1
      ensures filename == if status == 0 then LowerAll(old(filename)) else old(filename)
    {
      status := 0;
      var namelen := |filename|;
      var rootnamelen := namelen - 4;
      if rootnamelen < 0 {
        return 1;
      }
      var i := 0;
      while i < rootnamelen
        invariant 0 <= i <= rootnamelen
        invariant forall j :: 0 <= j < i ==> IsAlnum(filename[j])
      {
        if !IsAlnum(filename[i]) {
          return 1;
        }
        i := i + 1;
      }
      if filename[rootnamelen] != 46 {
        return 1;
      }
      i := rootnamelen + 1;
      while i < namelen
        invariant rootnamelen + 1 <= i <= namelen
        invariant forall j :: rootnamelen < j < i ==> IsAlnum(filename[j])
      {
        if !IsAlnum(filename[i]) {
          return 1;
        }
        i := i + 1;
      }
      for k := 0 to namelen
        invariant |filename| == namelen
        invariant forall j :: 0 <= j < k ==> filename[j] == ToLower(old(filename)[j])
        invariant forall j :: k <= j < namelen ==> filename[j] == old(filename)[j]
      {
        filename := filename[k := ToLower(filename[k])];
      }
      assert filename == LowerAll(old(filename));
    }

    /** Drops the NUL fill of a text block. */
    method TrimText()
      requires Valid() && dataSize == BLOCK_SIZE
      modifies this`dataSize
      ensures dataSize <= BLOCK_SIZE
      ensures rawdata[HEADER_SIZE..HEADER_SIZE + dataSize] == CString(rawdata[HEADER_SIZE..HEADER_SIZE + BLOCK_SIZE])
    {
      ghost var block := rawdata[HEADER_SIZE..HEADER_SIZE + BLOCK_SIZE];
      var i := 0;
      while rawdata[HEADER_SIZE + i] != NUL && i < dataSize
        invariant 0 <= i <= BLOCK_SIZE
        invariant forall j :: 0 <= j < i ==> block[j] != NUL
        decreases BLOCK_SIZE - i
      {
        i := i + 1;
      }
      ghost var c := CString(block);
      assert |c| == i;
      dataSize := i;
    }

    /** The checks common to both feeds, on the header and data already in rawdata. */
    method Interpret() returns (status: int)
      requires Valid()
      modifies this
      ensures dataSize <= BLOCK_SIZE
      ensures match DecodeRaw(rawdata[..RAW_SIZE])
              case Bad(s) => status == s
              case Good(p) => status == 0 && Contents() == p
    {
      hide Scan, Sum, CString;
      dataSize := BLOCK_SIZE;
      ghost var raw := rawdata[..RAW_SIZE];
      assert raw[HEADER_SIZE..] == rawdata[HEADER_SIZE..HEADER_SIZE + BLOCK_SIZE];
      var scanned := Scan(CString(rawdata[..RAW_SIZE]));
      if scanned.Mismatch? {
        return 2;
      }
      var f := scanned.value;
      filename, blockno, numblocks, checksum, dtstamp := f.name, f.part, f.total, f.sum, f.stamp;
      var c := Checksum();
      if c != 0 {
        return 3;
      }
      c := CheckFilename();
      if c != 0 {
        return 4;
      }
      if IsTextFile(filename) {
        TrimText();
      }
      return 0;
    }

    /** A packet from a serial line, a fifo or a WX14: plain bytes, masked for retransmission. */
    method FillSerial(serialdata: array<byte>) returns (status: int)
      requires Valid() && serialdata.Length == PACKET_SIZE && serialdata != rawdata && serialdata != bbdata
      modifies this, rawdata, bbdata
      ensures bbdata[..] == MaskAll(serialdata[..]) && rawdata[..RAW_SIZE] == RawOf(serialdata[..])
      ensures dataSize <= BLOCK_SIZE
      ensures match Decode(serialdata[..])
              case Bad(s) => status == s
              case Good(p) => status == 0 && Contents() == p
    {
      hide DecodeRaw;
      for i := 0 to PACKET_SIZE
        modifies bbdata
        invariant forall j :: 0 <= j < i ==> bbdata[j] == Mask(serialdata[j])
      {
        bbdata[i] := Mask(serialdata[i]);
      }
      for i := 0 to RAW_SIZE
        modifies rawdata
        invariant forall j :: 0 <= j < i ==> rawdata[j] == serialdata[NULLPAD_SIZE + j]
      {
        rawdata[i] := serialdata[NULLPAD_SIZE + i];
      }
      assert rawdata[..RAW_SIZE] == RawOf(serialdata[..]);
      status := Interpret();
    }

    /** A packet from a network server: masked bytes, kept as they are for retransmission. */
    method FillBb(data: array<byte>) returns (status: int)
      requires Valid() && data.Length == PACKET_SIZE && data != rawdata && data != bbdata
      modifies this, rawdata, bbdata
      ensures bbdata[..] == data[..] && rawdata[..RAW_SIZE] == RawOf(MaskAll(data[..]))
      ensures dataSize <= BLOCK_SIZE
      ensures match Decode(MaskAll(data[..]))
              case Bad(s) => status == s
              case Good(p) => status == 0 && Contents() == p
    {
      hide DecodeRaw;
      CopyInto(bbdata, 0, data[..]);
      for i := 0 to RAW_SIZE
        modifies rawdata
        invariant forall j :: 0 <= j < i ==> rawdata[j] == Mask(data[NULLPAD_SIZE + j])
      {
        rawdata[i] := Mask(data[NULLPAD_SIZE + i]);
      }
      assert rawdata[..RAW_SIZE] == RawOf(MaskAll(data[..]));
      status := Interpret();
    }
  }
}
