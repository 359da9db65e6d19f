/** A packet built by npemwininsert decodes to the part it was built from. */
module DecodeBuilt {
  import opened Bytes
  import opened Header
  import opened Insert
  import opened Receive

  /** The name a product is spooled under. */
  function SpoolName(name: seq<byte>): seq<byte> {
    LowerAll(if |name| < FNAME_SIZE then name else name[..FNAME_SIZE])
  }

  /** What the receiver stores of part k. */
  function StoredPart(file: seq<byte>, name: seq<byte>, k: nat): seq<byte>
    requires 1 <= k <= PartsTotal(|file|) && ValidName(SpoolName(name))
  {
    var data := PartData(file, k);
    if IsTextFile(SpoolName(name)) then CString(data) else data + Zeros(DATA_SIZE - |data|)
  }

  lemma NameCase(name: seq<byte>)
    requires ValidName(SpoolName(name))
    ensures LowerAll(HeaderName(name)) == SpoolName(name)
    ensures ValidName(HeaderName(name)) && PrintableName(HeaderName(name)) && NUL !in HeaderName(name)
  {
    var n := SpoolName(name);
    var h := HeaderName(name);
    assert forall i :: 0 <= i < |h| && i != |h| - 4 ==> IsAlnum(n[i]) && ToLower(h[i]) == n[i];
    assert LowerAll(h) == n;
  }

  lemma {:induction false} CStringZeroFill(s: seq<byte>, n: nat)
    ensures CString(s + Zeros(n)) == CString(s)
  {
    var c := CString(s);
    var d := CString(s + Zeros(n));
    var t := s + Zeros(n);
    assert forall i :: 0 <= i < |c| ==> t[i] == s[i] == c[i];
    CStringPrefix(t, |c|) by { assert t[..|c|] == c; }
    assert forall i :: 0 <= i < |d| ==> d[i] == t[i] && d[i] in d;
    assert |c| < |t| ==> t[|c|] == NUL;
    assert |d| == |c|;
    assert d[..|c|] == d;
    assert t[..|c|] == c;
  }

  lemma RawOfFrame(header: seq<byte>, data: seq<byte>)
    requires |header| == HEADER_SIZE && |data| <= DATA_SIZE
    ensures |Frame(header, data)| == Receive.PACKET_SIZE
    ensures RawOf(Frame(header, data)) == header + (data + Zeros(DATA_SIZE - |data|))
  {
    var f := Frame(header, data);
    assert f == Zeros(6) + (header + (data + Zeros(DATA_SIZE - |data|))) + Zeros(6);
  }

  lemma NoNulInPrint(name: seq<byte>, part: nat, total: nat, sum: nat, stamp: seq<byte>)
    requires NUL !in name && NUL !in stamp
    ensures NUL !in Print(name, part, total, sum, stamp)
  {
    assert forall n: nat, i :: 0 <= i < |Decimal(n)| ==> IsDigit(Decimal(n)[i]);
    assert forall n: nat :: NUL !in Decimal(n);
    assert NUL !in PrintName(name) && NUL !in PrintStamp(stamp);
    assert NUL !in PrintInt(PN, part, 5) && NUL !in PrintInt(PT, total, 5) && NUL !in PrintInt(CS, sum, 6);
  }

  /** Every part of a file of at most 99999 parts is accepted, with its name, numbers and bytes. */
  lemma DecodePacket(file: seq<byte>, name: seq<byte>, date: seq<byte>, k: nat)
    requires 1 <= k <= PartsTotal(|file|) <= 99999
    requires |date| == STAMP_SIZE && NUL !in date && ValidName(SpoolName(name))
    ensures |PacketOf(file, name, date, k)| == Receive.PACKET_SIZE
    ensures Decode(PacketOf(file, name, date, k))
            == Good(Received(SpoolName(name), k, PartsTotal(|file|), date, StoredPart(file, name, k)))
  {
    hide Print, Scan, CString, Sum;
    NameCase(name);
    PartSizes(file, k);
    var data := PartData(file, k);
    var block := data + Zeros(DATA_SIZE - |data|);
    var h, total, sum := HeaderName(name), PartsTotal(|file|), Sum(data);
    SumBound(data);
    var header := Print(h, k, total, sum, date);
    PrintedSize(h, k, total, sum, date);
    RawOfFrame(header, data);
    NoNulInPrint(h, k, total, sum, date);
    var raw := header + block;
    CStringPrefix(raw, HEADER_SIZE) by { assert raw[..HEADER_SIZE] == header; }
    var c := CString(raw);
    assert c == header + c[HEADER_SIZE..];
    ScanPrinted(h, k, total, sum, date, c[HEADER_SIZE..]);
    assert raw[HEADER_SIZE..] == block;
    SumZeroFill(data, DATA_SIZE - |data|);
    CStringZeroFill(data, DATA_SIZE - |data|);
  }
}
