/**
 The frames queued for retransmission: a four-byte size and either the packet as it came (V1) or the
 packet with its data block compressed and the compressed size in its header (V2).
 */
module FrameV2 {
  import opened Bytes
  import opened Header
  import opened Receive
  import DecodeBuilt

  const ENVELOPE_SIZE: nat := 4
  const QUEUE_PACKET_SIZE: nat := 1120
  const DL_TAG_START: nat := 69
  const DL: seq<byte> := [47, 68, 76]

  // ------------------------------------------------------------------ the envelope

  /** pack_uint32(): the most significant byte first. */
  function Pack(u: nat): (r: seq<byte>)
    ensures |r| == 4
  {
    [u / 16777216 % 256, u / 65536 % 256, u / 256 % 256, u % 256]
  }

  function Unpack(s: seq<byte>): nat
    requires |s| >= 4
  {
    s[0] as int * 16777216 + s[1] as int * 65536 + s[2] as int * 256 + s[3] as int
  }

  lemma UnpackPack(u: nat)
    requires u < 0x1_0000_0000
    ensures Unpack(Pack(u)) == u
  {
    var a, b, c := u / 256, u / 65536, u / 16777216;
    assert u == 256 * a + u % 256;
    assert a == 256 * b + a % 256;
    assert b == 256 * c + b % 256;
    assert c % 256 == c;
  }

  function Envelope(payload: seq<byte>): seq<byte> {
    Pack(|payload|) + payload
  }

  // -------------------------------------------------------------------- V2 frames

  /** "/DL<size>" and a blank written over a header at column 69. */
  function TagHeader(header: seq<byte>, size: nat): seq<byte>
    requires |header| == HEADER_SIZE && |Decimal(size)| <= 7
  {
    header[..DL_TAG_START] + DL + Decimal(size) + [SPACE] + header[DL_TAG_START + 4 + |Decimal(size)|..]
  }

  /** raw1_to_raw2() on success: the tagged header and the compressed block. */
  function Raw2(raw: seq<byte>, compressed: seq<byte>): seq<byte>
    requires |raw| == RAW_SIZE && |Decimal(|compressed|)| <= 7
  {
    TagHeader(raw[..HEADER_SIZE], |compressed|) + compressed
  }

  lemma SmallSize(n: nat)
    requires n <= 1030
    ensures |Decimal(n)| <= 4
  {
    DecimalWidth(n, 4);
    assert Pow10(2) == 100 && Pow10(4) == 10000;
  }

  /** The V2 frame, when the block compresses into the room there is. */
  function FrameOf(raw: seq<byte>, compressed: seq<byte>): seq<byte>
    requires |raw| == RAW_SIZE && |compressed| <= 1030
  {
    SmallSize(|compressed|);
    Envelope(MaskAll(Zeros(6) + Raw2(raw, compressed)))
  }

  /** Whether a packet is worth sending compressed. */
  predicate UseV2(raw: seq<byte>, compressed: Option<seq<byte>>, v1Only: bool, minRatio: int) {
    && !v1Only
    && compressed.Some? && |compressed.value| <= 1030
    && 100 * (HEADER_SIZE + |compressed.value|) / RAW_SIZE < minRatio
  }

  /** The frame queued for V2 clients; `compressed` is what zlib made of the data block. */
  function QueueV2(raw: seq<byte>, bb: seq<byte>, compressed: Option<seq<byte>>, v1Only: bool, minRatio: int): seq<byte>
    requires |raw| == RAW_SIZE
  {
    if UseV2(raw, compressed, v1Only, minRatio) then FrameOf(raw, compressed.value) else Envelope(bb)
  }

  // --------------------------------------------------------- what a V2 frame means

  /** How a V2 client reads a frame: size, unmasked header, unmasked block. */
  datatype Opened = Opened(size: nat, nulls: seq<byte>, header: seq<byte>, block: seq<byte>)

  function Open(frame: seq<byte>): Opened
    requires |frame| >= 90
  {
    var p := MaskAll(frame[ENVELOPE_SIZE..]);
    Opened(Unpack(frame), p[..6], p[6..86], p[86..])
  }

  /** Opening undoes building. */
  lemma OpenFrame(raw: seq<byte>, compressed: seq<byte>)
    requires |raw| == RAW_SIZE && |compressed| <= 1030
    ensures var f := FrameOf(raw, compressed);
            && 90 <= |f| <= QUEUE_PACKET_SIZE
            && Unpack(f) == |f| - ENVELOPE_SIZE
            && |Decimal(|compressed|)| <= 7
            && Open(f) == Opened(|f| - ENVELOPE_SIZE, Zeros(6), TagHeader(raw[..HEADER_SIZE], |compressed|), compressed)
  {
    SmallSize(|compressed|);
    var h := TagHeader(raw[..HEADER_SIZE], |compressed|);
    assert |h| == HEADER_SIZE;
    hide Decimal, Unpack, Pack, TagHeader;
    var p := Zeros(6) + (h + compressed);
    var f := FrameOf(raw, compressed);
    EnvelopeSize(MaskAll(p));
    assert f[ENVELOPE_SIZE..] == MaskAll(p);
    MaskTwice(p);
    UnpackOfEnvelope(MaskAll(p));
    Thirds(Zeros(6), h, compressed);
  }

  lemma Thirds(a: seq<byte>, b: seq<byte>, c: seq<byte>)
    ensures var p := a + (b + c); p[..|a|] == a && p[|a|..|a| + |b|] == b && p[|a| + |b|..] == c
  {
  }

  lemma UnpackOfEnvelope(payload: seq<byte>)
    requires |payload| < 0x1_0000_0000
    ensures Unpack(Envelope(payload)) == |payload|
  {
    UnpackPack(|payload|);
    var e, k := Envelope(payload), Pack(|payload|);
    assert e[0] == k[0] && e[1] == k[1] && e[2] == k[2] && e[3] == k[3];
  }

  /** The tag reads back as the size. */
  lemma TagReadsBack(header: seq<byte>, size: nat)
    requires |header| == HEADER_SIZE && |Decimal(size)| <= 7
    ensures var h := TagHeader(header, size);
            |h| == HEADER_SIZE && h[69..72] == DL && ScanInt(h, 72) == Match(size, 72 + |Decimal(size)|)
  {
    hide Decimal;
    var h, d := TagHeader(header, size), Decimal(size);
    assert h[69..72] == DL;
    assert forall i :: 72 <= i < 72 + |d| ==> h[i] == d[i - 72];
    assert IsDigit(h[72]) by { assert h[72] == d[0]; }
    assert h[72 + |d|] == SPACE;
    SkipSpaceIs(h, 72, 72);
    DigitsEndIs(h, 72, 72 + |d|);
    assert h[72..72 + |d|] == d;
    ValueOfDecimal(size);
  }

  /** Before column 69 the two headers are the same. */
  lemma TagIsLocal(raw: seq<byte>, compressed: seq<byte>)
    requires |raw| == RAW_SIZE && |Decimal(|compressed|)| <= 7
    ensures |Raw2(raw, compressed)| >= 69 && Raw2(raw, compressed)[..69] == raw[..69]
  {
    hide Decimal;
    assert raw[..HEADER_SIZE][..69] == raw[..69];
  }

  /** The tag leaves the first e columns as they were. */
  ghost predicate Spared(raw: seq<byte>, compressed: seq<byte>, e: nat)
    requires |raw| == RAW_SIZE && |Decimal(|compressed|)| <= 7
  {
    var raw2 := Raw2(raw, compressed);
    e <= DL_TAG_START || (e <= |raw| && e <= |raw2| && raw2[DL_TAG_START..e] == raw[DL_TAG_START..e])
  }

  /** A header whose fields lie in columns that the tag leaves alone keeps them in the V2 frame. */
  lemma SameFields(raw: seq<byte>, compressed: seq<byte>)
    requires |raw| == RAW_SIZE && |Decimal(|compressed|)| <= 7
    requires Scan(CString(raw)).Match? && Spared(raw, compressed, Scan(CString(raw)).next)
    ensures Scan(CString(Raw2(raw, compressed))) == Scan(CString(raw))
  {
    hide Scan, Decimal, Raw2, CString;
    var s := CString(raw);
    var e := Scan(s).next;
    var raw2 := Raw2(raw, compressed);
    TagIsLocal(raw, compressed);
    assert s[..e] == raw[..e];
    assert raw2[..e] == raw[..e] by {
      if e <= 69 {
        assert raw2[..e] == raw2[..69][..e] == raw[..69][..e] == raw[..e];
      } else {
        assert raw2[..e] == raw2[..69] + raw2[69..e] == raw[..69] + raw[69..e];
      }
    }
    assert NUL !in raw2[..e];
    CStringPrefix(raw2, e);
    AgreeSlices(s, CString(raw2), e);
    ScanLocal(s, CString(raw2));
  }

  /** Headers whose fields the tag can be told to spare or not: no slash in the name, or a stamp that begins early. */
  ghost predicate Telling(scanned: Scanned<Fields>) {
    scanned.Match? && (SLASH !in scanned.value.name || scanned.next <= DL_TAG_START + STAMP_SIZE)
  }

  /** In a V2 frame the stamp of a header with no slash in its name begins by column 69. */
  lemma StampBeginsEarly(raw: seq<byte>, compressed: seq<byte>)
    requires |raw| == RAW_SIZE && |Decimal(|compressed|)| <= 7
    requires var r := Scan(CString(Raw2(raw, compressed))); r.Match? && SLASH !in r.value.name
    ensures Scan(CString(Raw2(raw, compressed))).next <= DL_TAG_START + STAMP_SIZE
  {
    hide Scan, CString, Decimal;
    var t := CString(Raw2(raw, compressed));
    SlashesOfScan(t);
    assert |t| > 70 ==> t[69] == SLASH && t[70] == 68;
  }

  /**
   The fields survive exactly when the tag leaves their columns alone. For a name without a slash, as
   every packet has that is sent on, that can only be when the stamp begins by column 69.
   */
  lemma SameFieldsIff(raw: seq<byte>, compressed: seq<byte>)
    requires |raw| == RAW_SIZE && |Decimal(|compressed|)| <= 7 && Telling(Scan(CString(raw)))
    ensures Scan(CString(Raw2(raw, compressed))) == Scan(CString(raw))
            <==> Spared(raw, compressed, Scan(CString(raw)).next)
    ensures Spared(raw, compressed, Scan(CString(raw)).next) ==> Scan(CString(raw)).next <= DL_TAG_START + STAMP_SIZE
  {
    hide Scan, Decimal, Raw2, CString, Spared;
    var s, t := CString(raw), CString(Raw2(raw, compressed));
    var e := Scan(s).next;
    if Spared(raw, compressed, e) { SameFields(raw, compressed); }
    if Scan(t) == Scan(s) {
      if SLASH !in Scan(s).value.name { StampBeginsEarly(raw, compressed); }
      SparedColumns(raw, compressed);
    }
  }

  lemma SparedColumns(raw: seq<byte>, compressed: seq<byte>)
    requires |raw| == RAW_SIZE && |Decimal(|compressed|)| <= 7
    requires Scan(CString(raw)).Match? && Scan(CString(raw)).next <= DL_TAG_START + STAMP_SIZE
    requires Scan(CString(Raw2(raw, compressed))) == Scan(CString(raw))
    ensures Spared(raw, compressed, Scan(CString(raw)).next)
  {
    hide Scan, Decimal, Raw2, CString;
    var s, t := CString(raw), CString(Raw2(raw, compressed));
    var e := Scan(s).next;
    ScanEnds(s);
    ScanEnds(t);
    if e > DL_TAG_START {
      SameEnds(s, t, e - STAMP_SIZE, DL_TAG_START, e);
      assert s[DL_TAG_START..e] == raw[DL_TAG_START..e];
      assert t[DL_TAG_START..e] == Raw2(raw, compressed)[DL_TAG_START..e];
    }
  }

  /** A packet that decodes has no slash in its name. */
  lemma GoodIsTelling(raw: seq<byte>)
    requires |raw| == RAW_SIZE && DecodeRaw(raw).Good?
    ensures Telling(Scan(CString(raw)))
  {
    hide Scan, CString, Sum, StoredData;
  }

  lemma SameEnds(s: seq<byte>, t: seq<byte>, from: nat, a: nat, e: nat)
    requires from <= a <= e <= |s| && e <= |t| && s[from..e] == t[from..e]
    ensures s[a..e] == t[a..e]
  {
    SubSlice(s, from, e, a - from, e - from);
    SubSlice(t, from, e, a - from, e - from);
  }

  /**
   A header with two more blanks or more after its checksum: its stamp reaches over column 69 or begins
   after it, and unless the stamp has a slash in that column the V2 frame shows other fields.
   */
  lemma LateStampChanges(raw: seq<byte>, name: seq<byte>, part: nat, total: nat, sum: nat, w: nat, stamp: seq<byte>,
                         compressed: seq<byte>)
    requires |raw| == RAW_SIZE && |Decimal(|compressed|)| <= 7 && PrintableName(name) && |stamp| == STAMP_SIZE
    requires |Decimal(part)| <= 5 && |Decimal(total)| <= 5 && |Decimal(sum)| <= w && 8 <= w
    requires Columns(raw, name, part, total, sum, w, stamp) && NUL !in raw[..62 + w]
    requires if w <= 29 then stamp[29 - w] != SLASH else SLASH !in name
    ensures Scan(CString(raw)).Match? && Scan(CString(Raw2(raw, compressed))) != Scan(CString(raw))
  {
    hide Scan, Decimal, CString, Columns, Spared, Raw2, PrintableName;
    LateStampScans(raw, name, part, total, sum, w, stamp);
    SameFieldsIff(raw, compressed);
    if w <= 29 {
      StampAt69(raw, name, part, total, sum, w, stamp);
      NotSpared(raw, compressed, 62 + w);
    }
  }

  lemma LateStampScans(raw: seq<byte>, name: seq<byte>, part: nat, total: nat, sum: nat, w: nat, stamp: seq<byte>)
    requires PrintableName(name) && |stamp| == STAMP_SIZE
    requires |Decimal(part)| <= 5 && |Decimal(total)| <= 5 && |Decimal(sum)| <= w
    requires Columns(raw, name, part, total, sum, w, stamp) && NUL !in raw[..62 + w]
    ensures Scan(CString(raw)) == Match(Fields(name, part, total, sum, stamp), 62 + w)
  {
    assert 62 + w <= |raw|;
    hide Scan, Decimal, CString, Columns, PrintableName;
    CStringPrefix(raw, 62 + w);
    ColumnsOfPrefix(raw, CString(raw), name, part, total, sum, w, stamp);
    ScanColumns(CString(raw), name, part, total, sum, w, stamp);
  }

  lemma StampAt69(raw: seq<byte>, name: seq<byte>, part: nat, total: nat, sum: nat, w: nat, stamp: seq<byte>)
    requires Columns(raw, name, part, total, sum, w, stamp) && |stamp| == STAMP_SIZE && 8 <= w <= 29
    ensures |raw| > 69 && raw[69] == stamp[29 - w]
  {
    hide PrintInt, PrintName;
    assert raw[37 + w..62 + w][32 - w] == (FD + stamp)[32 - w];
  }

  lemma NotSpared(raw: seq<byte>, compressed: seq<byte>, e: nat)
    requires |raw| == RAW_SIZE && |Decimal(|compressed|)| <= 7 && e > DL_TAG_START && raw[69] != 47
    ensures !Spared(raw, compressed, e)
  {
    hide Decimal;
    var raw2 := Raw2(raw, compressed);
    assert raw2[69] == 47;
    assert e <= |raw| && e <= |raw2| ==> raw2[69..e][0] == 47 && raw[69..e][0] == raw[69];
  }

  lemma ColumnsOfPrefix(raw: seq<byte>, s: seq<byte>, name: seq<byte>, part: nat, total: nat, sum: nat, w: nat,
                        stamp: seq<byte>)
    requires Columns(raw, name, part, total, sum, w, stamp) && s <= raw && 62 + w <= |s|
    ensures Columns(s, name, part, total, sum, w, stamp)
  {
    hide PrintInt, PrintName;
    assert forall a, b :: 0 <= a <= b <= |s| ==> s[a..b] == raw[a..b];
  }

  lemma AgreeSlices(s: seq<byte>, t: seq<byte>, e: nat)
    requires e <= |s| && e <= |t| && s[..e] == t[..e]
    ensures Agree(s, t, e)
  {
    assert forall i :: 0 <= i < e ==> s[i] == s[..e][i] && t[i] == t[..e][i];
  }

  /** An opened frame carries a packet's data block and says its compressed size. */
  ghost predicate Carries(o: Opened, raw: seq<byte>, uncompress: seq<byte> -> Option<seq<byte>>)
    requires |raw| == RAW_SIZE
  {
    && o.nulls == Zeros(6)
    && uncompress(o.block) == Some(raw[HEADER_SIZE..])
    && |o.header| == HEADER_SIZE && o.header[69..72] == DL
    && ScanInt(o.header, 72).Match? && ScanInt(o.header, 72).value == |o.block|
  }

  /**
   V2 preserves meaning. Whatever zlib is, as long as uncompress undoes compress: the frame is at most
   1120 bytes with its size in front, and either it is the V1 frame or, opened, it gives the original data
   block and the compressed size as its /DL number. For a packet that decodes, as all that are sent on do,
   it gives the same header fields if and only if their stamp begins by column 69 and the tag leaves
   their columns alone.
   */
  lemma V2PreservesMeaning(raw: seq<byte>, bb: seq<byte>, v1Only: bool, minRatio: int,
                           compress: seq<byte> -> Option<seq<byte>>, uncompress: seq<byte> -> Option<seq<byte>>)
    requires |raw| == RAW_SIZE && |bb| == PACKET_SIZE
    requires forall b :: compress(b).Some? ==> uncompress(compress(b).value) == Some(b)
    ensures var c := compress(raw[HEADER_SIZE..]);
            var f := QueueV2(raw, bb, c, v1Only, minRatio);
            && 90 <= |f| <= QUEUE_PACKET_SIZE && Unpack(f) == |f| - ENVELOPE_SIZE
            && (!UseV2(raw, c, v1Only, minRatio) ==> f == Envelope(bb))
            && (UseV2(raw, c, v1Only, minRatio) ==>
                  && Carries(Open(f), raw, uncompress)
                  && |Decimal(|c.value|)| <= 7 && FieldsPass(raw, c.value, Open(f)))
  {
    hide Scan, CString, Decimal, ScanInt, FrameOf, Open, TagHeader, Envelope, Unpack, Spared, DecodeRaw;
    var c := compress(raw[HEADER_SIZE..]);
    if UseV2(raw, c, v1Only, minRatio) {
      SmallSize(|c.value|);
      OpenFrame(raw, c.value);
      if Scan(CString(raw)).Match? && Spared(raw, c.value, Scan(CString(raw)).next) { SameFields(raw, c.value); }
      if DecodeRaw(raw).Good? {
        GoodIsTelling(raw);
        SameFieldsIff(raw, c.value);
      }
      TagReadsBack(raw[..HEADER_SIZE], |c.value|);
    } else {
      UnpackOfEnvelope(bb);
      EnvelopeSize(bb);
    }
  }

  /** When the fields read from an opened frame are those of the packet. */
  ghost predicate FieldsPass(raw: seq<byte>, compressed: seq<byte>, o: Opened)
    requires |raw| == RAW_SIZE && |Decimal(|compressed|)| <= 7
  {
    var was, now := Scan(CString(raw)), Scan(CString(o.header + o.block));
    && (was.Match? && Spared(raw, compressed, was.next) ==> now == was)
    && (DecodeRaw(raw).Good? ==>
          && was.Match?
          && (now == was <==> was.next <= DL_TAG_START + STAMP_SIZE && Spared(raw, compressed, was.next)))
  }

  /** Headers in the standard layout keep their fields: they end at column 68. */
  lemma StandardLayout(name: seq<byte>, part: nat, total: nat, sum: nat, stamp: seq<byte>, block: seq<byte>)
    requires PrintableName(name) && |stamp| == STAMP_SIZE && NUL !in name && NUL !in stamp
    requires part <= 99999 && total <= 99999 && sum <= 999999
    ensures var raw := Print(name, part, total, sum, stamp) + block;
            Scan(CString(raw)).Match? && Scan(CString(raw)).next <= DL_TAG_START
  {
    hide Print, Scan, CString;
    var h := Print(name, part, total, sum, stamp);
    var raw := h + block;
    PrintedSize(name, part, total, sum, stamp);
    DecodeBuilt.NoNulInPrint(name, part, total, sum, stamp);
    CStringPrefix(raw, HEADER_SIZE) by { assert raw[..HEADER_SIZE] == h; }
    var c := CString(raw);
    assert c == h + c[HEADER_SIZE..];
    ScanPrinted(name, part, total, sum, stamp, c[HEADER_SIZE..]);
  }

  lemma EnvelopeSize(payload: seq<byte>)
    ensures |Envelope(payload)| == 4 + |payload|
  {
  }

  // --------------------------------------------------------------------- the program

  /** The xor loop over the frame's payload. */
  method MaskRange(queue: array<byte>, from: nat, to: nat)
    requires from <= to <= queue.Length
    modifies queue
    ensures queue[..] == old(queue[..from]) + MaskAll(old(queue[from..to])) + old(queue[to..])
  {
    for i := from to to
      invariant forall j :: from <= j < i ==> queue[j] == Mask(old(queue[j]))
      invariant forall j :: 0 <= j < queue.Length && !(from <= j < i) ==> queue[j] == old(queue[j])
    {
      queue[i] := Mask(queue[i]);
    }
  }

  function Spliced(q: seq<byte>, at: nat, s: seq<byte>): seq<byte>
    requires at + |s| <= |q|
  {
    q[..at] + s + q[at + |s|..]
  }

  /** Writing block, header and tag in turn gives the tagged header followed by the block. */
  lemma SpliceRaw2(q: seq<byte>, header: seq<byte>, tag: seq<byte>, block: seq<byte>)
    requires |q| == QUEUE_PACKET_SIZE && |header| == HEADER_SIZE && |tag| <= 11 && |block| <= 1030
    ensures var r := Spliced(Spliced(Spliced(q, 90, block), 10, header), 79, tag);
            && |r| == |q| && r[..10] == q[..10]
            && r[10..90 + |block|] == header[..69] + tag + header[69 + |tag|..] + block
  {
    var a := Spliced(q, 90, block);
    var b := Spliced(a, 10, header);
    assert b == q[..10] + header + block + q[90 + |block|..];
    var r := Spliced(b, 79, tag);
    assert r == q[..10] + (header[..69] + tag + header[69 + |tag|..] + block) + q[90 + |block|..];
  }

  /**
   raw1_to_raw2(), writing from queue[10] on. `compressed` is the result of zlib on the data block.
   Status 1: no compressed block, or one too large for the frame; 2: no room for the tag.
   */
  method Raw1ToRaw2(queue: array<byte>, raw: seq<byte>, compressed: Option<seq<byte>>) returns (status: int, size: nat)
    requires queue.Length == QUEUE_PACKET_SIZE && |raw| == RAW_SIZE
    modifies queue
    ensures status == if compressed.Some? && |compressed.value| <= 1030 then 0 else 1
    ensures queue[..10] == old(queue[..10])
    ensures status == 0 ==>
      && |Decimal(|compressed.value|)| <= 4
      && size == HEADER_SIZE + |compressed.value| && queue[10..10 + size] == Raw2(raw, compressed.value)
  {
    hide Decimal;
    size := 0;
    if compressed.None? {
      return 1, 0;
    }
    var block := compressed.value;
    if |block| > 1030 {
      return 1, 0;
    }
    SmallSize(|block|);
    var tag := DL + Decimal(|block|) + [SPACE];
    if |tag| - 1 >= HEADER_SIZE - DL_TAG_START {
      status := 2;
      return;
    }
    SpliceRaw2(queue[..], raw[..HEADER_SIZE], tag, block);
    CopyInto(queue, 90, block);
    CopyInto(queue, 10, raw[..HEADER_SIZE]);
    CopyInto(queue, 10 + DL_TAG_START, tag);
    return 0, HEADER_SIZE + |block|;
  }

  lemma FrontReplaced(q: seq<byte>, q': seq<byte>, front: seq<byte>, end: nat)
    requires |front| == 4 <= end <= |q| && q' == front + q[4..]
    ensures |q'| == |q| && q'[4..end] == q[4..end]
  {
    SubSlice(q, 4, |q|, 0, end - 4);
    SubSlice(q', 4, |q'|, 0, end - 4);
    assert q'[4..] == q[4..];
  }

  lemma RawInPlace(q: seq<byte>, raw2: seq<byte>)
    requires |q| >= 10 + |raw2| && q[..10] == Zeros(10) && q[10..10 + |raw2|] == raw2
    ensures q[4..10 + |raw2|] == Zeros(6) + raw2
  {
    assert q[4..10] == q[..10][4..10];
    assert q[4..10 + |raw2|] == q[4..10] + q[10..10 + |raw2|];
  }

  lemma Masked(q: seq<byte>, q': seq<byte>, end: nat)
    requires 4 <= end <= |q| && q' == q[..4] + MaskAll(q[4..end]) + q[end..]
    ensures |q'| == |q| && q'[..end] == q[..4] + MaskAll(q[4..end])
  {
  }

  /** build_queue_data_v2() */
  method BuildQueueDataV2(queue: array<byte>, raw: seq<byte>, compressed: Option<seq<byte>>)
    returns (status: int, size: nat, ratio: int)
    requires queue.Length == QUEUE_PACKET_SIZE && |raw| == RAW_SIZE
    modifies queue
    ensures status == if compressed.Some? && |compressed.value| <= 1030 then 0 else 1
    ensures status == 0 ==>
      && size == 90 + |compressed.value| && queue[..size] == FrameOf(raw, compressed.value)
      && ratio == 100 * (HEADER_SIZE + |compressed.value|) / RAW_SIZE
  {
    hide Pack, Raw2;
    ClearAll(queue, 10);
    var rawSize;
    status, rawSize := Raw1ToRaw2(queue, raw, compressed);
    if status != 0 {
      return status, 0, 0;
    }
    ghost var raw2 := Raw2(raw, compressed.value);
    assert queue[..10] == Zeros(10);
    RawInPlace(queue[..], raw2);
    var bbSize := rawSize + 6;
    ghost var zeroed := queue[..];
    CopyInto(queue, 0, Pack(bbSize));
    ghost var packed := queue[..];
    FrontReplaced(zeroed, packed, Pack(bbSize), 4 + bbSize);
    MaskRange(queue, ENVELOPE_SIZE, ENVELOPE_SIZE + bbSize);
    Masked(packed, queue[..], 4 + bbSize);
    size := bbSize + ENVELOPE_SIZE;
    ratio := 100 * rawSize / RAW_SIZE;
    assert packed[..4] == Pack(bbSize);
    assert queue[..size] == queue[..][..size];
  }

  /** The queue frames of a packet: the V1 frame always, and the V2 frame or its V1 fallback. */
  method FormFrames(raw: seq<byte>, bb: seq<byte>, compressed: Option<seq<byte>>, v1Only: bool, minRatio: int)
    returns (v1: seq<byte>, v2: seq<byte>)
    requires |raw| == RAW_SIZE && |bb| == PACKET_SIZE
    ensures v1 == Envelope(bb)
    ensures v2 == QueueV2(raw, bb, compressed, v1Only, minRatio)
  {
    hide FrameOf;
    v1 := Pack(|bb|) + bb;
    var queue := new byte[QUEUE_PACKET_SIZE];
    if v1Only {
      return v1, v1;
    }
    var status, size, ratio := BuildQueueDataV2(queue, raw, compressed);
    if status != 0 || ratio >= minRatio {
      return v1, v1;
    }
    v2 := queue[..size];
  }
}
