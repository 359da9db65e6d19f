/**
 The 80-byte text header of a packet: the printer used by npemwininsert
 (format "/PF%-12s/PN %-5d/PT %-5d/CS %-6d/FD%s%s") and the scanner used by the
 daemon (format "/PF%12s /PN %d /PT %d /CS %d /FD%22c").
 */
module Header {
  import opened Bytes

  const HEADER_SIZE: nat := 80
  const FNAME_SIZE: nat := 12
  const STAMP_SIZE: nat := 22

  const SPACE: byte := 32
  const PN: seq<byte> := [47, 80, 78]        // "/PN"
  const PT: seq<byte> := [47, 80, 84]        // "/PT"
  const CS: seq<byte> := [47, 67, 83]        // "/CS"
  const FD: seq<byte> := [47, 70, 68]        // "/FD"
  const CRLF: seq<byte> := [13, 10]

  // ---------------------------------------------------------------- decimals

  predicate IsDigit(b: byte) {
    48 <= b <= 57
  }

  predicate IsSpace(b: byte) {
    b == SPACE || 9 <= b <= 13
  }

  /** "%d" of a non-negative number. */
  function Decimal(n: nat): (r: seq<byte>)
    ensures 0 < |r|
    ensures forall i :: 0 <= i < |r| ==> IsDigit(r[i])
  {
    if n < 10 then [48 + n] else Decimal(n / 10) + [48 + n % 10]
  }

  /** The value of a string of digits. */
  function Value(s: seq<byte>): nat
    requires forall i :: 0 <= i < |s| ==> IsDigit(s[i])
  {
    if s == [] then 0 else assert IsDigit(s[|s| - 1]); 10 * Value(s[..|s| - 1]) + (s[|s| - 1] as int - 48)
  }

  lemma {:induction false} ValueOfDecimal(n: nat)
    ensures Value(Decimal(n)) == n
  {
    if n >= 10 {
      ValueOfDecimal(n / 10);
      assert Decimal(n)[..|Decimal(n)| - 1] == Decimal(n / 10);
    } else {
      assert Decimal(n)[..0] == [];
    }
  }

  function Pow10(k: nat): (r: nat)
    ensures r >= 1
  {
    if k == 0 then 1 else 10 * Pow10(k - 1)
  }

  /** A number fits in k columns exactly when it is below 10^k. */
  lemma {:induction false} DecimalWidth(n: nat, k: nat)
    requires k > 0
    ensures |Decimal(n)| <= k <==> n < Pow10(k)
  {
    if k == 1 {
      assert Pow10(1) == 10 * Pow10(0);
    } else if n >= 10 {
      DecimalWidth(n / 10, k - 1);
      assert Pow10(k) == 10 * Pow10(k - 1);
    } else {
      assert Pow10(k) == 10 * Pow10(k - 1);
      assert Pow10(k - 1) == 10 * Pow10(k - 2);
    }
  }

  // ----------------------------------------------------------------- printer

  /** "%-<w>s" */
  function PadRight(s: seq<byte>, w: nat): (r: seq<byte>)
    ensures |r| == if |s| < w then w else |s|
  {
    if |s| < w then s + Fill(SPACE, w - |s|) else s
  }

  /** "/XY %-<w>d" */
  function PrintInt(tag: seq<byte>, n: nat, w: nat): seq<byte> {
    tag + [SPACE] + PadRight(Decimal(n), w)
  }

  function PrintName(name: seq<byte>): seq<byte> {
    PF + PadRight(name, FNAME_SIZE)
  }

  function PrintStamp(stamp: seq<byte>): seq<byte> {
    FD + stamp + Fill(SPACE, 10) + CRLF
  }

  function Print(name: seq<byte>, part: nat, total: nat, sum: nat, stamp: seq<byte>): seq<byte> {
    PrintName(name) + PrintInt(PN, part, 5) + PrintInt(PT, total, 5) + PrintInt(CS, sum, 6)
    + PrintStamp(stamp)
  }

  lemma ColumnsFit(part: nat, total: nat, sum: nat)
    ensures |Decimal(part)| <= 5 <==> part <= 99999
    ensures |Decimal(total)| <= 5 <==> total <= 99999
    ensures |Decimal(sum)| <= 6 <==> sum <= 999999
  {
    DecimalWidth(part, 5);
    DecimalWidth(total, 5);
    DecimalWidth(sum, 6);
    assert Pow10(2) == 100;
    assert Pow10(4) == 10000;
    assert Pow10(6) == 1000000;
  }

  /** The printed header has its 80 bytes exactly when every number fits its columns. */
  lemma PrintedSize(name: seq<byte>, part: nat, total: nat, sum: nat, stamp: seq<byte>)
    requires |name| <= FNAME_SIZE && |stamp| == STAMP_SIZE
    ensures |Print(name, part, total, sum, stamp)| == HEADER_SIZE
            <==> part <= 99999 && total <= 99999 && sum <= 999999
  {
    ColumnsFit(part, total, sum);
  }

  // ----------------------------------------------------------------- scanner
  //
  // Each conversion takes the string and a position and gives the position after it.

  datatype Fields = Fields(name: seq<byte>, part: int, total: int, sum: int, stamp: seq<byte>)

  datatype Scanned<+T> = Mismatch | Match(value: T, next: nat)

  function SkipSpace(s: seq<byte>, p: nat): (q: nat)
    requires p <= |s|
    ensures p <= q <= |s|
    ensures forall i :: p <= i < q ==> IsSpace(s[i])
    ensures q < |s| ==> !IsSpace(s[q])
    decreases |s| - p
  {
    if p < |s| && IsSpace(s[p]) then SkipSpace(s, p + 1) else p
  }

  function DigitsEnd(s: seq<byte>, p: nat): (q: nat)
    requires p <= |s|
    ensures p <= q <= |s|
    ensures forall i :: p <= i < q ==> IsDigit(s[i])
    ensures q < |s| ==> !IsDigit(s[q])
    decreases |s| - p
  {
    if p < |s| && IsDigit(s[p]) then DigitsEnd(s, p + 1) else p
  }

  /** The end of a run of at most w non-space bytes. */
  function WordEnd(s: seq<byte>, p: nat, w: nat): (q: nat)
    requires p <= |s|
    ensures p <= q <= |s| && q <= p + w
    ensures forall i :: p <= i < q ==> !IsSpace(s[i])
    ensures q < |s| ==> q == p + w || IsSpace(s[q])
    decreases w
  {
    if w > 0 && p < |s| && !IsSpace(s[p]) then WordEnd(s, p + 1, w - 1) else p
  }

  /** A literal "/XY" of the format. */
  function ScanTag(s: seq<byte>, p: nat, tag: seq<byte>): (r: Scanned<()>)
    requires p <= |s|
    ensures r.Match? ==> r.next == p + |tag| <= |s|
  {
    if p + |tag| <= |s| && s[p..p + |tag|] == tag then Match((), p + |tag|) else Mismatch
  }

  /** "%<w>s" */
  function ScanWord(s: seq<byte>, p: nat, w: nat): (r: Scanned<seq<byte>>)
    requires p <= |s|
    ensures r.Match? ==> p <= r.next <= |s|
  {
    var q := SkipSpace(s, p);
    var e := WordEnd(s, q, w);
    if e == q then Mismatch else Match(s[q..e], e)
  }

  /** "%d": blanks, an optional sign and at least one digit. */
  function ScanInt(s: seq<byte>, p: nat): (r: Scanned<int>)
    requires p <= |s|
    ensures r.Match? ==> p <= r.next <= |s|
  {
    var q := SkipSpace(s, p);
    var d := if q < |s| && (s[q] == 43 || s[q] == 45) then q + 1 else q;
    var e := DigitsEnd(s, d);
    if e == d then Mismatch
    else if d > q && s[q] == 45 then Match(0 - Value(s[d..e]) as int, e)
    else Match(Value(s[d..e]), e)
  }

  /** " /XY %d": one numbered tag of the format. */
  function ScanTaggedInt(s: seq<byte>, p: nat, tag: seq<byte>): (r: Scanned<int>)
    requires p <= |s|
    ensures r.Match? ==> p <= r.next <= |s|
  {
    var t := ScanTag(s, SkipSpace(s, p), tag);
    if t.Mismatch? then Mismatch else ScanInt(s, t.next)
  }

  /** The whole sscanf call on a NUL-free string; it succeeds when all five fields convert. */
  function Scan(s: seq<byte>): (r: Scanned<Fields>)
    ensures r.Match? ==> r.next <= |s|
  {
    var a := ScanTag(s, 0, PF);
    if a.Mismatch? then Mismatch else
    var name := ScanWord(s, a.next, FNAME_SIZE);
    if name.Mismatch? then Mismatch else
    var part := ScanTaggedInt(s, name.next, PN);
    if part.Mismatch? then Mismatch else
    var total := ScanTaggedInt(s, part.next, PT);
    if total.Mismatch? then Mismatch else
    var sum := ScanTaggedInt(s, total.next, CS);
    if sum.Mismatch? then Mismatch else
    var f := ScanTag(s, SkipSpace(s, sum.next), FD);
    if f.Mismatch? || f.next + STAMP_SIZE > |s| then Mismatch else
    Match(Fields(name.value, part.value, total.value, sum.value, s[f.next..f.next + STAMP_SIZE]),
          f.next + STAMP_SIZE)
  }

  // -------------------------------------------------- the two undo each other

  lemma SkipSpaceIs(s: seq<byte>, p: nat, q: nat)
    requires p <= q <= |s|
    requires forall i :: p <= i < q ==> IsSpace(s[i])
    requires q < |s| ==> !IsSpace(s[q])
    ensures SkipSpace(s, p) == q
  {
  }

  lemma DigitsEndIs(s: seq<byte>, p: nat, q: nat)
    requires p <= q <= |s|
    requires forall i :: p <= i < q ==> IsDigit(s[i])
    requires q < |s| ==> !IsDigit(s[q])
    ensures DigitsEnd(s, p) == q
  {
  }

  lemma WordEndIs(s: seq<byte>, p: nat, w: nat, q: nat)
    requires p <= q <= |s| && q <= p + w
    requires forall i :: p <= i < q ==> !IsSpace(s[i])
    requires q < |s| ==> q == p + w || IsSpace(s[q])
    ensures WordEnd(s, p, w) == q
  {
  }

  lemma PaddedColumn(s: seq<byte>, p: nat, d: seq<byte>, w: nat)
    requires 0 < |d| <= w && p + w <= |s| && s[p..p + w] == PadRight(d, w)
    ensures s[p..p + |d|] == d && s[p] == d[0]
    ensures forall i :: p <= i < p + |d| ==> s[i] == d[i - p]
    ensures forall i :: p + |d| <= i < p + w ==> s[i] == SPACE
  {
    var field := s[p..p + w];
    assert forall i :: p <= i < p + |d| ==> s[i] == field[i - p] == d[i - p];
    assert forall i :: p + |d| <= i < p + w ==> s[i] == field[i - p] == SPACE;
  }

  /** A number in w columns scans back, and the blanks after it end at the next tag. */
  lemma ScanColumnInt(s: seq<byte>, q: nat, n: nat, w: nat)
    requires |Decimal(n)| <= w && q + 1 + w < |s|
    requires s[q] == SPACE && s[q + 1..q + 1 + w] == PadRight(Decimal(n), w) && s[q + 1 + w] == 47
    ensures ScanInt(s, q) == Match(n, q + 1 + |Decimal(n)|)
    ensures SkipSpace(s, q + 1 + |Decimal(n)|) == q + 1 + w
  {
    hide Decimal, PadRight;
    var d := Decimal(n);
    var e := q + 1 + |d|;
    PaddedColumn(s, q + 1, d, w);
    SkipSpaceIs(s, q, q + 1);
    DigitsEndIs(s, q + 1, e);
    ValueOfDecimal(n);
    SkipSpaceIs(s, e, q + 1 + w);
  }

  lemma ScanPrintedInt(s: seq<byte>, from: nat, p: nat, tag: seq<byte>, n: nat, w: nat)
    requires from <= |s| && SkipSpace(s, from) == p
    requires |tag| == 3 && tag[0] == 47 && |Decimal(n)| <= w
    requires p + 4 + w < |s| && s[p..p + 4 + w] == PrintInt(tag, n, w) && s[p + 4 + w] == 47
    ensures ScanTaggedInt(s, from, tag) == Match(n, p + 4 + |Decimal(n)|)
    ensures SkipSpace(s, p + 4 + |Decimal(n)|) == p + 4 + w
  {
    hide Decimal, ScanInt, PadRight, SkipSpace;
    SubSlice(s, p, p + 4 + w, 0, 3);
    SubSlice(s, p, p + 4 + w, 4, 4 + w);
    var field := s[p..p + 4 + w];
    assert field[0..3] == tag && field[4..4 + w] == PadRight(Decimal(n), w);
    assert s[p] == field[0] == 47 && s[p + 3] == field[3] == SPACE;
    ScanColumnInt(s, p + 3, n, w);
  }

  predicate PrintableName(name: seq<byte>) {
    0 < |name| <= FNAME_SIZE && forall i :: 0 <= i < |name| ==> !IsSpace(name[i])
  }

  /** A printed name of at most 12 bytes scans back, up to the tag that follows its padding. */
  lemma ScanPrintedName(s: seq<byte>, name: seq<byte>)
    requires PrintableName(name)
    requires 15 < |s| && s[0..15] == PrintName(name) && s[15] == 47
    ensures ScanTag(s, 0, PF) == Match((), 3)
    ensures ScanWord(s, 3, FNAME_SIZE) == Match(name, 3 + |name|)
    ensures SkipSpace(s, 3 + |name|) == 15
  {
    hide PadRight, SkipSpace, WordEnd;
    var field := s[0..15];
    SubSlice(s, 0, 15, 0, 3);
    SubSlice(s, 0, 15, 3, 15);
    assert field[0..3] == PF && field[3..15] == PadRight(name, FNAME_SIZE);
    PaddedColumn(s, 3, name, FNAME_SIZE);
    SkipSpaceIs(s, 3, 3);
    WordEndIs(s, 3, FNAME_SIZE, 3 + |name|);
    SkipSpaceIs(s, 3 + |name|, 15);
  }

  /** The columns of a string that starts with a header; the checksum has w of them. */
  ghost predicate Columns(s: seq<byte>, name: seq<byte>, part: nat, total: nat, sum: nat, w: nat, stamp: seq<byte>) {
    && 62 + w <= |s|
    && s[0..15] == PrintName(name)
    && s[15..24] == PrintInt(PN, part, 5)
    && s[24..33] == PrintInt(PT, total, 5)
    && s[33..37 + w] == PrintInt(CS, sum, w)
    && s[37 + w..62 + w] == FD + stamp
  }

  lemma PrintedColumns(name: seq<byte>, part: nat, total: nat, sum: nat, stamp: seq<byte>, tail: seq<byte>)
    requires |name| <= FNAME_SIZE && |stamp| == STAMP_SIZE
    requires |Decimal(part)| <= 5 && |Decimal(total)| <= 5 && |Decimal(sum)| <= 6
    ensures Columns(Print(name, part, total, sum, stamp) + tail, name, part, total, sum, 6, stamp)
  {
    var a, b, c := PrintName(name), PrintInt(PN, part, 5), PrintInt(PT, total, 5);
    var d, e, f := PrintInt(CS, sum, 6), FD + stamp, Fill(SPACE, 10) + CRLF;
    assert |a| == 15 && |b| == 9 && |c| == 9 && |d| == 10 && |e| == 25;
    hide PrintName, PrintInt, Decimal, PadRight, Fill;
    Slices(a, b, c, d, e, f + tail);
    assert PrintStamp(stamp) == e + f;
    Regroup(a + b + c + d, e, f, tail);
  }

  lemma Regroup(a: seq<byte>, e: seq<byte>, f: seq<byte>, tail: seq<byte>)
    ensures a + (e + f) + tail == a + e + (f + tail)
  {
  }

  lemma Slices(a: seq<byte>, b: seq<byte>, c: seq<byte>, d: seq<byte>, e: seq<byte>, f: seq<byte>)
    requires |a| == 15 && |b| == 9 && |c| == 9 && |d| == 10 && |e| == 25
    ensures var s := a + b + c + d + e + f;
            s[0..15] == a && s[15..24] == b && s[24..33] == c && s[33..43] == d && s[43..68] == e
  {
  }

  lemma ScanColumns(s: seq<byte>, name: seq<byte>, part: nat, total: nat, sum: nat, w: nat, stamp: seq<byte>)
    requires PrintableName(name) && |stamp| == STAMP_SIZE
    requires |Decimal(part)| <= 5 && |Decimal(total)| <= 5 && |Decimal(sum)| <= w
    requires Columns(s, name, part, total, sum, w, stamp)
    ensures Scan(s) == Match(Fields(name, part, total, sum, stamp), 62 + w)
  {
    hide ScanTaggedInt, ScanWord, PadRight, Decimal, SkipSpace, PrintName;
    assert s[15] == s[15..24][0] == 47 && s[24] == s[24..33][0] == 47;
    assert s[33] == s[33..37 + w][0] == 47 && s[37 + w] == s[37 + w..62 + w][0] == 47;
    ScanPrintedName(s, name);
    ScanPrintedInt(s, 3 + |name|, 15, PN, part, 5);
    ScanPrintedInt(s, 19 + |Decimal(part)|, 24, PT, total, 5);
    ScanPrintedInt(s, 28 + |Decimal(total)|, 33, CS, sum, w);
    StampColumns(s, 37 + w, stamp);
  }

  lemma StampColumns(s: seq<byte>, p: nat, stamp: seq<byte>)
    requires |stamp| == STAMP_SIZE && p + 25 <= |s| && s[p..p + 25] == FD + stamp
    ensures ScanTag(s, p, FD) == Match((), p + 3) && s[p + 3..p + 25] == stamp
  {
    SubSlice(s, p, p + 25, 0, 3);
    SubSlice(s, p, p + 25, 3, 25);
    assert (FD + stamp)[0..3] == FD && (FD + stamp)[3..25] == stamp;
  }

  /** Printing then scanning gives back all five fields and stops at column 68. */
  lemma ScanPrinted(name: seq<byte>, part: nat, total: nat, sum: nat, stamp: seq<byte>, tail: seq<byte>)
    requires PrintableName(name) && |stamp| == STAMP_SIZE
    requires part <= 99999 && total <= 99999 && sum <= 999999
    ensures Scan(Print(name, part, total, sum, stamp) + tail)
            == Match(Fields(name, part, total, sum, stamp), 68)
  {
    ColumnsFit(part, total, sum);
    PrintedColumns(name, part, total, sum, stamp, tail);
    ScanColumns(Print(name, part, total, sum, stamp) + tail, name, part, total, sum, 6, stamp);
  }

  /** The stamp is the last that is read. */
  lemma ScanEnds(s: seq<byte>)
    ensures Scan(s).Match? ==>
              STAMP_SIZE <= Scan(s).next <= |s| && Scan(s).value.stamp == s[Scan(s).next - STAMP_SIZE..Scan(s).next]
  {
    hide ScanTaggedInt, ScanWord, SkipSpace;
  }

  // ------------------------------------------------------- where slashes may stand

  const SLASH: byte := 47

  /** Every slash from a up to b begins a tag of the format: "P", "C" or "F" comes after it. */
  ghost predicate TagSlashes(s: seq<byte>, a: nat, b: nat) {
    forall i :: a <= i < b && i < |s| && s[i] == SLASH ==>
      i + 1 < |s| && (s[i + 1] == 80 || s[i + 1] == 67 || s[i + 1] == 70)
  }

  lemma TagSlashesOn(s: seq<byte>, a: nat, b: nat, c: nat)
    requires TagSlashes(s, a, b) && TagSlashes(s, b, c)
    ensures TagSlashes(s, a, c)
  {
  }

  lemma SlashesOfTag(s: seq<byte>, p: nat, tag: seq<byte>)
    requires p <= |s| && tag in {PF, PN, PT, CS, FD} && ScanTag(s, SkipSpace(s, p), tag).Match?
    ensures TagSlashes(s, p, SkipSpace(s, p) + 3)
  {
    var q := SkipSpace(s, p);
    assert s[q] == s[q..q + 3][0] && s[q + 1] == s[q..q + 3][1] && s[q + 2] == s[q..q + 3][2];
  }

  lemma SlashesOfInt(s: seq<byte>, p: nat)
    requires p <= |s| && ScanInt(s, p).Match?
    ensures TagSlashes(s, p, ScanInt(s, p).next)
  {
  }

  lemma SlashesOfTaggedInt(s: seq<byte>, p: nat, tag: seq<byte>)
    requires p <= |s| && tag in {PF, PN, PT, CS, FD} && ScanTaggedInt(s, p, tag).Match?
    ensures TagSlashes(s, p, ScanTaggedInt(s, p, tag).next)
  {
    hide SkipSpace, ScanInt, TagSlashes;
    var q := SkipSpace(s, p);
    SlashesOfTag(s, p, tag);
    SlashesOfInt(s, q + 3);
    TagSlashesOn(s, p, q + 3, ScanTaggedInt(s, p, tag).next);
  }

  lemma SlashesOfWord(s: seq<byte>, p: nat, w: nat)
    requires p <= |s| && ScanWord(s, p, w).Match? && SLASH !in ScanWord(s, p, w).value
    ensures TagSlashes(s, p, ScanWord(s, p, w).next)
  {
    var q := SkipSpace(s, p);
    var e := WordEnd(s, q, w);
    forall i | q <= i < e ensures s[i] != SLASH {
      assert s[i] == s[q..e][i - q];
    }
  }

  /** In a header that scans, with no slash in its name, every slash before the stamp begins a tag. */
  lemma SlashesOfScan(s: seq<byte>)
    requires Scan(s).Match? && SLASH !in Scan(s).value.name
    ensures STAMP_SIZE <= Scan(s).next <= |s| && TagSlashes(s, 0, Scan(s).next - STAMP_SIZE)
  {
    hide ScanTaggedInt, ScanWord, SkipSpace, TagSlashes;
    assert TagSlashes(s, 0, 3) by { FirstTagSlash(s); }
    var name := ScanWord(s, 3, FNAME_SIZE);
    SlashesOfWord(s, 3, FNAME_SIZE);
    TagSlashesOn(s, 0, 3, name.next);
    var part := ScanTaggedInt(s, name.next, PN);
    SlashesOfTaggedInt(s, name.next, PN);
    TagSlashesOn(s, 0, name.next, part.next);
    var total := ScanTaggedInt(s, part.next, PT);
    SlashesOfTaggedInt(s, part.next, PT);
    TagSlashesOn(s, 0, part.next, total.next);
    var sum := ScanTaggedInt(s, total.next, CS);
    SlashesOfTaggedInt(s, total.next, CS);
    TagSlashesOn(s, 0, total.next, sum.next);
    SlashesOfTag(s, sum.next, FD);
    TagSlashesOn(s, 0, sum.next, SkipSpace(s, sum.next) + 3);
  }

  lemma FirstTagSlash(s: seq<byte>)
    requires ScanTag(s, 0, PF).Match?
    ensures TagSlashes(s, 0, 3)
  {
    assert s[0] == s[0..3][0] && s[1] == s[0..3][1] && s[2] == s[0..3][2];
  }

  // ------------------------------------------------- the scan looks no further

  ghost predicate Agree(s: seq<byte>, t: seq<byte>, e: nat) {
    e <= |s| && e <= |t| && forall i :: 0 <= i < e ==> s[i] == t[i]
  }

  lemma ScanTagLocal(s: seq<byte>, t: seq<byte>, p: nat, tag: seq<byte>, e: nat)
    requires p + |tag| <= e && Agree(s, t, e)
    ensures ScanTag(t, p, tag) == ScanTag(s, p, tag)
  {
    assert s[p..p + |tag|] == t[p..p + |tag|];
  }

  lemma SkipSpaceLocal(s: seq<byte>, t: seq<byte>, p: nat, e: nat)
    requires p <= e && Agree(s, t, e) && SkipSpace(s, p) < e
    ensures SkipSpace(t, p) == SkipSpace(s, p)
  {
    SkipSpaceIs(t, p, SkipSpace(s, p));
  }

  lemma DigitsLocal(s: seq<byte>, t: seq<byte>, p: nat, e: nat)
    requires p <= e && Agree(s, t, e) && DigitsEnd(s, p) < e
    ensures DigitsEnd(t, p) == DigitsEnd(s, p) && t[p..DigitsEnd(s, p)] == s[p..DigitsEnd(s, p)]
  {
    DigitsEndIs(t, p, DigitsEnd(s, p));
  }

  lemma ScanWordLocal(s: seq<byte>, t: seq<byte>, p: nat, w: nat, e: nat)
    requires p <= e && Agree(s, t, e)
    requires ScanWord(s, p, w).Match? && ScanWord(s, p, w).next < e
    ensures ScanWord(t, p, w) == ScanWord(s, p, w)
  {
    var q := SkipSpace(s, p);
    SkipSpaceLocal(s, t, p, e);
    var n := WordEnd(s, q, w);
    WordEndIs(t, q, w, n);
    assert s[q..n] == t[q..n];
  }

  lemma AgreeSlice(s: seq<byte>, t: seq<byte>, p: nat, e: nat)
    requires p <= e && Agree(s, t, e)
    ensures s[p..e] == t[p..e]
  {
  }

  lemma SignLocal(s: seq<byte>, t: seq<byte>, q: nat, e: nat)
    requires q < e && Agree(s, t, e)
    ensures s[q] == t[q]
  {
  }

  lemma ScanIntLocal(s: seq<byte>, t: seq<byte>, p: nat, e: nat)
    requires p <= e && Agree(s, t, e)
    requires ScanInt(s, p).Match? && ScanInt(s, p).next < e
    ensures ScanInt(t, p) == ScanInt(s, p)
  {
    hide Agree, SkipSpace, DigitsEnd, Value;
    var q := SkipSpace(s, p);
    var d := if q < |s| && (s[q] == 43 || s[q] == 45) then q + 1 else q;
    AgreeSizes(s, t, e);
    SkipSpaceLocal(s, t, p, e);
    SignLocal(s, t, q, e);
    DigitsLocal(s, t, d, e);
  }

  lemma AgreeSizes(s: seq<byte>, t: seq<byte>, e: nat)
    requires Agree(s, t, e)
    ensures e <= |s| && e <= |t|
  {
  }

  lemma ScanTaggedIntLocal(s: seq<byte>, t: seq<byte>, p: nat, tag: seq<byte>, e: nat)
    requires p <= e && Agree(s, t, e)
    requires ScanTaggedInt(s, p, tag).Match? && ScanTaggedInt(s, p, tag).next < e
    ensures ScanTaggedInt(t, p, tag) == ScanTaggedInt(s, p, tag)
  {
    hide Agree, SkipSpace, ScanInt;
    AgreeSizes(s, t, e);
    var q := SkipSpace(s, p);
    SkipSpaceLocal(s, t, p, e);
    ScanTagLocal(s, t, q, tag, e);
    ScanIntLocal(s, t, q + |tag|, e);
  }

  /** A successful scan depends only on the bytes it consumed. */
  lemma ScanLocal(s: seq<byte>, t: seq<byte>)
    requires Scan(s).Match? && Agree(s, t, Scan(s).next)
    ensures Scan(t) == Scan(s)
  {
    hide ScanTaggedInt, ScanWord, SkipSpace, Agree;
    var e := Scan(s).next;
    AgreeSizes(s, t, e);
    ScanTagLocal(s, t, 0, PF, e);
    ScanWordLocal(s, t, 3, FNAME_SIZE, e);
    var name := ScanWord(s, 3, FNAME_SIZE);
    ScanTaggedIntLocal(s, t, name.next, PN, e);
    var part := ScanTaggedInt(s, name.next, PN);
    ScanTaggedIntLocal(s, t, part.next, PT, e);
    var total := ScanTaggedInt(s, part.next, PT);
    ScanTaggedIntLocal(s, t, total.next, CS, e);
    var sum := ScanTaggedInt(s, total.next, CS);
    var f := SkipSpace(s, sum.next);
    SkipSpaceLocal(s, t, sum.next, e);
    ScanTagLocal(s, t, f, FD, e);
    AgreeSlice(s, t, f + 3, e);
  }
}
