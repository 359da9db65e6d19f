/**
 The WX14 receiver: rebuilding 1116-byte packets from a stream that arrives cut into messages.
 A packet is kept from its "/" on, behind six zeros of the reader's own.
 */
module Wx14 {
  import opened Bytes

  const BLOCK_SIZE: nat := 1116
  const MAX_PAYLOAD: nat := 1110
  const NULS_SLASH: seq<byte> := [0, 0, 0, 0, 0, 0, 47]

  // --------------------------------------------------------- finding a start mark

  predicate OccursAt(d: seq<byte>, pattern: seq<byte>, i: int) {
    0 <= i && i + |pattern| <= |d| && d[i..i + |pattern|] == pattern
  }

  /** The first place at or after i where a pattern occurs. */
  function Find(d: seq<byte>, pattern: seq<byte>, i: nat): (r: Option<nat>)
    ensures r.Some? ==> i <= r.value && OccursAt(d, pattern, r.value)
    ensures forall j :: i <= j && (r.None? || j < r.value) ==> !OccursAt(d, pattern, j)
    decreases |d| - i
  {
    if i + |pattern| > |d| then None
    else if OccursAt(d, pattern, i) then Some(i)
    else Find(d, pattern, i + 1)
  }

  /** Where a new packet starts in a message: at a "/PF", or else at the "/" after six NULs. */
  function Start(d: seq<byte>): (r: Option<nat>)
    ensures r.Some? ==> r.value < |d| && d[r.value] == 47
  {
    var a := Find(d, PF, 0);
    if a.Some? then
      assert d[a.value] == d[a.value..a.value + 3][0];
      a
    else
      var b := Find(d, NULS_SLASH, 0);
      if b.Some? then
        assert d[b.value + 6] == d[b.value..b.value + 7][6];
        Some(b.value + 6)
      else None
  }

  // ------------------------------------------------------ the reader as a function

  ghost predicate Bounded(ms: seq<seq<byte>>) {
    forall i :: 0 <= i < |ms| ==> 0 < |ms[i]| <= MAX_PAYLOAD
  }

  function NewPart(d: seq<byte>, index: nat): seq<byte>
    requires index <= |d|
  {
    Zeros(6) + d[index..]
  }

  datatype Found = NotFound | Found(part: seq<byte>, rest: seq<seq<byte>>)

  /** wx14_init_emwin_block(): messages are dropped up to one with a start mark. */
  function Init(ms: seq<seq<byte>>): (r: Found)
    ensures r.Found? ==> |r.rest| < |ms| && r.rest == ms[|ms| - |r.rest|..]
  {
    if ms == [] then NotFound
    else if Start(ms[0]).Some? then Found(NewPart(ms[0], Start(ms[0]).value), ms[1..])
    else Init(ms[1..])
  }

  lemma {:induction false} InitPart(ms: seq<seq<byte>>)
    requires Bounded(ms)
    ensures Init(ms).Found? ==> 6 < |Init(ms).part| <= BLOCK_SIZE && Bounded(Init(ms).rest)
  {
    if ms != [] && Start(ms[0]).None? {
      InitPart(ms[1..]);
    }
  }

  /** Ended: no more messages. Incomplete: a start mark before the packet was full. */
  datatype Outcome = Ended | Incomplete | Block(block: seq<byte>, part: seq<byte>, rest: seq<seq<byte>>)

  /** wx14_read_emwin_block(): a full packet is delivered once the next start mark is found. */
  function ReadBlock(part: seq<byte>, ms: seq<seq<byte>>): (r: Outcome)
    requires |part| <= BLOCK_SIZE
    ensures r.Block? ==> |r.rest| < |ms|
    decreases |ms|
  {
    if ms == [] then Ended else
    var d := ms[0];
    if |part| + |d| >= BLOCK_SIZE then
      var block := part + d[..BLOCK_SIZE - |part|];
      if Start(d).Some? then Block(block, NewPart(d, Start(d).value), ms[1..])
      else
        var next := Init(ms[1..]);
        if next.NotFound? then Ended else Block(block, next.part, next.rest)
    else if Start(d).Some? then Incomplete
    else ReadBlock(part + d, ms[1..])
  }

  lemma {:induction false} ReadBlockPart(part: seq<byte>, ms: seq<seq<byte>>)
    requires 6 <= |part| <= BLOCK_SIZE && Bounded(ms)
    ensures ReadBlock(part, ms).Block? ==>
      && |ReadBlock(part, ms).block| == BLOCK_SIZE
      && 6 < |ReadBlock(part, ms).part| <= BLOCK_SIZE && Bounded(ReadBlock(part, ms).rest)
    decreases |ms|
  {
    if ms != [] {
      InitPart(ms[1..]);
      if |part| + |ms[0]| < BLOCK_SIZE {
        ReadBlockPart(part + ms[0], ms[1..]);
      }
    }
  }

  /** All packets delivered until a read fails, and whether it failed on a packet cut short. */
  function Deliver(part: seq<byte>, ms: seq<seq<byte>>): (seq<seq<byte>>, bool)
    requires 6 <= |part| <= BLOCK_SIZE && Bounded(ms)
    decreases |ms|
  {
    var r := ReadBlock(part, ms);
    if r.Block? then
      ReadBlockPart(part, ms);
      var (blocks, short) := Deliver(r.part, r.rest);
      ([r.block] + blocks, short)
    else ([], r.Incomplete?)
  }

  /** A session with the device: initialise, then read packets. */
  function Session(ms: seq<seq<byte>>): (seq<seq<byte>>, bool)
    requires Bounded(ms)
  {
    var r := Init(ms);
    if r.NotFound? then ([], false) else
    InitPart(ms);
    Deliver(r.part, r.rest)
  }

  // --------------------------------------------------------- positions of the starts

  /** Where the reader finds start marks, as positions in the whole stream. */
  function Starts(ms: seq<seq<byte>>, offset: nat): seq<nat> {
    if ms == [] then [] else
    var here := Start(ms[0]);
    (if here.Some? then [offset + here.value] else []) + Starts(ms[1..], offset + |ms[0]|)
  }

  /** For each start, the end of the message it was found in. */
  function Ends(ms: seq<seq<byte>>, offset: nat): seq<nat> {
    if ms == [] then [] else
    (if Start(ms[0]).Some? then [offset + |ms[0]|] else []) + Ends(ms[1..], offset + |ms[0]|)
  }

  lemma {:induction false} EndsFit(ms: seq<seq<byte>>, offset: nat)
    ensures |Ends(ms, offset)| == |Starts(ms, offset)|
    ensures forall i :: 0 <= i < |Ends(ms, offset)| ==> Starts(ms, offset)[i] < Ends(ms, offset)[i]
  {
    hide Start;
    if ms != [] { EndsFit(ms[1..], offset + |ms[0]|); }
  }

  /** Six zeros and the 1110 bytes from a position on. */
  function BlockAt(s: seq<byte>, p: nat): seq<byte>
    requires p + 1110 <= |s|
  {
    Zeros(6) + s[p..p + 1110]
  }

  /** The messages still to come are the stream from an offset on. */
  ghost predicate Ahead(s: seq<byte>, ms: seq<seq<byte>>, offset: nat) {
    offset <= |s| && s[offset..] == Concat(ms)
  }

  /** The reader's partial packet is the stream from position p up to what has been read. */
  ghost predicate At(s: seq<byte>, part: seq<byte>, ms: seq<seq<byte>>, offset: nat, p: nat) {
    && p <= offset <= |s| && offset <= p + 1110
    && Ahead(s, ms, offset)
    && part == Zeros(6) + s[p..offset]
  }

  lemma StreamStep(s: seq<byte>, ms: seq<seq<byte>>, offset: nat)
    requires Ahead(s, ms, offset) && ms != []
    ensures Ahead(s, ms[1..], offset + |ms[0]|)
    ensures offset + |ms[0]| <= |s| && s[offset..offset + |ms[0]|] == ms[0]
  {
    ConcatHead(ms);
    var d, rest := ms[0], Concat(ms[1..]);
    assert s[offset..] == d + rest;
    assert s[offset..][..|d|] == d && s[offset..][|d|..] == rest;
  }

  lemma NewPartAt(s: seq<byte>, ms: seq<seq<byte>>, offset: nat)
    requires Ahead(s, ms, offset) && ms != [] && |ms[0]| <= MAX_PAYLOAD
    requires Start(ms[0]).Some?
    ensures At(s, NewPart(ms[0], Start(ms[0]).value), ms[1..], offset + |ms[0]|, offset + Start(ms[0]).value)
  {
    StreamStep(s, ms, offset);
    var i, d := Start(ms[0]).value, ms[0];
    SubSlice(s, offset, offset + |d|, i, |d|);
    assert d[i..] == d[i..|d|];
  }

  /** The reader has gone on to the first of these starts, and the others are still to come. */
  ghost predicate OnTo(s: seq<byte>, part: seq<byte>, rest: seq<seq<byte>>, starts: seq<nat>, ends: seq<nat>) {
    && starts != [] && |ends| == |starts| && |Concat(rest)| <= |s|
    && At(s, part, rest, |s| - |Concat(rest)|, starts[0])
    && Starts(rest, |s| - |Concat(rest)|) == starts[1..]
    && Ends(rest, |s| - |Concat(rest)|) == ends[1..]
  }

  lemma StartHere(ms: seq<seq<byte>>, offset: nat)
    requires ms != [] && Start(ms[0]).Some?
    ensures Starts(ms, offset) == [offset + Start(ms[0]).value] + Starts(ms[1..], offset + |ms[0]|)
    ensures Ends(ms, offset) == [offset + |ms[0]|] + Ends(ms[1..], offset + |ms[0]|)
  {
  }

  lemma OnToHere(s: seq<byte>, ms: seq<seq<byte>>, offset: nat)
    requires Ahead(s, ms, offset) && ms != [] && |ms[0]| <= MAX_PAYLOAD
    requires Start(ms[0]).Some?
    ensures OnTo(s, NewPart(ms[0], Start(ms[0]).value), ms[1..], Starts(ms, offset), Ends(ms, offset))
    ensures Starts(ms, offset) != [] && Ends(ms, offset) != [] && Ends(ms, offset)[0] == offset + |ms[0]|
  {
    hide Start, NewPart, Concat, At, Starts, Ends;
    StreamStep(s, ms, offset);
    NewPartAt(s, ms, offset);
    StartHere(ms, offset);
    EndsFit(ms, offset);
    assert |s| - |Concat(ms[1..])| == offset + |ms[0]|;
    assert Starts(ms, offset)[1..] == Starts(ms[1..], offset + |ms[0]|);
    assert Ends(ms, offset)[1..] == Ends(ms[1..], offset + |ms[0]|);
  }

  lemma NoStartHere(ms: seq<seq<byte>>, offset: nat)
    requires ms != [] && Start(ms[0]).None?
    ensures Starts(ms, offset) == Starts(ms[1..], offset + |ms[0]|)
    ensures Ends(ms, offset) == Ends(ms[1..], offset + |ms[0]|)
  {
  }

  lemma {:induction false} EndsAfter(ms: seq<seq<byte>>, offset: nat)
    ensures forall i :: 0 <= i < |Ends(ms, offset)| ==> Ends(ms, offset)[i] >= offset
  {
    if ms != [] { EndsAfter(ms[1..], offset + |ms[0]|); }
  }

  /** The search for a first packet ends at the first start, if there is one. */
  lemma {:induction false} InitWhere(s: seq<byte>, ms: seq<seq<byte>>, offset: nat)
    requires Bounded(ms) && Ahead(s, ms, offset)
    ensures var starts := Starts(ms, offset);
            match Init(ms)
            case NotFound => starts == []
            case Found(part, rest) =>
              starts != [] && Ends(ms, offset) != [] && OnTo(s, part, rest, starts, Ends(ms, offset))
  {
    hide At, Start, NewPart, OnTo, Ahead;
    if ms != [] {
      StreamStep(s, ms, offset);
      if Start(ms[0]).Some? {
        OnToHere(s, ms, offset);
      } else {
        NoStartHere(ms, offset);
        InitWhere(s, ms[1..], offset + |ms[0]|);
      }
    }
  }

  lemma FullBlock(s: seq<byte>, part: seq<byte>, ms: seq<seq<byte>>, offset: nat, p: nat)
    requires At(s, part, ms, offset, p) && ms != [] && |part| + |ms[0]| >= BLOCK_SIZE
    ensures |part| <= BLOCK_SIZE && p + 1110 <= |s| && part + ms[0][..BLOCK_SIZE - |part|] == BlockAt(s, p)
    ensures Ahead(s, ms, offset) && Ahead(s, ms[1..], offset + |ms[0]|) && p + 1110 <= offset + |ms[0]|
  {
    var n, d := BLOCK_SIZE - |part|, ms[0];
    StreamStep(s, ms, offset);
    SubSlice(s, offset, offset + |d|, 0, n);
    assert s[p..offset] + s[offset..offset + n] == s[p..p + 1110];
  }

  lemma LongerPart(s: seq<byte>, part: seq<byte>, ms: seq<seq<byte>>, offset: nat, p: nat)
    requires At(s, part, ms, offset, p) && ms != [] && |part| + |ms[0]| < BLOCK_SIZE
    ensures At(s, part + ms[0], ms[1..], offset + |ms[0]|, p)
    ensures offset + |ms[0]| < p + 1110
  {
    StreamStep(s, ms, offset);
    assert s[p..offset] + s[offset..offset + |ms[0]|] == s[p..offset + |ms[0]|];
  }

  /** What one read of the packet at p may come to, given the starts still ahead. */
  ghost predicate ReadIs(s: seq<byte>, p: nat, starts: seq<nat>, ends: seq<nat>, r: Outcome) {
    match r
    case Ended => starts == []
    case Incomplete => starts != [] && ends != [] && ends[0] < p + 1110
    case Block(block, part, rest) =>
      && p + 1110 <= |s| && block == BlockAt(s, p)
      && OnTo(s, part, rest, starts, ends) && ends != [] && p + 1110 <= ends[0]
  }

  lemma ReadFull(s: seq<byte>, part: seq<byte>, ms: seq<seq<byte>>, offset: nat, p: nat)
    requires Bounded(ms) && At(s, part, ms, offset, p) && ms != [] && |part| + |ms[0]| >= BLOCK_SIZE
    ensures |part| <= BLOCK_SIZE && ReadIs(s, p, Starts(ms, offset), Ends(ms, offset), ReadBlock(part, ms))
  {
    hide Start, NewPart, BlockAt, At, OnTo, Ahead, Starts, Ends, Concat, Init;
    FullBlock(s, part, ms, offset, p);
    if Start(ms[0]).Some? {
      OnToHere(s, ms, offset);
    } else {
      NoStartHere(ms, offset);
      EndsAfter(ms[1..], offset + |ms[0]|);
      InitWhere(s, ms[1..], offset + |ms[0]|);
    }
  }

  /** One read, on any stream. */
  lemma {:induction false} ReadWhere(s: seq<byte>, part: seq<byte>, ms: seq<seq<byte>>, offset: nat, p: nat)
    requires Bounded(ms) && At(s, part, ms, offset, p)
    ensures |part| <= BLOCK_SIZE && ReadIs(s, p, Starts(ms, offset), Ends(ms, offset), ReadBlock(part, ms))
    decreases |ms|
  {
    if ms != [] {
      if |part| + |ms[0]| >= BLOCK_SIZE {
        ReadFull(s, part, ms, offset, p);
      } else {
        LongerPart(s, part, ms, offset, p);
        hide At, Concat, OnTo, BlockAt, Start;
        if Start(ms[0]).Some? {
          StartHere(ms, offset);
        } else {
          NoStartHere(ms, offset);
          ReadWhere(s, part + ms[0], ms[1..], offset + |ms[0]|, p);
        }
      }
    }
  }

  /** The message with the start after i ends before the packet of start i is full. */
  ghost predicate CutShort(starts: seq<nat>, ends: seq<nat>, i: nat) {
    i + 1 < |starts| && i + 1 < |ends| && ends[i + 1] < starts[i] + 1110
  }

  /**
   The packets delivered, as positions: one for each start up to the first that is cut short, or, if none
   is, for all but the last.
   */
  ghost predicate Delivered(s: seq<byte>, starts: seq<nat>, ends: seq<nat>, blocks: seq<seq<byte>>, short: bool) {
    && |ends| == |starts| && |blocks| < |starts|
    && (forall i :: 0 <= i < |blocks| ==> starts[i] + 1110 <= |s| && blocks[i] == BlockAt(s, starts[i]))
    && (forall i :: 0 <= i < |blocks| ==> !CutShort(starts, ends, i))
    && (if short then CutShort(starts, ends, |blocks|) else |blocks| + 1 == |starts|)
  }

  lemma {:induction false} DeliverWhere(s: seq<byte>, part: seq<byte>, ms: seq<seq<byte>>, offset: nat,
                                        p: nat, end: nat)
    requires Bounded(ms) && At(s, part, ms, offset, p)
    ensures var (blocks, short) := Deliver(part, ms);
            Delivered(s, [p] + Starts(ms, offset), [end] + Ends(ms, offset), blocks, short)
    decreases |ms|
  {
    hide Delivered, ReadBlock, Starts, Ends, BlockAt, OnTo, Concat;
    ReadWhere(s, part, ms, offset, p);
    var starts, ends := Starts(ms, offset), Ends(ms, offset);
    EndsFit(ms, offset);
    LastStart(s, p, end, starts, ends);
    match ReadBlock(part, ms)
    case Ended =>
    case Incomplete =>
    case Block(block, part', rest) =>
      ReadBlockPart(part, ms);
      var offset' := OnToOffset(s, part', rest, starts, ends);
      DeliverWhere(s, part', rest, offset', starts[0], ends[0]);
      var (blocks, short) := Deliver(part', rest);
      DeliveredCons(s, p, end, starts, ends, block, blocks, short);
  }

  lemma OnToOffset(s: seq<byte>, part: seq<byte>, rest: seq<seq<byte>>, starts: seq<nat>, ends: seq<nat>)
    returns (offset: nat)
    requires OnTo(s, part, rest, starts, ends)
    ensures starts != [] && ends != [] && At(s, part, rest, offset, starts[0])
    ensures [starts[0]] + Starts(rest, offset) == starts && [ends[0]] + Ends(rest, offset) == ends
  {
    hide At, Starts, Ends, Concat;
    offset := |s| - |Concat(rest)|;
    assert [starts[0]] + starts[1..] == starts && [ends[0]] + ends[1..] == ends;
  }

  lemma LastStart(s: seq<byte>, p: nat, end: nat, starts: seq<nat>, ends: seq<nat>)
    requires |ends| == |starts|
    ensures starts == [] ==> Delivered(s, [p] + starts, [end] + ends, [], false)
    ensures starts != [] && ends[0] < p + 1110 ==> Delivered(s, [p] + starts, [end] + ends, [], true)
  {
  }

  lemma DeliveredCons(s: seq<byte>, p: nat, end: nat, starts: seq<nat>, ends: seq<nat>,
                      block: seq<byte>, blocks: seq<seq<byte>>, short: bool)
    requires Delivered(s, starts, ends, blocks, short)
    requires p + 1110 <= |s| && block == BlockAt(s, p) && p + 1110 <= ends[0]
    ensures Delivered(s, [p] + starts, [end] + ends, [block] + blocks, short)
  {
    hide BlockAt;
    var ps, es, bs := [p] + starts, [end] + ends, [block] + blocks;
    forall i | 0 <= i < |bs| ensures ps[i] + 1110 <= |s| && bs[i] == BlockAt(s, ps[i]) {
      if i > 0 {
        assert ps[i] == starts[i - 1] && bs[i] == blocks[i - 1];
      }
    }
    forall i | 0 <= i <= |bs| ensures CutShort(ps, es, i) <==> i > 0 && CutShort(starts, ends, i - 1) {
      assert i > 0 ==> ps[i] == starts[i - 1];
      assert i + 1 < |es| ==> es[i + 1] == ends[i];
    }
  }

  /**
   Any stream, in messages of at most 1110 bytes: the packets delivered are six zeros and the 1110
   bytes from each start mark found, in order, each once. Reading stops exactly at the first packet that
   is not full when the message with the next start ends; if there is none, the last packet found is
   still being received.
   */
  lemma SessionExact(ms: seq<seq<byte>>)
    requires Bounded(ms)
    ensures var (blocks, short) := Session(ms);
            var starts := Starts(ms, 0);
            if starts == [] then blocks == [] && !short
            else Delivered(Concat(ms), starts, Ends(ms, 0), blocks, short)
  {
    var s := Concat(ms);
    hide Delivered, Starts, Ends, OnTo, Concat;
    assert s[0..] == s;
    InitWhere(s, ms, 0);
    match Init(ms)
    case NotFound =>
    case Found(part, rest) =>
      InitPart(ms);
      var starts, ends := Starts(ms, 0), Ends(ms, 0);
      var offset := OnToOffset(s, part, rest, starts, ends);
      DeliverWhere(s, part, rest, offset, starts[0], ends[0]);
  }

  /** The reader gives up if and only if some packet is cut short. */
  lemma ShortIff(ms: seq<seq<byte>>)
    requires Bounded(ms)
    ensures Session(ms).1 <==> exists i: nat :: CutShort(Starts(ms, 0), Ends(ms, 0), i)
  {
    SessionExact(ms);
    hide Session, BlockAt, Concat;
  }

  /** For instance on two marks in messages of their own. */
  lemma TwoMarksCutShort()
    ensures Bounded([PF, PF]) && Session([PF, PF]).1
  {
    var ms := [PF, PF];
    assert OccursAt(PF, PF, 0) by { assert PF[0..3] == PF; }
    assert Start(PF) == Some(0);
    assert ms[1..] == [PF] && [PF][1..] == [];
    assert Starts([PF], 3) == [3] && Ends([PF], 3) == [6];
    assert Starts(ms, 0) == [0, 3] && Ends(ms, 0) == [3, 6];
    assert CutShort(Starts(ms, 0), Ends(ms, 0), 0);
    ShortIff(ms);
  }
}
