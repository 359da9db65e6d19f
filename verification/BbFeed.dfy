/**
 A network server as a feed: masked packets of 1116 bytes and masked server lists, told apart by their
 first byte.
 */
module BbFeed {
  import opened Bytes
  import opened Receive
  import opened IoLoops
  import opened FrameSync

  const BACKSLASH: byte := 92
  const SLASH: byte := 47

  /** "/ServerList/" */
  const SERVER_LIST: seq<byte> := [47, 83, 101, 114, 118, 101, 114, 76, 105, 115, 116, 47]

  /** What a server sends, unmasked. */
  datatype Item = Data(packet: seq<byte>) | Servers(list: seq<byte>)

  function Plain(item: Item): seq<byte> {
    match item case Data(packet) => packet case Servers(list) => list
  }

  /** As it goes over the network, and into the queue of a V1 client. */
  function Wire(item: Item): (r: seq<byte>)
    ensures |r| == |Plain(item)|
  {
    MaskAll(Plain(item))
  }

  /** bb_read_srvlist(): the end of the fourth backslash, if it comes within a packet's size. */
  function ListEnd(t: seq<byte>, i: nat, count: nat): (r: Option<nat>)
    requires i <= |t|
    ensures r.Some? ==> i <= r.value <= |t|
    decreases |t| - i
  {
    if count == 4 then Some(i)
    else if i >= PACKET_SIZE || i == |t| then None
    else ListEnd(t, i + 1, if t[i] == BACKSLASH then count + 1 else count)
  }

  predicate IsServerList(t: seq<byte>) {
    |t| >= |SERVER_LIST| && t[..|SERVER_LIST|] == SERVER_LIST
  }

  /** What a server sends on: packets that decode and begin with a NUL, and server lists. */
  ghost predicate Relayable(item: Item) {
    match item
    case Data(packet) => |packet| == PACKET_SIZE && packet[0] == NUL && Decode(packet).Good?
    case Servers(list) => IsServerList(list) && list[0] == SLASH && ListEnd(list, 1, 0) == Some(|list|)
  }

  /** The next item of a stream that can be taken, and what comes after it. */
  function NextItem(s: seq<byte>): (r: Option<(Item, seq<byte>)>)
    ensures r.Some? ==> |r.value.1| < |s|
  {
    var t := MaskAll(s);
    if t == [] then None
    else if t[0] == NUL then
      if |t| < PACKET_SIZE || Decode(t[..PACKET_SIZE]).Bad? then None
      else Some((Data(t[..PACKET_SIZE]), s[PACKET_SIZE..]))
    else if t[0] == SLASH then
      var n := ListEnd(t, 1, 0);
      if n.None? || !IsServerList(t[..n.value]) then None
      else Some((Servers(t[..n.value]), s[n.value..]))
    else None
  }

  /** The items that successive reads take, until one fails. */
  function Items(s: seq<byte>): seq<Item>
    decreases |s|
  {
    var next := NextItem(s);
    if next.None? then [] else [next.value.0] + Items(next.value.1)
  }

  // ------------------------------------------------------------- what is sent is read back

  lemma {:induction false} ListEndSame(t: seq<byte>, u: seq<byte>, i: nat, count: nat, n: nat)
    requires i <= n <= |t| && n <= |u| && t[..n] == u[..n] && ListEnd(t, i, count) == Some(n)
    ensures ListEnd(u, i, count) == Some(n)
    decreases n - i
  {
    if count != 4 {
      assert t[i] == t[..n][i] && u[i] == u[..n][i];
      ListEndSame(t, u, i + 1, if t[i] == BACKSLASH then count + 1 else count, n);
    }
  }

  lemma MaskedFront(p: seq<byte>, rest: seq<byte>)
    ensures MaskAll(MaskAll(p) + rest) == p + MaskAll(rest)
    ensures (p + MaskAll(rest))[..|p|] == p && (MaskAll(p) + rest)[|p|..] == rest
  {
  }

  /** An item is read back whole, whatever follows it. */
  lemma NextOfWire(item: Item, rest: seq<byte>)
    requires Relayable(item)
    ensures NextItem(Wire(item) + rest) == Some((item, rest))
  {
    hide Decode;
    var p := Plain(item);
    var s, t := Wire(item) + rest, p + MaskAll(rest);
    MaskedFront(p, rest);
    assert t[..|p|] == p && t[0] == p[0];
    if item.Servers? {
      assert p[..|p|] == p;
      ListEndSame(p, t, 1, 0, |p|);
    }
  }

  /** A cut item is not taken for one. */
  lemma NoItem(item: Item, piece: seq<byte>)
    requires Relayable(item) && piece < Wire(item)
    ensures NextItem(piece) == None
  {
    hide Decode;
    var p, t := Plain(item), MaskAll(piece);
    MaskTwice(p);
    assert t == p[..|t|];
    if t != [] && item.Servers? && ListEnd(t, 1, 0).Some? {
      var n := ListEnd(t, 1, 0).value;
      assert t[..n] == p[..n];
      ListEndSame(t, p, 1, 0, n);
    }
  }

  function Wires(items: seq<Item>): (r: seq<seq<byte>>)
    ensures |r| == |items| && forall i :: 0 <= i < |items| ==> r[i] == Wire(items[i])
  {
    seq(|items|, i requires 0 <= i < |items| => Wire(items[i]))
  }

  ghost predicate AllRelayable(items: seq<Item>) {
    forall i :: 0 <= i < |items| ==> Relayable(items[i])
  }

  lemma FirstWire(items: seq<Item>, piece: seq<byte>)
    requires items != []
    ensures Concat(Wires(items)) + piece == Wire(items[0]) + (Concat(Wires(items[1..])) + piece)
  {
    assert Wires(items)[1..] == Wires(items[1..]);
    ConcatHead(Wires(items));
    hide Concat, Wires;
  }

  /** A stream of items is read back item by item, up to one that is cut. */
  lemma {:induction false} ItemsOfStream(items: seq<Item>, piece: seq<byte>)
    requires AllRelayable(items) && NextItem(piece).None?
    ensures Items(Concat(Wires(items)) + piece) == items
  {
    hide NextItem, Relayable, Concat, Wire;
    if items == [] {
      NoWires();
      assert [] + piece == piece;
    } else {
      ItemsOfStream(items[1..], piece);
      FirstWire(items, piece);
      NextOfWire(items[0], Concat(Wires(items[1..])) + piece);
    }
  }

  lemma NoWires()
    ensures Concat(Wires([])) == []
  {
  }

  // -------------------------------------------------------------------- the program

  /** The state of the reader of a server list: the bytes so far and those to come. */
  ghost predicate ListSoFar(t: seq<byte>, list: seq<byte>, count: nat, lead: seq<byte>) {
    && 1 <= |list| <= PACKET_SIZE && t == list + MaskAll(lead)
    && ListEnd(t, |list|, count) == ListEnd(t, 1, 0)
  }

  lemma ListStep(t: seq<byte>, list: seq<byte>, count: nat, lead: seq<byte>)
    requires ListSoFar(t, list, count, lead) && count < 4 && |list| < PACKET_SIZE
    ensures lead == [] ==> ListEnd(t, 1, 0).None?
    ensures lead != [] ==>
              ListSoFar(t, list + [Mask(lead[0])], if Mask(lead[0]) == BACKSLASH then count + 1 else count, lead[1..])
  {
    ListEndStep(t, |list|, count);
    hide ListEnd, MaskAll, Mask;
    if lead != [] {
      MaskHead(lead);
      OneOver(list, Mask(lead[0]), MaskAll(lead[1..]));
    }
  }

  lemma MaskHead(s: seq<byte>)
    requires s != []
    ensures MaskAll(s) == [Mask(s[0])] + MaskAll(s[1..])
  {
  }

  lemma OneOver(list: seq<byte>, b: byte, rest: seq<byte>)
    ensures list + ([b] + rest) == (list + [b]) + rest && (list + ([b] + rest))[|list|] == b
  {
  }

  lemma ListEndStep(t: seq<byte>, i: nat, count: nat)
    requires i <= |t| && i < PACKET_SIZE && count != 4
    ensures i == |t| ==> ListEnd(t, i, count) == None
    ensures i < |t| ==> ListEnd(t, i, count) == ListEnd(t, i + 1, if t[i] == BACKSLASH then count + 1 else count)
  {
  }

  lemma ListOver(t: seq<byte>, list: seq<byte>, count: nat, lead: seq<byte>)
    requires ListSoFar(t, list, count, lead) && count <= 4 && (count == 4 || |list| == PACKET_SIZE)
    ensures ListEnd(t, 1, 0) == if count == 4 then Some(|list|) else None
    ensures t[..|list|] == list
  {
  }

  /** The rest of a server list, byte by byte. */
  method ReadList(src: Source) returns (status: int, list: seq<byte>)
    requires Proper(src.script)
    modifies src
    ensures Proper(src.script)
    ensures var t := [SLASH] + MaskAll(old(Lead(src.script)));
            && (status == 0 <==> ListEnd(t, 1, 0).Some?)
            && (status == 0 ==>
                  && list == t[..ListEnd(t, 1, 0).value]
                  && t == list + MaskAll(Lead(src.script)) && Stop(src.script) == old(Stop(src.script)))
  {
    hide ListEnd, ListSoFar;
    list := [SLASH];
    var count := 0;
    ghost var t := [SLASH] + MaskAll(Lead(src.script));
    assert ListSoFar(t, list, count, Lead(src.script)) by { ListBegins(t, Lead(src.script)); }
    while count != 4 && |list| < PACKET_SIZE
      invariant Proper(src.script) && Stop(src.script) == old(Stop(src.script))
      invariant 0 <= count <= 4 && 1 <= |list| <= PACKET_SIZE && ListSoFar(t, list, count, Lead(src.script))
      decreases PACKET_SIZE - |list|
    {
      StopIsNoChunk(src.script);
      ListStep(t, list, count, Lead(src.script));
      var n, data, _ := src.ReadM(1);
      if n != 1 {
        return ReadStatus(n), list;
      }
      if Mask(data[0]) == BACKSLASH {
        count := count + 1;
      }
      list := list + [Mask(data[0])];
    }
    ListOver(t, list, count, Lead(src.script));
    ListRead(t, list, count, Lead(src.script));
    status := if count != 4 then 2 else 0;
  }

  lemma ListBegins(t: seq<byte>, lead: seq<byte>)
    requires t == [SLASH] + MaskAll(lead)
    ensures ListSoFar(t, [SLASH], 0, lead)
  {
  }

  lemma ListRead(t: seq<byte>, list: seq<byte>, count: nat, lead: seq<byte>)
    requires ListSoFar(t, list, count, lead)
    ensures t == list + MaskAll(lead)
  {
  }

  lemma RestOfList(s: seq<byte>, list: seq<byte>, lead: seq<byte>)
    requires s != [] && |list| >= 1 && [SLASH] + MaskAll(s[1..]) == list + MaskAll(lead)
    ensures |list| <= |s| && s[|list|..] == lead
  {
    var t := [SLASH] + MaskAll(s[1..]);
    assert |t| == |s| == |list| + |lead|;
    forall i | 0 <= i < |lead| ensures s[|list| + i] == lead[i] {
      assert t[|list| + i] == Mask(lead[i]) && t[|list| + i] == Mask(s[|list| + i]);
    }
  }

  /** bb_readn(): the code of a read that did not give all. */
  function ReadStatus(n: int): (status: int)
    ensures status != 0
  {
    if n == -1 then -1 else if n == -2 then -2 else if n == 0 then -3 else 1
  }

  /** get_emwin_packet_bb() */
  method GetPacketBb(src: Source) returns (status: int, item: Item)
    requires Proper(src.script)
    modifies src
    ensures Proper(src.script)
    ensures status == 0 <==> NextItem(old(Lead(src.script))).Some?
    ensures status == 0 ==> NextItem(old(Lead(src.script))) == Some((item, Lead(src.script)))
    ensures status == 0 ==> Stop(src.script) == old(Stop(src.script))
    ensures var s := old(Lead(src.script));
            && (s == [] ==> status == ShortStatus([], old(Stop(src.script))))
            && (s != [] && Mask(s[0]) == NUL && |s| < PACKET_SIZE ==>
                  status == ShortStatus(s[1..], old(Stop(src.script))))
            && (s != [] && Mask(s[0]) == NUL && |s| >= PACKET_SIZE ==>
                  status == StatusOf(Decode(MaskAll(s[..PACKET_SIZE]))))
            && (s != [] && Mask(s[0]) != NUL && Mask(s[0]) != SLASH ==> status == 2)
  {
    hide Decode;
    item := Data([]);
    StopIsNoChunk(src.script);
    ghost var s := Lead(src.script);
    var n, first, _ := src.ReadM(1);
    if n != 1 {
      status := ReadStatus(n);
      return;
    }
    assert first[0] == s[0] && MaskAll(s)[0] == Mask(s[0]);
    if Mask(first[0]) == NUL {
      StopIsNoChunk(src.script);
      var m, more, _ := src.ReadM(PACKET_SIZE - 1);
      if m != PACKET_SIZE - 1 {
        status := ReadStatus(m);
        return;
      }
      assert first + more == s[..PACKET_SIZE] && s[1..][PACKET_SIZE - 1..] == s[PACKET_SIZE..];
      assert MaskAll(s)[..PACKET_SIZE] == MaskAll(first + more);
      var packet := MaskAll(first + more);
      item := Data(packet);
      DecodeStatus(packet);
      status := StatusOf(Decode(packet));
    } else if Mask(first[0]) == SLASH {
      var list;
      status, list := ReadList(src);
      assert MaskAll(s) == [SLASH] + MaskAll(s[1..]);
      if status != 0 {
        return;
      }
      if !IsServerList(list) {
        status := 2;
        return;
      }
      RestOfList(s, list, Lead(src.script));
      item := Servers(list);
    } else {
      status := 2;
    }
  }

  /** A connection to a network server: its first item only shows that it is there, the others are taken. */
  method ReadServer(src: Source) returns (items: seq<Item>)
    requires Proper(src.script)
    modifies src
    ensures var all := Items(old(Lead(src.script))); items == if all == [] then [] else all[1..]
  {
    hide NextItem, Decode, MaskAll, Mask, ShortStatus;
    ghost var all := Items(Lead(src.script));
    items := [];
    var status, item := GetPacketBb(src);
    assert status == 0 ==> all[1..] == Items(Lead(src.script));
    while status == 0
      invariant status == 0 ==> Proper(src.script) && all != [] && all[1..] == items + Items(Lead(src.script))
      invariant status != 0 ==> items == if all == [] then [] else all[1..]
      decreases if status == 0 then 1 else 0, |Lead(src.script)|
    {
      status, item := GetPacketBb(src);
      if status == 0 {
        items := items + [item];
      }
    }
  }
}
