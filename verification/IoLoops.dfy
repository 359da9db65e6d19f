/** The read and write loops of nreadn.c over a descriptor that may deliver any number of bytes at a time. */
module IoLoops {
  import opened Bytes

  /** What one poll and read give: some bytes, a time-out, end of file or an error. */
  datatype ReadEvent = Chunk(bytes: seq<byte>) | Timeout | Eof | Failed

  ghost predicate Proper(script: seq<ReadEvent>) {
    forall i :: 0 <= i < |script| && script[i].Chunk? ==> script[i].bytes != []
  }

  /** The bytes that arrive before the first interruption. */
  function Lead(script: seq<ReadEvent>): seq<byte> {
    if script == [] || !script[0].Chunk? then [] else script[0].bytes + Lead(script[1..])
  }

  /** The first interruption; a script that ends does so with end of file. */
  function Stop(script: seq<ReadEvent>): ReadEvent {
    if script == [] then Eof else if script[0].Chunk? then Stop(script[1..]) else script[0]
  }

  class Source {
    var script: seq<ReadEvent>

    constructor (script: seq<ReadEvent>)
      ensures this.script == script
    {
      this.script := script;
    }

    /** read1(): at most `size` bytes of what is there; 0 end of file, -1 error, -2 time-out. */
    method Read1(size: nat) returns (n: int, data: seq<byte>)
      requires Proper(script) && size > 0
      modifies this
      ensures Proper(script)
      ensures n > 0 ==> |data| == n <= size && old(Lead(script)) == data + Lead(script)
      ensures n > 0 ==> Stop(script) == old(Stop(script))
      ensures n <= 0 ==> old(Lead(script)) == [] && data == []
      ensures n == 0 <==> old(Lead(script)) == [] && old(Stop(script)) == Eof
      ensures n == -1 <==> old(Lead(script)) == [] && old(Stop(script)) == Failed
      ensures n == -2 <==> old(Lead(script)) == [] && old(Stop(script)) == Timeout
      ensures n == 0 ==> script == old(script)
      ensures n >= -2
    {
      if script == [] {
        return 0, [];
      }
      ghost var was := script;
      match script[0] {
        case Chunk(bytes) =>
          assert bytes != [];
          if |bytes| <= size {
            n, data := |bytes|, bytes;
            script := script[1..];
          } else {
            n, data := size, bytes[..size];
            script := [Chunk(bytes[size..])] + script[1..];
            assert script[1..] == was[1..];
            assert bytes == data + bytes[size..];
          }
        case Timeout =>
          n, data := -2, [];
          script := script[1..];
        case Eof =>
          n, data := 0, [];
        case Failed =>
          n, data := -1, [];
          script := script[1..];
      }
    }

    /**
     sreadm(): the outcome depends only on the bytes before the first interruption and on what that
     interruption is, never on how the bytes were chopped.
     */
    method ReadM(size: nat) returns (n: int, data: seq<byte>, eof: bool)
      requires Proper(script)
      modifies this
      ensures Proper(script)
      ensures size <= |old(Lead(script))| ==>
        && n == size && data == old(Lead(script))[..size] && Lead(script) == old(Lead(script))[size..]
        && Stop(script) == old(Stop(script)) && !eof
      ensures size > |old(Lead(script))| ==>
        match old(Stop(script))
        case Eof => n == |old(Lead(script))| && data == old(Lead(script)) && eof
        case Timeout =>
          n == (if old(Lead(script)) == [] then -2 else |old(Lead(script))|) && data == old(Lead(script)) && !eof
        case _ => n == -1
    {
      data, eof := [], false;
      ghost var all := Lead(script);
      var i := 0;
      while i < size
        invariant Proper(script)
        invariant i == |data| <= size && all == data + Lead(script)
        invariant Stop(script) == old(Stop(script))
        decreases size - i
      {
        var k, more := Read1(size - i);
        if k < 0 {
          StopIsNoChunk(old(script));
          if k == -2 && i > 0 {
            break;
          }
          return k, data, false;
        } else if k == 0 {
          eof := true;
          break;
        }
        assert data + (more + Lead(script)) == data + more + Lead(script);
        data := data + more;
        i := i + k;
      }
      n := i;
    }
  }

  lemma {:induction false} StopIsNoChunk(script: seq<ReadEvent>)
    ensures !Stop(script).Chunk?
  {
    if script != [] && script[0].Chunk? {
      StopIsNoChunk(script[1..]);
    }
  }

  /** The bytes taken by the writes before the first one that takes none. */
  function Accepted(results: seq<int>): nat {
    if results == [] || results[0] <= 0 then 0 else results[0] + Accepted(results[1..])
  }

  /** What that write returned; after the last result nothing more is taken. */
  function Refusal(results: seq<int>): int {
    if results == [] then 0 else if results[0] <= 0 then results[0] else Refusal(results[1..])
  }

  /**
   writem(): `results` holds what each write1 would return: the bytes taken, 0 on a time-out, -1 on
   an error. `taken` is what reached the descriptor.
   */
  method WriteM(buf: seq<byte>, results: seq<int>) returns (n: int, taken: seq<byte>)
    requires forall i :: 0 <= i < |results| ==> -1 <= results[i]
    ensures taken == if Accepted(results) < |buf| then buf[..Accepted(results)] else buf
    ensures n == if Accepted(results) < |buf| && Refusal(results) == -1 then -1 else |taken|
  {
    var i, call := 0, 0;
    while i < |buf|
      invariant 0 <= i <= |buf| && 0 <= call <= |results|
      invariant i < |buf| ==> Accepted(results) == i + Accepted(results[call..])
      invariant i == |buf| ==> Accepted(results) >= |buf|
      invariant Refusal(results) == Refusal(results[call..])
      decreases |results| - call
    {
      if call == |results| {
        break;
      }
      var k := results[call];
      assert results[call..][1..] == results[call + 1..];
      if k == -1 {
        return -1, buf[..i];
      } else if k == 0 {
        break;
      }
      call := call + 1;
      i := if k <= |buf| - i then i + k else |buf|;
    }
    return i, buf[..i];
  }
}
