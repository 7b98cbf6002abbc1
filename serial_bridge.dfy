/** The serial input element: a bridge that writes the bytes read from a
    serial port into its single node. The port itself is outside the model:
    whether the port was permitted and opened is a parameter, and the results
    its reader delivers are a scripted sequence. */
module SerialBridge {
  import opened Circuit
  import opened JsBits

  type Byte = b: int | 0 <= b < 256

  /** What one `await reader.read()` yields: a chunk of bytes, a result with
      no (a falsy) value, the end of the stream, or a rejected read. */
  datatype ReadResult = Chunk(bytes: seq<Byte>) | Absent | Done | Error

  /** `value[0]` of a chunk. For an empty chunk this is `undefined`, which
      the `&` operator converts to 0. */
  function FirstDatum(bytes: seq<Byte>): Byte
  {
    if |bytes| == 0 then 0 else bytes[0]
  }

  /** The value a chunk writes: its first byte masked to the element's width,
      which keeps the low `width % 32` bits of the byte. */
  function Received(bytes: seq<Byte>, width: nat): (r: nat)
    ensures r == FirstDatum(bytes) % Pow2(width % 32)
    ensures 1 <= width <= 31 ==> r < Pow2(width)
    ensures 8 <= width <= 31 && |bytes| > 0 ==> r == bytes[0]
  {
    MaskIsMod(FirstDatum(bytes), width);
    if 1 <= width <= 31 then
      MaskWithinWidth(FirstDatum(bytes), width);
      JsMask(FirstDatum(bytes), width)
    else
      JsMask(FirstDatum(bytes), width)
  }

  /** The node's value after the read loop has consumed `results`, starting
      from `v`: a chunk overwrites the value, a falsy result and an error
      leave it, and the end of the stream stops the loop. */
  function Process(v: Val, width: nat, results: seq<ReadResult>): Val
    decreases |results|
  {
    if results == [] then v
    else match results[0]
      case Done => v
      case Chunk(bytes) => Process(Known(Received(bytes, width)), width, results[1..])
      case Absent => Process(v, width, results[1..])
      case Error => Process(v, width, results[1..])
  }

  /** How many read results the loop takes from `results`. */
  function Consumed(results: seq<ReadResult>): (n: nat)
    ensures n <= |results|
    decreases |results|
  {
    if results == [] then 0
    else if results[0].Done? then 1
    else 1 + Consumed(results[1..])
  }

  /** Reference definition, read from the end: the value written by the
      last chunk in `s`, or `v` when `s` holds no chunk. */
  function LastWrite(v: Val, width: nat, s: seq<ReadResult>): Val
    decreases |s|
  {
    if s == [] then v
    else if s[|s| - 1].Chunk? then Known(Received(s[|s| - 1].bytes, width))
    else LastWrite(v, width, s[..|s| - 1])
  }

  /** The loop takes the results up to and including the first end of the
      stream, and all of them when there is none. */
  lemma {:induction false} ConsumedStopsAtDone(results: seq<ReadResult>)
    ensures forall j :: 0 <= j < Consumed(results) - 1 ==> !results[j].Done?
    ensures Consumed(results) < |results| ==> Consumed(results) >= 1 && results[Consumed(results) - 1].Done?
    ensures (forall j :: 0 <= j < |results| ==> !results[j].Done?) ==> Consumed(results) == |results|
    decreases |results|
  {
    if results != [] && !results[0].Done? {
      ConsumedStopsAtDone(results[1..]);
      assert forall j :: 1 <= j < |results| ==> results[j] == results[1..][j - 1];
    }
  }

  /** An end of the stream ends the loop at once: it writes nothing, and no
      later result is consumed or has any effect. */
  lemma {:induction false} ProcessIgnoresAfterDone(v: Val, width: nat, pre: seq<ReadResult>, post: seq<ReadResult>)
    requires forall j :: 0 <= j < |pre| ==> !pre[j].Done?
    ensures Process(v, width, pre + [Done] + post) == Process(v, width, pre)
    ensures Consumed(pre + [Done] + post) == |pre| + 1
    decreases |pre|
  {
    var s := pre + [Done] + post;
    if pre == [] {
      assert s[0] == Done;
    } else {
      assert s[0] == pre[0];
      assert s[1..] == pre[1..] + [Done] + post;
      var v' := if pre[0].Chunk? then Known(Received(pre[0].bytes, width)) else v;
      ProcessIgnoresAfterDone(v', width, pre[1..], post);
    }
  }

  lemma {:induction false} LastWritePrepend(v: Val, width: nat, r: ReadResult, s: seq<ReadResult>)
    ensures LastWrite(v, width, [r] + s) ==
      LastWrite(if r.Chunk? then Known(Received(r.bytes, width)) else v, width, s)
    decreases |s|
  {
    var t := [r] + s;
    if s != [] {
      assert t[|t| - 1] == s[|s| - 1];
      if !s[|s| - 1].Chunk? {
        assert t[..|t| - 1] == [r] + s[..|s| - 1];
        LastWritePrepend(v, width, r, s[..|s| - 1]);
      }
    }
  }

  /** The loop leaves the value written by the last chunk it consumed, or
      the value it started with when it consumed no chunk. */
  lemma {:induction false} ProcessIsLastWrite(v: Val, width: nat, results: seq<ReadResult>)
    ensures Process(v, width, results) == LastWrite(v, width, results[..Consumed(results)])
    decreases |results|
  {
    if results != [] {
      if results[0].Done? {
        assert results[..1] == [Done];
        assert results[..1][..0] == [];
      } else {
        var v' := if results[0].Chunk? then Known(Received(results[0].bytes, width)) else v;
        var tail := results[1..];
        var pre := tail[..Consumed(tail)];
        assert Process(v, width, results) == Process(v', width, tail);
        assert results[..Consumed(results)] == [results[0]] + pre;
        ProcessIsLastWrite(v', width, tail);
        LastWritePrepend(v, width, results[0], pre);
      }
    }
  }

  /** For the widths 1 to 31, the loop either leaves the value it started
      with or leaves a value below 2^width. */
  lemma {:induction false} ProcessWithinWidth(v: Val, width: nat, results: seq<ReadResult>)
    requires 1 <= width <= 31
    ensures Process(v, width, results) == v ||
      (Process(v, width, results).Known? && Process(v, width, results).n < Pow2(width))
    decreases |results|
  {
    if results != [] && !results[0].Done? {
      if results[0].Chunk? {
        var w := Known(Received(results[0].bytes, width));
        ProcessWithinWidth(w, width, results[1..]);
      } else {
        ProcessWithinWidth(v, width, results[1..]);
      }
    }
  }

  /** The save record: the node and the constructor parameters. */
  datatype SerialSave = SerialSave(sIn: Node, constructorParamaters: seq<Param>)

  class SerialInput {
    var direction: Direction
    var bitWidth: nat
    var sIn: Node
    var wasAllowed: bool

    /** The node's width follows the element's. */
    ghost predicate Valid()
      reads this, sIn
    {
      sIn.bitWidth == bitWidth
    }

    /** A new element is not connected and its node carries no value. */
    constructor (direction: Direction, bitWidth: nat)
      requires bitWidth >= 1
      ensures Valid() && fresh(sIn)
      ensures this.direction == direction && this.bitWidth == bitWidth
      ensures sIn.value == Unknown && !wasAllowed
    {
      this.direction := direction;
      this.bitWidth := bitWidth;
      sIn := new Node(bitWidth);
      wasAllowed := false;
    }

    /** The outcome of asking for a port and opening it. Only when both
        succeed does the element become connected and start its read loop;
        a refusal or a failed open changes nothing and writes no value. */
    method Connect(permitted: bool, portOpened: bool, results: seq<ReadResult>) returns (consumed: nat)
      modifies this`wasAllowed, sIn
      ensures wasAllowed == (old(wasAllowed) || (permitted && portOpened))
      ensures !(permitted && portOpened) ==> consumed == 0 && sIn.value == old(sIn.value)
      ensures permitted && portOpened ==>
        consumed == Consumed(results) && sIn.value == Process(old(sIn.value), bitWidth, results)
      ensures sIn.bitWidth == old(sIn.bitWidth)
    {
      consumed := 0;
      if permitted && portOpened {
        wasAllowed := true;
        consumed := ReadSerialData(results);
      }
    }

    /** Never resolved from the normal propagation pass: the node is written
        by the read loop instead. */
    function IsResolvable(): (r: bool)
      ensures !r
    {
      false
    }

    /** Sets the element's width and its node's width, so that later results
        are masked to `w`. The value already on the node is not re-masked. */
    method NewBitWidth(w: nat)
      modifies this`bitWidth, sIn
      ensures Valid()
      ensures bitWidth == w && sIn.bitWidth == w
      ensures sIn.value == old(sIn.value)
    {
      bitWidth := w;
      sIn.bitWidth := w;
    }

    /** Enqueues the node once and changes no value. */
    method Resolve(q: SimulationQueue)
      modifies q
      ensures q.added == old(q.added) + [sIn]
    {
      q.Add(sIn);
    }

    /** The read loop, run while the element is connected. Each result is
        taken in turn: the end of the stream stops the loop, a rejected read
        is skipped, a falsy value writes nothing, and a chunk writes its
        first byte masked to the element's width. The loop returns how many
        results it took; it also stops when the script runs out. */
    method ReadSerialData(results: seq<ReadResult>) returns (consumed: nat)
      modifies sIn
      ensures consumed == if wasAllowed then Consumed(results) else 0
      ensures sIn.value == if wasAllowed then Process(old(sIn.value), bitWidth, results) else old(sIn.value)
      ensures sIn.bitWidth == old(sIn.bitWidth)
    {
      consumed := 0;
      while wasAllowed && consumed < |results|
        invariant 0 <= consumed <= |results|
        invariant wasAllowed ==>
          Process(old(sIn.value), bitWidth, results) == Process(sIn.value, bitWidth, results[consumed..]) &&
          Consumed(results) == consumed + Consumed(results[consumed..])
        invariant !wasAllowed ==> consumed == 0 && sIn.value == old(sIn.value)
        invariant sIn.bitWidth == old(sIn.bitWidth)
        decreases |results| - consumed
      {
        var result := results[consumed];
        if result.Done? {
          consumed := consumed + 1;
          break;
        }
        assert results[consumed..][1..] == results[consumed + 1..];
        if result.Chunk? {
          sIn.value := Known(Received(result.bytes, bitWidth));
        }
        consumed := consumed + 1;
      }
    }

    /** The save record. Its parameters are the direction and the width,
        which is the node's width too. */
    function CustomSave(): (r: SerialSave)
      reads this, sIn
      ensures r.sIn == sIn
      ensures r.constructorParamaters == [DirParam(direction), NumParam(bitWidth)]
      ensures Valid() ==> r.constructorParamaters[1] == NumParam(r.sIn.bitWidth)
    {
      SerialSave(sIn, [DirParam(direction), NumParam(bitWidth)])
    }
  }
}
