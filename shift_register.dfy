/** The shift register element: a clocked register of `noOfStages` cells
    with reset, parallel load and serial shift, acting on a rising clock
    edge. The pure functions give the register's next contents; the class
    holds the element's state and nodes and updates them in place. */
module ShiftRegister {
  import opened Circuit

  /** The most stages the stage-count editor accepts. */
  const MAX_STAGES: int := 32

  /** A rising edge: the previous clock sample was exactly 0 and the current
      one is exactly 1. An unknown sample is neither. */
  predicate RisingEdge(lastClk: Val, clk: Val)
  {
    lastClk == Known(0) && clk == Known(1)
  }

  function Zeros(n: nat): seq<Val>
  {
    seq(n, _ => Known(0))
  }

  /** One serial shift: `x` enters stage 0 and the last stage falls off. */
  function Shift(cell: seq<Val>, x: Val): seq<Val>
    requires |cell| >= 1
  {
    ([x] + cell)[..|cell|]
  }

  /** The register's contents after a rising edge, given the control values
      and the input values sampled at that edge. */
  function NextCell(cell: seq<Val>, reset: Val, shiftLoad: Val, inputs: seq<Val>): seq<Val>
    requires 1 <= |cell| && |inputs| == |cell|
  {
    if reset == Known(1) then Zeros(|cell|)
    else if shiftLoad == Known(1) then inputs
    else Shift(cell, inputs[0])
  }

  /** The three actions of an edge, in priority order: reset clears every
      stage whatever the other controls are; otherwise load copies every
      input; otherwise input 0 is shifted in and the old stages move up by
      one. The register keeps its length in every case. */
  lemma NextCellActions(cell: seq<Val>, reset: Val, shiftLoad: Val, inputs: seq<Val>)
    requires 1 <= |cell| && |inputs| == |cell|
    ensures |NextCell(cell, reset, shiftLoad, inputs)| == |cell|
    ensures reset == Known(1) ==>
      forall i :: 0 <= i < |cell| ==> NextCell(cell, reset, shiftLoad, inputs)[i] == Known(0)
    ensures reset != Known(1) && shiftLoad == Known(1) ==>
      forall i :: 0 <= i < |cell| ==> NextCell(cell, reset, shiftLoad, inputs)[i] == inputs[i]
    ensures reset != Known(1) && shiftLoad != Known(1) ==>
      NextCell(cell, reset, shiftLoad, inputs) == Shift(cell, inputs[0]) &&
      NextCell(cell, reset, shiftLoad, inputs)[0] == inputs[0] &&
      forall i :: 1 <= i < |cell| ==> NextCell(cell, reset, shiftLoad, inputs)[i] == cell[i - 1]
  {
  }

  /** The register after one shift edge per element of `xs`, taken in order. */
  function ShiftRun(cell: seq<Val>, xs: seq<Val>): seq<Val>
    requires |cell| >= 1
    decreases |xs|
  {
    if xs == [] then cell else ShiftRun(Shift(cell, xs[0]), xs[1..])
  }

  /** After shifting in `xs`, stage i holds the i-th most recent input while
      there is one, and the old contents moved up by |xs| stages beyond. */
  lemma {:induction false} ShiftRunHistory(cell: seq<Val>, xs: seq<Val>)
    requires |cell| >= 1
    ensures |ShiftRun(cell, xs)| == |cell|
    ensures forall i :: 0 <= i < |cell| ==>
      ShiftRun(cell, xs)[i] == if i < |xs| then xs[|xs| - 1 - i] else cell[i - |xs|]
    decreases |xs|
  {
    if xs != [] {
      var next, ys := Shift(cell, xs[0]), xs[1..];
      ShiftRunHistory(next, ys);
      assert ShiftRun(cell, xs) == ShiftRun(next, ys);
      forall i | 0 <= i < |cell|
        ensures ShiftRun(cell, xs)[i] == if i < |xs| then xs[|xs| - 1 - i] else cell[i - |xs|]
      {
        if i < |ys| {
          assert ys[|ys| - 1 - i] == xs[|xs| - 1 - i];
        } else if i > |ys| {
          assert next[i - |ys|] == cell[i - |xs|];
        }
      }
    }
  }

  /** A first-in first-out register: after at least `noOfStages` shift edges
      it holds the last `noOfStages` inputs, newest first. */
  lemma ShiftRunKeepsLastInputs(cell: seq<Val>, xs: seq<Val>)
    requires 1 <= |cell| <= |xs|
    ensures |ShiftRun(cell, xs)| == |cell|
    ensures forall i :: 0 <= i < |cell| ==> ShiftRun(cell, xs)[i] == xs[|xs| - 1 - i]
  {
    ShiftRunHistory(cell, xs);
  }

  /** The save record: the control and output nodes, the register contents
      and the constructor parameters. The input nodes are not recorded. */
  datatype ShifterSave = ShifterSave(
    reset: Node, shiftLoad: Node, clk: Node, out: seq<Node>,
    cell: seq<Val>, constructorParamaters: seq<Param>)

  class Shifter {
    var direction: Direction
    var bitWidth: nat
    var noOfStages: nat
    var reset: Node
    var shiftLoad: Node
    var clk: Node
    var inp: seq<Node>
    var out: seq<Node>
    var cell: seq<Val>
    var lastClk: Val

    /** The element's width is 1; cells, inputs and outputs are index-aligned
        with one entry per stage; every node is its own object: the outputs
        are pairwise distinct, the inputs are pairwise distinct, no input is
        an output, no data node is a control, and the three controls are
        distinct. */
    ghost predicate Valid()
      reads this
    {
      bitWidth == 1 && noOfStages >= 1 &&
      |cell| == noOfStages && |inp| == noOfStages && |out| == noOfStages &&
      reset != shiftLoad && reset != clk && shiftLoad != clk &&
      (forall i, j :: 0 <= i < j < |out| ==> out[i] != out[j]) &&
      (forall i, j :: 0 <= i < j < |inp| ==> inp[i] != inp[j]) &&
      (forall i, j :: 0 <= i < |inp| && 0 <= j < |out| ==> inp[i] != out[j]) &&
      (forall j :: 0 <= j < |out| ==> out[j] != reset && out[j] != shiftLoad && out[j] != clk) &&
      (forall j :: 0 <= j < |inp| ==> inp[j] != reset && inp[j] != shiftLoad && inp[j] != clk)
    }

    /** The `bitWidth` argument is ignored: the base element is always given
        width 1. Outputs start at 1, inputs and cells carry no value yet, and
        the last clock sample is 0. */
    constructor (direction: Direction, bitWidth: nat, noOfStages: nat)
      requires noOfStages >= 1
      ensures Valid()
      ensures this.direction == direction && this.bitWidth == 1 && this.noOfStages == noOfStages
      ensures cell == seq(noOfStages, _ => Unknown) && lastClk == Known(0)
      ensures fresh(reset) && fresh(shiftLoad) && fresh(clk)
      ensures reset.value == Unknown && shiftLoad.value == Unknown && clk.value == Unknown
      ensures reset.bitWidth == 1 && shiftLoad.bitWidth == 1 && clk.bitWidth == 1
      ensures forall i :: 0 <= i < noOfStages ==>
        fresh(inp[i]) && inp[i].value == Unknown && inp[i].bitWidth == 1
      ensures forall i :: 0 <= i < noOfStages ==>
        fresh(out[i]) && out[i].value == Known(1) && out[i].bitWidth == 1
    {
      var r := new Node(1);
      var sl := new Node(1);
      var c := new Node(1);
      var ins: seq<Node> := [];
      var outs: seq<Node> := [];
      var i := 0;
      while i < noOfStages
        invariant 0 <= i <= noOfStages && |ins| == i && |outs| == i
        invariant r.value == Unknown && sl.value == Unknown && c.value == Unknown
        invariant r.bitWidth == 1 && sl.bitWidth == 1 && c.bitWidth == 1
        invariant forall j :: 0 <= j < i ==> fresh(ins[j]) && ins[j].value == Unknown && ins[j].bitWidth == 1
        invariant forall j :: 0 <= j < i ==> fresh(outs[j]) && outs[j].value == Known(1) && outs[j].bitWidth == 1
        invariant forall j, k :: 0 <= j < k < i ==> outs[j] != outs[k]
        invariant forall j, k :: 0 <= j < k < i ==> ins[j] != ins[k]
        invariant forall j, k :: 0 <= j < i && 0 <= k < i ==> ins[j] != outs[k]
        invariant forall j :: 0 <= j < i ==> outs[j] != r && outs[j] != sl && outs[j] != c
        invariant forall j :: 0 <= j < i ==> ins[j] != r && ins[j] != sl && ins[j] != c
      {
        var a := new Node(1);
        var b := new Node(1);
        b.value := Known(1);
        ins := ins + [a];
        outs := outs + [b];
        i := i + 1;
      }
      this.direction := direction;
      this.bitWidth := 1;
      this.noOfStages := noOfStages;
      reset, shiftLoad, clk := r, sl, c;
      inp, out := ins, outs;
      cell := seq(noOfStages, _ => Unknown);
      lastClk := Known(0);
    }

    function IsResolvable(): (r: bool)
      ensures r
    {
      true
    }

    /** One simulation step. On a rising edge the register takes its next
        contents and every output is written and enqueued, in index order,
        whether its value changed or not; otherwise neither the register nor
        any output changes and nothing is enqueued. In both cases the clock
        sample, known or not, becomes the last clock sample. */
    method Resolve(q: SimulationQueue)
      requires Valid()
      modifies this`cell, this`lastClk, out, q
      ensures Valid()
      ensures lastClk == old(clk.value)
      ensures cell == if RisingEdge(old(lastClk), old(clk.value))
        then NextCell(old(cell), old(reset.value), old(shiftLoad.value), old(Values(inp)))
        else old(cell)
      ensures RisingEdge(old(lastClk), old(clk.value)) ==>
        q.added == old(q.added) + out && forall i :: 0 <= i < |out| ==> out[i].value == cell[i]
      ensures !RisingEdge(old(lastClk), old(clk.value)) ==>
        q.added == old(q.added) && forall i :: 0 <= i < |out| ==> out[i].value == old(out[i].value)
      ensures forall i :: 0 <= i < |out| ==> out[i].bitWidth == old(out[i].bitWidth)
      ensures forall j :: 0 <= j < |inp| ==> inp[j].value == old(inp[j].value)
      ensures reset.value == old(reset.value) && shiftLoad.value == old(shiftLoad.value)
      ensures clk.value == old(clk.value)
    {
      var clkValue := clk.value;
      if lastClk == Known(0) && clkValue == Known(1) {
        ApplyEdge();
        WriteOutputs(q);
      }
      lastClk := clkValue;
    }

    /** The action of a rising edge on the register: reset, else parallel
        load, else shift. */
    method ApplyEdge()
      requires Valid()
      modifies this`cell
      ensures Valid()
      ensures cell == NextCell(old(cell), reset.value, shiftLoad.value, Values(inp))
    {
      if reset.value == Known(1) {
        cell := Zeros(|cell|);
      } else if shiftLoad.value == Known(1) {
        var i := 0;
        while i < noOfStages
          invariant 0 <= i <= noOfStages && |cell| == noOfStages
          invariant forall j :: 0 <= j < i ==> cell[j] == inp[j].value
          invariant forall j :: i <= j < noOfStages ==> cell[j] == old(cell[j])
        {
          cell := cell[i := inp[i].value];
          i := i + 1;
        }
        assert cell == Values(inp);
      } else {
        cell := [inp[0].value] + cell;
        cell := cell[..noOfStages];
      }
    }

    /** Writes every stage to its output node and enqueues that node, in
        index order, whether or not its value changed. */
    method WriteOutputs(q: SimulationQueue)
      requires Valid()
      modifies out, q
      ensures q.added == old(q.added) + out
      ensures forall i :: 0 <= i < |out| ==> out[i].value == cell[i]
      ensures forall i :: 0 <= i < |out| ==> out[i].bitWidth == old(out[i].bitWidth)
      ensures forall j :: 0 <= j < |inp| ==> inp[j].value == old(inp[j].value)
      ensures reset.value == old(reset.value) && shiftLoad.value == old(shiftLoad.value)
      ensures clk.value == old(clk.value)
    {
      var i := 0;
      while i < noOfStages
        invariant 0 <= i <= noOfStages
        invariant forall j :: 0 <= j < i ==> out[j].value == cell[j]
        invariant q.added == old(q.added) + out[..i]
        invariant forall j :: 0 <= j < noOfStages ==> out[j].bitWidth == old(out[j].bitWidth)
        invariant forall j :: 0 <= j < noOfStages ==> inp[j].value == old(inp[j].value)
        invariant reset.value == old(reset.value) && shiftLoad.value == old(shiftLoad.value)
        invariant clk.value == old(clk.value)
      {
        out[i].value := cell[i];
        q.Add(out[i]);
        i := i + 1;
      }
      assert out[..noOfStages] == out;
    }

    /** Gives every input and output node the new width; node values, the
        control nodes and the element's own width stay as they were. */
    method NewBitWidth(w: nat)
      requires Valid()
      modifies inp, out
      ensures forall i :: 0 <= i < noOfStages ==> inp[i].bitWidth == w && out[i].bitWidth == w
      ensures forall i :: 0 <= i < noOfStages ==>
        inp[i].value == old(inp[i].value) && out[i].value == old(out[i].value)
      ensures reset.bitWidth == old(reset.bitWidth) && shiftLoad.bitWidth == old(shiftLoad.bitWidth)
      ensures clk.bitWidth == old(clk.bitWidth)
      ensures reset.value == old(reset.value) && shiftLoad.value == old(shiftLoad.value)
      ensures clk.value == old(clk.value)
    {
      var i := 0;
      while i < noOfStages
        invariant 0 <= i <= noOfStages
        invariant forall j :: 0 <= j < i ==> inp[j].bitWidth == w && out[j].bitWidth == w
        invariant forall j :: 0 <= j < noOfStages ==>
          inp[j].value == old(inp[j].value) && out[j].value == old(out[j].value)
        invariant reset.bitWidth == old(reset.bitWidth) && shiftLoad.bitWidth == old(shiftLoad.bitWidth)
        invariant clk.bitWidth == old(clk.bitWidth)
        invariant reset.value == old(reset.value) && shiftLoad.value == old(shiftLoad.value)
        invariant clk.value == old(clk.value)
      {
        inp[i].bitWidth := w;
        out[i].bitWidth := w;
        i := i + 1;
      }
    }

    /** The save record. Its bit width parameter is always 1, and it holds
        one register cell per output node. */
    function CustomSave(): (r: ShifterSave)
      reads this
      ensures r.reset == reset && r.shiftLoad == shiftLoad && r.clk == clk && r.out == out
      ensures r.cell == cell
      ensures |r.constructorParamaters| == 3
      ensures r.constructorParamaters[0] == DirParam(direction)
      ensures r.constructorParamaters[2] == NumParam(noOfStages)
      ensures Valid() ==> r.constructorParamaters[1] == NumParam(1) && |r.cell| == |r.out| == noOfStages
    {
      ShifterSave(reset, shiftLoad, clk, out, cell,
                  [DirParam(direction), NumParam(bitWidth), NumParam(noOfStages)])
    }

    /** A missing count, one outside 1..32 or the current count is refused
        and nothing changes. Any other count yields a brand-new element with
        that many stages, all cells unknown and the last clock sample 0. The
        new element is built from the `dir` property, which this element
        never sets, so it gets the default direction `Down`. */
    method ChangeNumberofStages(k: Option<int>) returns (r: Option<Shifter>)
      ensures r.None? <==>
        (k.None? || k.value < 1 || k.value > MAX_STAGES || k.value == noOfStages)
      ensures r.Some? ==>
        fresh(r.value) && r.value.Valid() &&
        r.value.noOfStages == k.value && r.value.bitWidth == 1 && r.value.direction == Down &&
        r.value.lastClk == Known(0) &&
        (forall i :: 0 <= i < k.value ==> r.value.cell[i] == Unknown) &&
        (forall i :: 0 <= i < k.value ==> r.value.out[i].value == Known(1))
      ensures r.Some? ==>
        fresh(r.value.reset) && fresh(r.value.shiftLoad) && fresh(r.value.clk) &&
        r.value.reset.value == Unknown && r.value.shiftLoad.value == Unknown &&
        r.value.clk.value == Unknown &&
        (forall i :: 0 <= i < k.value ==> fresh(r.value.inp[i]) && r.value.inp[i].value == Unknown) &&
        (forall i :: 0 <= i < k.value ==> fresh(r.value.out[i]))
      ensures r.Some? ==>
        r.value.reset.bitWidth == 1 && r.value.shiftLoad.bitWidth == 1 && r.value.clk.bitWidth == 1 &&
        (forall i :: 0 <= i < k.value ==> r.value.inp[i].bitWidth == 1 && r.value.out[i].bitWidth == 1)
    {
      if k.None? || k.value < 1 || k.value > MAX_STAGES {
        return None;
      }
      if noOfStages == k.value {
        return None;
      }
      var obj := new Shifter(Down, bitWidth, k.value);
      r := Some(obj);
    }
  }
}
