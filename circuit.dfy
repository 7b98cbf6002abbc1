/** Vocabulary the two circuit elements share with the rest of the simulator:
    signal values, value nodes, element directions, save-record parameters
    and the scheduler's queue. Nodes and the queue belong to the simulator
    and are modelled only as far as the elements use them. */
module Circuit {

  datatype Option<T> = None | Some(value: T)

  /** The value a node or a register cell carries. JavaScript leaves both
      `undefined` until something writes them; that is `Unknown` here, and
      it is distinct from every number under `===`. */
  datatype Val = Unknown | Known(n: nat)

  datatype Direction = Up | Down | Left | Right

  /** One entry of a save record's `constructorParamaters` list. */
  datatype Param = DirParam(dir: Direction) | NumParam(num: int)

  /** A value node: its value and its bit width are all an element touches.
      A fresh node carries no value yet. */
  class Node {
    var value: Val
    var bitWidth: nat

    constructor (bitWidth: nat)
      ensures value == Unknown && this.bitWidth == bitWidth
    {
      value := Unknown;
      this.bitWidth := bitWidth;
    }
  }

  /** The values carried by a sequence of nodes, index by index. */
  function Values(nodes: seq<Node>): (r: seq<Val>)
    reads nodes
    ensures |r| == |nodes|
    ensures forall i :: 0 <= i < |nodes| ==> r[i] == nodes[i].value
  {
    seq(|nodes|, i reads nodes requires 0 <= i < |nodes| => nodes[i].value)
  }

  /** The scheduler's queue, reduced to the log of the nodes handed to its
      `add` operation, in call order. */
  class SimulationQueue {
    var added: seq<Node>

    constructor ()
      ensures added == []
    {
      added := [];
    }

    method Add(n: Node)
      modifies this
      ensures added == old(added) + [n]
    {
      added := added + [n];
    }
  }
}
