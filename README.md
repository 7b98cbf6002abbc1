# Shifter and SerialInput: a verified model of two simulator elements

This project models two circuit elements of an event-driven logic simulator
and proves what their step logic does.

- **Shifter** is a clocked shift register with `noOfStages` cells. It has
  three 1-bit control inputs (`reset`, `shiftLoad`, `clk`) and one input node
  and one output node per stage. When the clock rises from exactly 0 to
  exactly 1, it runs one action, in priority order: reset clears the
  register to zeros, load copies every input, and otherwise input 0 is
  shifted in. Every output is then written and enqueued with the scheduler.
  Every call stores the clock sample for the next edge test. Changing the
  stage count builds a new element.
- **SerialInput** is a bridge from a serial port into one node, `sIn`.
  Once the port is granted and opened, a read loop takes results from the
  port's reader. A chunk writes its first byte, masked to the element's bit
  width. A falsy value or a read error writes nothing. The end of the stream
  stops the loop. The element is never resolvable. Its `resolve` only
  enqueues its node.

Files:

- `circuit.dfy` (module `Circuit`): shared vocabulary. `Val` is a node or
  cell value, where `Unknown` stands for JavaScript's `undefined`. The module
  also holds the `Node` class, the `SimulationQueue` (the scheduler, reduced
  to a log of `add` calls), directions and save-record parameters.
- `js_bits.dfy` (module `JsBits`): JavaScript's 32-bit `<<` and `&`. It
  computes `data & ((1 << width) - 1)` exactly as JavaScript does, and proves
  that for a byte the result is `byte mod 2^(width % 32)`.
- `shift_register.dfy` (module `ShiftRegister`): the register's next-state
  function `NextCell`, the multi-edge run `ShiftRun` with its lemmas, and the
  class `Shifter`.
- `serial_bridge.dfy` (module `SerialBridge`): the read-loop specification.
  `Process` gives the resulting value and `Consumed` the number of results
  taken. `LastWrite` is an independent reference, read from the end. The
  module also holds the class `SerialInput`.

The state that the source updates in place is a class with fields:
`Shifter.cell`, `Shifter.lastClk`, the nodes' `value` and `bitWidth`,
`SerialInput.bitWidth` and `SerialInput.wasAllowed`. The loops of the
source (parallel load, output writing, `newBitWidth`, the read loop) are
`while` loops. The parallel-load loop is proved against `NextCell` and the
read loop against `Process` and `Consumed`, which are pure functions of the
old state. The output-writing loop and the `newBitWidth` loops are proved
directly against their `ensures`, which state each node's new value or
width and what stays unchanged.

Behaviour the code has that a reader might not expect, modelled as the
code has it:

- `Shifter` always has element width 1. Its constructor passes
  `bitWidth = 1` to the base class, whatever argument it was given
  (Shifter.js:11). `newBitWidth` never changes that width, so the saved
  bit-width parameter is always 1.
- Output nodes start with value 1. Cells and input nodes start unknown
  (Shifter.js:40, 45).
- Values copied into the register or onto the outputs are not masked.
- `changeNumberofStages` builds the new element from `this.dir`
  (Shifter.js:169). That property is never assigned in Shifter.js, where
  the direction lives in `direction` (Shifter.js:161). So JavaScript's
  default parameter `'DOWN'` applies. The model's new element faces `Down`,
  not the old element's direction. The base element class is not part of
  this model. If it defined `dir`, the direction would carry over.
- Changing the stage count resets every node width to 1. The new element
  is built with width 1 (Shifter.js:11), its data nodes take that width
  (Shifter.js:36, 39) and its controls are width 1 (Shifter.js:31-33). So a
  width set earlier by `newBitWidth` does not carry over.
- The Shifter save record holds the control and output nodes but no input
  nodes (Shifter.js:152-157).
- At the end of the stream the read loop breaks, but it does not clear
  `wasAllowed` (SerialInput.js:65-67).
- Neither element's `newBitWidth` re-masks a value already stored.
- The mask follows JavaScript's shift semantics. The shift count is taken
  modulo 32, so at width 32 the mask is 0 and every byte is stored as 0
  (`JsBits.MaskAtWidth32`). At width 31, `1 << 31` is negative, but the
  `- 1` turns it into the 31-bit mask again.
- An empty chunk is truthy. Its `value[0]` is `undefined`, and
  `undefined & mask` is 0, so the model writes 0 (`SerialBridge.FirstDatum`).

## Model

| member | source | states |
|---|---|---|
| `ShiftRegister.Shifter.constructor` | src/simulator/src/modules/Shifter.js:10-46 | element width 1 whatever the argument; one input and one output node per stage; every node fresh, and all of them (inputs, outputs and the three controls) pairwise distinct; width 1; outputs start at 1, inputs, controls and cells unknown; last clock sample 0 |
| `ShiftRegister.Shifter.IsResolvable` | src/simulator/src/modules/Shifter.js:113-115 | always resolvable |
| `ShiftRegister.Shifter.Resolve` | src/simulator/src/modules/Shifter.js:117-141 | on a rising edge (last sample exactly 0, clock exactly 1) the register becomes `NextCell` of the old contents, controls and inputs, every output equals its cell and the queue gains exactly the outputs in index order, changed or not; with no edge the register and outputs are unchanged and nothing is enqueued; in every case the sample (even unknown) becomes `lastClk`, inputs and controls are untouched, output widths are kept, and the length and distinctness invariant is kept |
| `ShiftRegister.Shifter.ApplyEdge` | src/simulator/src/modules/Shifter.js:122-133 | the register after the edge action equals `NextCell` (the parallel-load loop copies every input) |
| `ShiftRegister.Shifter.WriteOutputs` | src/simulator/src/modules/Shifter.js:135-138 | every output node takes its cell's value and is enqueued once, in order; output widths, inputs and controls unchanged |
| `ShiftRegister.NextCellActions` | src/simulator/src/modules/Shifter.js:122-133 | reset gives all zeros whatever load and inputs are; otherwise load gives `cell[i] == inp[i]` for every stage; otherwise stage 0 gets input 0, stage i the old stage i-1, and the last stage is dropped; the length is kept |
| `ShiftRegister.ShiftRunHistory` | src/simulator/src/modules/Shifter.js:130-133 | after shifting in `xs`, stage i holds the i-th most recent input, or the old stage `i - |xs|` when fewer inputs came |
| `ShiftRegister.ShiftRunKeepsLastInputs` | src/simulator/src/modules/Shifter.js:130-133 | after at least `noOfStages` shift edges the register holds the last `noOfStages` inputs, newest first |
| `ShiftRegister.Shifter.NewBitWidth` | src/simulator/src/modules/Shifter.js:143-148 | every input and output node gets width `w`; node values, the control nodes, the register and the element's own width are untouched |
| `ShiftRegister.Shifter.CustomSave` | src/simulator/src/modules/Shifter.js:150-164 | the record holds the control and output nodes and the register; its parameters are direction, bit width and stage count, the bit width always 1 and one cell per output |
| `ShiftRegister.Shifter.ChangeNumberofStages` | src/simulator/src/modules/Shifter.js:166-173 | refused (nothing returned, nothing changed) exactly when the count is missing, below 1, above 32 or equal to the current count; otherwise a fresh valid element with that count, all of its nodes new, all cells, inputs and controls unknown, outputs at 1, last clock sample 0, width 1 for the element and every node (a width set by `NewBitWidth` is lost), direction `Down` |
| `JsBits.AndBitsLowMask` | src/simulator/src/modules/SerialInput.js:75 | AND with `2^s - 1` keeps exactly the residue modulo `2^s` |
| `JsBits.MaskIsMod` | src/simulator/src/modules/SerialInput.js:75 | for a byte, `data & ((1 << width) - 1)` in JavaScript equals `data mod 2^(width % 32)` for every width |
| `JsBits.MaskWithinWidth` | src/simulator/src/modules/SerialInput.js:75 | for widths 1..31 the stored value is `data mod 2^width`, below `2^width`, and equal to the byte from width 8 on |
| `JsBits.MaskAtWidth32` | src/simulator/src/modules/SerialInput.js:75 | at width 32 the mask is 0 and every byte is stored as 0 |
| `SerialBridge.Received` | src/simulator/src/modules/SerialInput.js:70-75 | the written value depends only on the first byte (0 for an empty chunk): it is that byte modulo `2^(width % 32)`, below `2^width` for widths 1..31, and the byte itself for widths 8..31 |
| `SerialBridge.Consumed` | src/simulator/src/modules/SerialInput.js:62-67 | the loop never takes more results than there are |
| `SerialBridge.ConsumedStopsAtDone` | src/simulator/src/modules/SerialInput.js:62-67 | the loop takes the results up to and including the first end of stream, or all of them when there is none |
| `SerialBridge.ProcessIgnoresAfterDone` | src/simulator/src/modules/SerialInput.js:64-67 | an end of stream stops the loop at once: it writes nothing, and later results are neither consumed nor have any effect |
| `SerialBridge.ProcessIsLastWrite` | src/simulator/src/modules/SerialInput.js:62-81 | the loop leaves the value from the last chunk it consumed, or the old value when it consumed none (errors and falsy values write nothing) |
| `SerialBridge.ProcessWithinWidth` | src/simulator/src/modules/SerialInput.js:72-75 | for widths 1..31, the loop either keeps its starting value or leaves a value below `2^width` |
| `SerialBridge.SerialInput.constructor` | src/simulator/src/modules/SerialInput.js:20-23 | the node has the element's width and no value; the element is not connected |
| `SerialBridge.SerialInput.Connect` | src/simulator/src/modules/SerialInput.js:24-34 | only a granted and opened port connects the element and runs the read loop; a refusal or a failed open writes no value and consumes nothing |
| `SerialBridge.SerialInput.IsResolvable` | src/simulator/src/modules/SerialInput.js:40-42 | never resolvable |
| `SerialBridge.SerialInput.NewBitWidth` | src/simulator/src/modules/SerialInput.js:43-46 | element and node width both become `w`, so later masks use `w`; the stored value is not re-masked |
| `SerialBridge.SerialInput.Resolve` | src/simulator/src/modules/SerialInput.js:58-60 | enqueues the node exactly once and changes no value |
| `SerialBridge.SerialInput.ReadSerialData` | src/simulator/src/modules/SerialInput.js:61-82 | when not connected the loop body never runs and the value is never written; when connected it consumes `Consumed(results)` results and leaves `Process` of the old value, which the lemmas above pin down |
| `SerialBridge.SerialInput.CustomSave` | src/simulator/src/modules/SerialInput.js:83-91 | the record holds the node, and its parameters are exactly direction and bit width, the width being the node's width |

## Left out

- Canvas drawing (`customDraw`, Shifter.js:48-111) and the canvas and theme imports: rendering.
- Default constructor arguments: Shifter.js:10 defaults to `dir = 'DOWN'`, `bitWidth = 1` and `noOfStages = 4`, and SerialInput.js:20 to `dir = 'RIGHT'` and `bitWidth = 1`. The model's constructors take every argument explicitly, so a call that leaves one out is not modelled. `ChangeNumberofStages` passes `Down` itself, which is what the default gives.
- The `prompt(...)` fallback when a stage count that was passed is falsy (0, `null`, `NaN`; Shifter.js:17): UI input. A negative count is truthy and kept, but then `new Array(this.noOfStages)` throws a `RangeError` (Shifter.js:45) and no element is built; the model does not model that error. So the Shifter constructor requires at least one stage, which also excludes negative counts (`changeNumberofStages` passes only counts from 1 to 32, Shifter.js:166-168). The SerialInput constructor requires a bit width of at least 1, because the base element class that handles the width is not part of this model.
- Position and scope (`x`, `y`, `scope`): layout only.
- `this.delete()` and `simulationArea.lastSelected = obj` in `changeNumberofStages` (Shifter.js:170-171): global UI state. The new element is returned instead.
- Stage counts that are not integers, such as text or fractions from the property editor. The count is `Option<int>`, where `None` stands for `undefined`.
- The `navigator.serial.requestPort()` / `port.open` promise chain and the reader object (SerialInput.js:24-34): foreign asynchronous I/O. `Connect` takes the two outcomes as flags, and the reader's results are a scripted sequence. When the script runs out, the model's loop returns, where the real loop would keep awaiting.
- Interleaving of the read loop with simulation passes: concurrency. The loop runs to the end of its script in one call.
- `console.log` / `console.error`: observability only.
- `findNode` indices in the save records: the external node registry. The records hold the node references. The Shifter record shares the `cell` array with the live element. The model stores a copy of its value, so later aliasing is not modelled.
- `moduleVerilog` (SerialInput.js:93-106): static text export.
- The `Button.prototype` assignments (SerialInput.js:113-115), `mutableProperties`, `helplink`, `tooltipText`, `objectType`: UI metadata.
- The scheduler itself: `add` appends to the log of `SimulationQueue`.
- The Node class and the base element class are not part of this model. A fresh node is taken to carry no value (`Unknown`). Node values are plain numbers or `undefined`, never other JavaScript values.
