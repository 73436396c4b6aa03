# Privacy dashboard buffers: a Dafny model

The dashboard page (`script.js`) is mostly glue for a 3-D rendering library, a charting
library and the DOM. It does hold three small pieces of list logic, and this project
models those three and proves properties about them:

- **Traffic chart window** (module `Traffic`). Every two seconds `updateTrafficChart`
  runs. It appends a time label, a download reading and an upload reading to three
  parallel arrays. When the labels then number more than 10, it shifts the head off
  all three arrays. The class `TrafficChart` holds the three arrays as `seq` fields,
  and `Update` changes them in place. Read together, the arrays form a sequence of
  `Sample`s. `Roll` is the bounded-FIFO step on that sequence.
- **Mesh connections** (module `Mesh`). `initMesh` creates 20 nodes. It then joins
  every node to each later node in the list with one line. `BuildConnections` is the
  outer loop over node indices, and `LaterConnections` is the inner loop over the nodes
  after a given node. The result is proved to hold every unordered pair of nodes exactly
  once, N·(N−1)/2 pairs in all. The pairs are in lexicographic order, and each sits at the
  position the loop order gives it.
- **Log panel** (module `Logs`). Every five seconds a callback puts a new paragraph at
  the front of the log container. When the container then has more than 5 children, it
  removes the last child. The class `LogContainer` holds the children as a `seq`, and
  `AddLog` is the callback.

The clock readings, the random readings and the random log wording are parameters of
the methods that use them.

`script.js` builds no hub nodes. The mesh has only the 190 connections among its 20
nodes (script.js:65, 79-88).

## Model

| member | source | states |
|---|---|---|
| `Traffic.Roll` | script.js:147-155 | One tick appends the new sample as the newest point. The window grows by one until it holds 10, then keeps its length. A window of at most 10 stays at most 10. Below capacity the old points are kept in place. At capacity exactly the oldest point is dropped and the rest keep their order. |
| `Traffic.ReplayKeepsLatest` | script.js:147-155 | After any number of ticks, a window that started within capacity holds exactly the most recent 10 samples, in arrival order. |
| `Traffic.EleventhUpdateEvictsFirst` | script.js:147-155 | From an empty chart, the 11th tick evicts the first sample and leaves the other ten in their original order. |
| `Traffic.TrafficChart.constructor` | script.js:120-132 | The chart starts with no labels and two empty series. |
| `Traffic.TrafficChart.Update` | script.js:145-158 | Below 10 labels, the time, download and upload values are appended as the last element of their arrays and nothing else changes. At 10 or more labels, each array also loses its head. The shift is decided by the label count alone, as in the code. If the arrays had equal lengths of at most 10 before, they still do afterwards, and together they have taken one `Roll` step. |
| `Mesh.EmittedBeforeClosedForm` | script.js:79-80 | Twice the number of connections emitted for the first i of n nodes equals i·(2n − i − 1). |
| `Mesh.AllEmitted` | script.js:79-88 | Over all n nodes, the loop emits n·(n−1)/2 connections. |
| `Mesh.LaterConnections` | script.js:80-87 | For node i of n, the inner loop yields n − 1 − i connections. The k-th of them joins i to node i + 1 + k, which lists every later node once, in order. |
| `Mesh.BuildConnections` | script.js:79-88 | Over n nodes, the loop yields exactly n·(n−1)/2 connections (i, j). Each has 0 ≤ i < j < n. They come out in strictly increasing lexicographic order, and no connection appears twice. Every pair i < j < n appears, at the index the nested loop order gives it. |
| `Mesh.InitMesh` | script.js:65-88 | With the 20 nodes the scene creates, there are 190 connections. Each joins two distinct nodes among the 20, and every pair of nodes is joined. |
| `Logs.AfterTick` | script.js:209-212 | One tick puts the new entry first. The list grows by one until it holds 5, then keeps its length, so it never exceeds 5. Below capacity all older entries follow in order. At capacity exactly the last (oldest) entry is removed. |
| `Logs.ReplayKeepsNewest` | script.js:206-213 | After any number of ticks, a container that started within capacity shows exactly the 5 most recent entries, newest first. |
| `Logs.SixthTickDropsFirst` | script.js:209-212 | From an empty container, the 6th tick removes the first entry ever logged and shows the other five, newest first. |
| `Logs.LogContainer.constructor` | script.js:205 | The log container starts with no entries. |
| `Logs.LogContainer.AddLog` | script.js:206-213 | The container's entries become `AfterTick` of the old entries, and a container of at most 5 entries stays at most 5. |

## Left out

- Scene set-up, the WebGL renderers, `render` calls and the self-rescheduling animation frames (script.js:4-14, 37-51, 56-61, 95-111) are calls into a 3-D library, and their loop never ends.
- Label projection from world position to screen pixels (script.js:43-47) is floating-point work done through a library call.
- Globe rotation, the random drift of node positions and the sinusoidal pulse of the lines (script.js:39, 97-101, 104-108) are floating-point animation with no stated contract.
- Node positions (script.js:68-72) and each line's random `pulseSpeed` and `offset` (script.js:83-84) are floating-point values drawn at random. A connection is modelled only by its two endpoint indices.
- The value ranges of the random readings (script.js:148-149) and the wording of log entries (script.js:208) are not modelled. They are parameters: `Update` takes two `real`s and `AddLog` takes a `string`.
- Chart construction and `trafficChart.update()` (script.js:116-142, 157) are calls into the charting library.
- The device list, connection status text, country selector and `alert()` buttons (script.js:167-202) are DOM glue with no logic.
- The timers (script.js:165, 206) are left out: their two- and five-second periods and their interleaving with the frame callbacks. Repeated firing is modelled as a sequence of calls (`ReplayUpdates`, `ReplayTicks`).
- Logs.LogContainer.constructor: assumes the container starts empty and holds only log paragraphs, so the last child is always the oldest entry. The page markup is not part of this model. If the container held whitespace text nodes, the last child could be one of those instead.
