# Advent of Code 2023 toolkit and solutions, modelled in Dafny

This project models the `aoc-2023` TypeScript repository: its reusable toolkit and the puzzle
algorithms built on it.

The toolkit covers:
- worklists: `Queue`, `Stack`, `CyclicQueue` and the sorted-insertion `PriorityQueue`;
- grids: the dense `Grid` and the sparse `VirtualGrid`;
- the key-identified `CustomSet`;
- the value types `Point`, `Point3D` and `BigIntVector3D`;
- the helpers `CycleAwareLooper`, `CachedFunction`, `memoize`, `sum`/`product` and `range`.

Each file becomes one module. A class whose fields the source updates in place becomes a Dafny
`class` with the same fields. Pure code becomes functions and lemmas.

Puzzles 2 to 23 and 25 each become a module `DayNN`. Each module models the day's parsing of
already-split input, its algorithm and both parts.

What the model leaves out:
- reading files and the console, and the clock;
- randomness, which becomes a parameter;
- floating point.

Loops that the source runs without a bound take a `fuel` count. When the count runs out, the result says so.

## Model

| member | source | states |
|---|---|---|
| Arithmetic.EmptyFolds | src/util/arithmetic.ts:1-7 | `sum([])` is 0 and `product([])` is 1 |
| Arithmetic.SumAppend | src/util/arithmetic.ts:1-3 | the sum of a concatenation is the sum of the sums |
| Arithmetic.ProductAppend | src/util/arithmetic.ts:5-7 | the product of a concatenation is the product of the products |
| Arithmetic.ProductWithZero | src/util/arithmetic.ts:5-7 | a product over a list containing 0 is 0 |
| Ranges.Range | src/util/range.ts:4-8 | `range(s, e)` has length `max(0, e - s)` and element `i` is `s + i` |
| Ranges.RangeMembers | src/util/range.ts:1-8 | `x` is in `range(s, e)` exactly when `s <= x < e` |
| Queue.FifoOrder | src/types/Queue.ts:8-15 | the items taken by `process`, then those still pending, are the initial items then everything the callback enqueued |
| Queue.FifoVisitsTruthy | src/types/Queue.ts:8-15 | the callback sees exactly the truthy items taken, and the drain stops only with an empty queue (or out of fuel) |
| Queue.FifoWithoutAdds | src/types/Queue.ts:8-15 | with a callback that enqueues nothing, `process` visits the truthy items in order and empties the queue |
| Queue.Queue.Enqueue | src/types/Queue.ts:4-6 | appends at the back and grows `length` by one |
| Queue.Queue.Process | src/types/Queue.ts:8-15 | the final callback state, the items visited and the queue left are those of the FIFO drain |
| CyclicQueue.CyclicQueue.Enqueue | src/types/CyclicQueue.ts:4-6 | appends at the back |
| CyclicQueue.CyclicQueue.Process | src/types/CyclicQueue.ts:8-15 | the same FIFO drain as `Queue.process` |
| Stack.LifoTopFirst | src/types/Stack.ts:8-15 | what is on top, with everything it leads the callback to push, is handled before anything beneath it |
| Stack.LifoConserves | src/types/Stack.ts:8-15 | the items popped plus those still pending are the initial items plus those pushed by the callback |
| Stack.LifoVisitsTruthy | src/types/Stack.ts:8-15 | the callback sees exactly the truthy items popped; the drain stops only when empty (or out of fuel) |
| Stack.LifoWithoutAdds | src/types/Stack.ts:8-15 | with a callback that pushes nothing, `process` visits the truthy items top first and empties the stack |
| Stack.Stack.Push | src/types/Stack.ts:4-6 | appends on top |
| Stack.Stack.Process | src/types/Stack.ts:8-15 | the final callback state, the items visited and the stack left are those of the LIFO drain |
| PriorityQueue.InsertIndex | src/types/PriorityQueue.ts:14-18 | the first index whose priority lies strictly beyond the new one, or none |
| PriorityQueue.SpliceIn | src/types/PriorityQueue.ts:19-25 | inserts at the index (or appends), shifting the later elements by one |
| PriorityQueue.InsertKeepsOrder | src/types/PriorityQueue.ts:14-25 | insertion keeps the priorities ordered and puts the new one after every equal one, so it is popped first among them |
| PriorityQueue.EnqueueKeepsInvariant | src/types/PriorityQueue.ts:12-26 | on aligned, ordered arrays `enqueue` keeps them aligned and ordered and grows the queue by one |
| PriorityQueue.EnqueueAllKeepsInvariant | src/types/PriorityQueue.ts:12-26 | any sequence of `enqueue` calls keeps the arrays aligned and ordered |
| PriorityQueue.PopIsExtreme | src/types/PriorityQueue.ts:28-35 | on aligned, ordered arrays the popped item has the lowest priority (highest with `ascending`) |
| PriorityQueue.DrainAsWrittenKeepsPriorities | src/types/PriorityQueue.ts:28-35 | `process` empties `queue` but leaves every stored priority in place |
| PriorityQueue.StalePrioritiesMisorder | src/types/PriorityQueue.ts:12-39 | after a drain, the stale priorities make a later `enqueue` misplace an item, so the lower priority is no longer popped first |
| PriorityQueue.DrainAlignedKeepsInvariant | src/types/PriorityQueue.ts:28-35 | the corrected drain keeps the arrays aligned and ordered throughout |
| PriorityQueue.PriorityQueue.Enqueue | src/types/PriorityQueue.ts:12-26 | both arrays receive the insertion; `length` grows by one; validity is kept |
| PriorityQueue.PriorityQueue.Process | src/types/PriorityQueue.ts:28-35 | the result and the new arrays are those of the drain as written |
| PriorityQueue.PriorityQueue.Reset | src/types/PriorityQueue.ts:37-39 | empties `queue` and keeps `priorities` |
| PriorityQueue.PriorityQueue.ProcessAligned | src/types/PriorityQueue.ts:28-35 | the corrected drain: it keeps the queue valid |
| PriorityQueue.PriorityQueue.ResetAligned | src/types/PriorityQueue.ts:37-39 | the corrected reset empties both arrays |
| Grid.OffsetsExactly | src/types/Grid.ts:84-97 | the orthogonal offsets are the four unit steps and all the offsets the eight non-zero steps, none repeated |
| Grid.Written | src/types/Grid.ts:103-111 | the written cell reads back the value; every other cell reads as before; rows and the array only grow, and an in-bounds write keeps the shape |
| Grid.InsideWrite | src/types/Grid.ts:103-111 | a write inside an allocated row leaves no new hole and fills the cell written |
| Grid.WrittenHolesUndefined | src/types/Grid.ts:103-111 | after a write the holes are the old ones and the cells a write past the row's end skips, less the cell written, and every hole still reads `undefined` |
| Grid.RowFromExactly | src/types/Grid.ts:114-118 | a row's positions from a column on are exactly that row's remaining cells, left to right |
| Grid.FromExactly | src/types/Grid.ts:114-118 | the positions from a row on are exactly the allocated cells of those rows, in row-major order |
| Grid.PositionsExactly | src/types/Grid.ts:146-173 | the positions `entries()` walks are exactly the allocated cells, holes included, each once, in row-major order |
| Grid.UnholedExactly | src/types/Grid.ts:113-119 | skipping holes keeps exactly the positions that are not holes, in their order |
| Grid.VisitedExactly | src/types/Grid.ts:113-119 | `forEach` visits exactly the allocated cells that are not holes, each once, in row-major order |
| Grid.VisitStep | src/types/Grid.ts:126-129 | one more cell of the loop: a hole leaves the accumulator as it is, any other cell passes it through the callback |
| Grid.MatchesUnholed | src/types/Grid.ts:134-144 | when every hole reads `undefined`, skipping the holes drops nothing `filter` keeps |
| Grid.FindInSpec | src/types/Grid.ts:146-157 | the search returns nothing exactly when no cell matches; otherwise a matching cell with no match before it |
| Grid.MatchesExactly | src/types/Grid.ts:134-144 | `filter` keeps exactly the truthy values, at the visited positions, that satisfy the callback |
| Grid.FoldFilter | src/types/Grid.ts:134-144 | `filter`'s loop run as a fold appends exactly the matches, in order |
| Grid.GatherMembers | src/types/Grid.ts:175-199 | the neighbour `reduce` keeps at most one value per offset; each is a truthy cell at one of the offsets; every truthy cell at an offset is kept |
| Grid.GatherSound | src/types/Grid.ts:175-199 | the neighbour `reduce` keeps at most one value per offset, each a truthy cell at one of the offsets |
| Grid.GatherComplete | src/types/Grid.ts:175-199 | every truthy cell at one of the offsets is kept |
| Grid.GatherSnoc | src/types/Grid.ts:176-185 | the `reduce` starts from `[]` and each further offset pushes its truthy cell after the earlier ones |
| Grid.GatherAppend | src/types/Grid.ts:91-97 | gathering over two runs of offsets is the first run's cells followed by the second's |
| Grid.GatherOrthogonal | src/types/Grid.ts:84-89 | over the orthogonal offsets the cells come right, left, down, up, each only when truthy |
| Grid.GatherDiagonal | src/types/Grid.ts:93-96 | over the diagonal offsets the cells come down-right, down-left, up-right, up-left, each only when truthy |
| Grid.GatherAll | src/types/Grid.ts:91-97 | over all offsets the orthogonal cells come first, then the four diagonal ones |
| Grid.RowKeyLength | src/types/Grid.ts:247-251 | with one-character renderings a row's key has one character per cell |
| Grid.RowKeyLengths | src/types/Grid.ts:247-251 | rows whose cells render, pointwise, to strings of equal lengths have keys of equal length |
| Grid.RowKeyInjective | src/types/Grid.ts:247-251 | two rows of equal length whose cells render, pointwise, to strings of equal lengths have equal keys exactly when their cells render the same |
| Grid.KeyIdentifiesRenderings | src/types/Grid.ts:242-254 | two grids of the same shape whose cells from the slice start on render, pointwise, to strings of equal lengths have the same `key` exactly when every such cell renders the same |
| Grid.KeySkipsHoles | src/types/Grid.ts:242-254 | with one-character renderings and a hole rendered as `""`, two grids of the same shape and holes have the same `key` exactly when every cell from the slice start on that is not a hole renders the same |
| Grid.SparseWriteExample | src/types/Grid.ts:103-132 | writing two columns past a one-cell row leaves one hole: `reduce` visits two cells, not three, and the `key` leaves the hole out |
| Grid.RowCellsAgree | src/types/Grid.ts:243-253 | agreement on every row is agreement on the first row and on the others |
| Grid.MaxWidth | src/types/Grid.ts:52 | no row is wider, and some row has this width when there are rows |
| Grid.Grid.constructor | src/types/Grid.ts:13-41 | `maxY - minY + 1` rows of `maxX - minX + 1` cells holding `defaultValue` or `undefined`; `width` and `height` are `maxX + 1` and `maxY + 1`; no holes |
| Grid.Grid.SetAt | src/types/Grid.ts:103-111 | the cell holds the value, no other cell changes, the cells a write past the row's end skips become holes that still read `undefined`, and `minXUpdated` is the least column written |
| Grid.Grid.Reduce | src/types/Grid.ts:121-132 | the accumulator is the fold of the callback over the cells in row-major order, holes skipped |
| Grid.Grid.Filter | src/types/Grid.ts:134-144 | the result is the row-major list of truthy cells satisfying the callback, holes skipped, which is the same list as over every cell |
| Grid.Grid.FindCoords | src/types/Grid.ts:159-173 | the position of the first cell in row-major order that satisfies the callback, or none |
| Grid.Grid.Find | src/types/Grid.ts:146-157 | the value of the first cell in row-major order that satisfies the callback, or `undefined` |
| Grid.Grid.GatheredAt | src/types/Grid.ts:175-199 | the `reduce` from `(row, col)` keeps at most one value per offset, each the truthy `getAt` one offset away, and every such cell |
| Grid.Grid.OrthogonalNeighborsOrder | src/types/Grid.ts:175-186 | the neighbours are the cells right, left, down and up, in that order, each present exactly when truthy |
| Grid.Grid.OrthogonalNeighborsMembers | src/types/Grid.ts:175-186 | at most 4 values, each a truthy cell one step right, left, down or up; every such cell is included |
| Grid.Grid.AllNeighborsOrder | src/types/Grid.ts:188-199 | the orthogonal neighbours, then the cells down-right, down-left, up-right and up-left, each present exactly when truthy |
| Grid.Grid.AllNeighborsMembers | src/types/Grid.ts:188-199 | at most 8 values, each a truthy cell among the eight around; every such cell is included |
| Grid.Grid.GetRow | src/types/Grid.ts:201-203 | empty outside the grid; otherwise entry `c` is the cell at column `c + minX` |
| Grid.Grid.GetColumn | src/types/Grid.ts:205-207 | one entry per row, each the cell of that row at the column |
| Grid.From2DArray | src/types/Grid.ts:43-82 | fails exactly when there are no rows or every row is empty; otherwise every input cell holds `getNode` of its input and every other cell, those past a short row's end included, is `undefined`; no holes |
| Grid.FillRow | src/types/Grid.ts:66-79 | one row's pass of the fill writes that row's input cells and leaves no hole |
| Grid.FillStep | src/types/Grid.ts:66-79 | each `setAt` of the fill extends the filled prefix by one cell |
| Grid.FilledLookup | src/types/Grid.ts:59-81 | after the fill every input cell holds its node and every other coordinate reads `undefined` |
| VirtualGrid.Extend | src/types/VirtualGrid.ts:52-55 | the new box holds the written coordinate and the old box |
| VirtualGrid.ExtendLeast | src/types/VirtualGrid.ts:52-55 | every box holding the old box and the written coordinate holds the new one, so the new box is the least such |
| VirtualGrid.SetAtGrows | src/types/VirtualGrid.ts:46-56 | the box never shrinks: every coordinate in it before a `setAt` is in it after |
| VirtualGrid.Read | src/types/VirtualGrid.ts:16-44 | a stored truthy cell is returned unchanged; outside the box an unstored cell reads `undefined` and nothing is stored; a returned node is truthy and stored; only the cell read can change |
| VirtualGrid.ReadLocal | src/types/VirtualGrid.ts:16-44 | a read depends only on the cell read |
| VirtualGrid.ReadIdempotent | src/types/VirtualGrid.ts:37-43 | reading again returns the same node and stores nothing more, so a blank is made once and then reused |
| VirtualGrid.SetThenGet | src/types/VirtualGrid.ts:16-25 | after `setAt` of a truthy value, `getAt` there returns it (with VirtualGrid.ts lines 46-56) |
| VirtualGrid.PureFrame | src/types/VirtualGrid.ts:78-98 | a fold over coordinates whose reads agree gives the same result |
| VirtualGrid.ReducedIsPure | src/types/VirtualGrid.ts:78-98 | over distinct coordinates the lazy reads do not interfere: the iterators see the nodes `getAt` gives on the cells as they were |
| VirtualGrid.ReducedCells | src/types/VirtualGrid.ts:78-98 | after iterating, each visited cell is as one `getAt` leaves it and every other cell is unchanged |
| VirtualGrid.ReducedTwice | src/types/VirtualGrid.ts:78-98 | iterating a second time sees the same nodes as the first |
| VirtualGrid.RowCoordsExactly | src/types/VirtualGrid.ts:68-74 | the inner loop visits exactly the row from `col` to `maxX`, left to right, `maxX + 1 - col` coordinates |
| VirtualGrid.BoxRowsExactly | src/types/VirtualGrid.ts:67-75 | the outer loop visits exactly the box's rows from `row` on, in row-major order |
| VirtualGrid.BoxCoordsExactly | src/types/VirtualGrid.ts:66-76 | the iterators visit exactly the box, each cell once, in row-major order; none for the empty box |
| VirtualGrid.Around | src/types/VirtualGrid.ts:137-165 | one coordinate per offset, each the offset added to `(row, col)` |
| VirtualGrid.AroundDistinct | src/types/VirtualGrid.ts:137-165 | distinct offsets give distinct neighbour coordinates |
| VirtualGrid.AroundMembership | src/types/VirtualGrid.ts:137-165 | a coordinate is a neighbour exactly when it is one offset away |
| VirtualGrid.PureKeepTruthy | src/types/VirtualGrid.ts:137-165 | the neighbour callback appends exactly the truthy nodes, in order |
| VirtualGrid.TruthyNodesExactly | src/types/VirtualGrid.ts:142-145 | at most one node per coordinate; a node is kept exactly when some coordinate reads it |
| VirtualGrid.NeighborsExactly | src/types/VirtualGrid.ts:137-165 | the neighbour lists hold exactly the truthy nodes one offset away, at most one per offset |
| VirtualGrid.NodesAt | src/types/VirtualGrid.ts:173-178 | one node per coordinate, the `k`th the node `getAt` gives at the `k`th coordinate |
| VirtualGrid.PureAppendNode | src/types/VirtualGrid.ts:173-178 | `Array.from`'s callback appends exactly the nodes of the coordinates, in order |
| VirtualGrid.AppendNodes | src/types/VirtualGrid.ts:173-178 | reading distinct coordinates one by one collects their nodes on the cells as they were |
| VirtualGrid.NodesFrame | src/types/VirtualGrid.ts:16-44 | the nodes depend only on the cells at the coordinates read |
| VirtualGrid.RowCoordsAt | src/types/VirtualGrid.ts:173-177 | entry `c` of a row's coordinates is column `col + c` |
| VirtualGrid.RowCellRead | src/types/VirtualGrid.ts:167-178 | reading one more box row moves each of its cells from unread to read once and leaves every other cell as it was |
| VirtualGrid.RowOfArray | src/types/VirtualGrid.ts:167-178 | one `getRow` of `toArray` holds the row's nodes on the cells as `toArray` found them, and one more row of the box has been read |
| VirtualGrid.RowsSnoc | src/types/VirtualGrid.ts:167-171 | one more row read as `getRow` gives it extends the rows built so far |
| VirtualGrid.ArrayNodes | src/types/VirtualGrid.ts:167-178 | in rows built as `toArray` builds them, row `i`, column `c` is the node `getAt(i + minY, c + minX)` read on the cells as they were |
| VirtualGrid.BoxRead | src/types/VirtualGrid.ts:66-76 | once every box row is read, the cells are those one pass of the iterators over the box leaves |
| VirtualGrid.AppendNodeLength | src/types/VirtualGrid.ts:173-185 | collecting every read node gives one entry per coordinate |
| VirtualGrid.ColumnCoordsLength | src/types/VirtualGrid.ts:180-185 | `getColumn` reads `height` distinct coordinates, exactly that column's rows from `minY` |
| VirtualGrid.FirstMatchSpec | src/types/VirtualGrid.ts:118-135 | `find` returns the node of the first coordinate that satisfies the callback, or `undefined` when none does |
| VirtualGrid.VirtualGrid.constructor | src/types/VirtualGrid.ts:4-14 | no cells and the empty box (`minX = minY = Infinity`, `maxX = maxY = -Infinity`) |
| VirtualGrid.VirtualGrid.GetAt | src/types/VirtualGrid.ts:16-44 | the node and the new cells are those of the lazy read; the box does not change |
| VirtualGrid.VirtualGrid.SetAt | src/types/VirtualGrid.ts:46-56 | the value is stored and the box becomes the least one holding the old box and the coordinate |
| VirtualGrid.VirtualGrid.Width | src/types/VirtualGrid.ts:58-60 | `-Infinity` exactly for the empty box, otherwise `maxX - minX + 1` |
| VirtualGrid.VirtualGrid.Height | src/types/VirtualGrid.ts:62-64 | `-Infinity` exactly for the empty box, otherwise `maxY - minY + 1` |
| VirtualGrid.VirtualGrid.Visit | src/types/VirtualGrid.ts:66-76 | the accumulator and cells are those of reading each coordinate in turn |
| VirtualGrid.VirtualGrid.Reduce | src/types/VirtualGrid.ts:78-98 | the fold over the box in row-major order, each cell read through `getAt` |
| VirtualGrid.VirtualGrid.Filter | src/types/VirtualGrid.ts:100-116 | the truthy nodes of the box that satisfy the callback, in row-major order |
| VirtualGrid.VirtualGrid.Find | src/types/VirtualGrid.ts:118-135 | the first node of the box in row-major order that satisfies the callback |
| VirtualGrid.VirtualGrid.OrthogonalNeighborsOf | src/types/VirtualGrid.ts:137-150 | the truthy nodes one step right, left, down and up, read through `getAt` |
| VirtualGrid.VirtualGrid.AllNeighborsOf | src/types/VirtualGrid.ts:152-165 | the truthy nodes among the eight around, read through `getAt` |
| VirtualGrid.VirtualGrid.GetRow | src/types/VirtualGrid.ts:173-178 | `width` nodes, columns `minX` on, read through `getAt`; none for the empty box |
| VirtualGrid.VirtualGrid.GetColumn | src/types/VirtualGrid.ts:180-185 | `height` nodes, rows `minY` on, read through `getAt` |
| VirtualGrid.VirtualGrid.ArrayRow | src/types/VirtualGrid.ts:168-170 | the row built at `y` is `getRow(y + minY)`: the nodes of the cells as `toArray` found them, and one more row of the box read |
| VirtualGrid.VirtualGrid.ToArray | src/types/VirtualGrid.ts:167-171 | `height` rows of `width` nodes, row `i` the nodes `getAt` reads along row `i + minY` from the cells as they were; afterwards every cell of the box is as one `getAt` leaves it, the others unchanged, as the iterators over the box leave them |
| VirtualGrid.VirtualGrid.Reset | src/types/VirtualGrid.ts:220-226 | no cells and the empty box |
| CustomSet.Without | src/types/CustomSet.ts:28-34 | a key is left exactly when it was there and is not the deleted one; the list does not grow |
| CustomSet.WithoutKeepsDistinct | src/types/CustomSet.ts:28-34 | deleting from a list of distinct keys keeps them distinct, shortens the list by one when the key was there and changes nothing otherwise |
| CustomSet.DistinctCardinality | src/types/CustomSet.ts:52-54 | distinct keys are as many as the set of them |
| CustomSet.Lookup | src/types/CustomSet.ts:24-26 | one value per key, each the one stored under that key |
| CustomSet.CustomSet.constructor | src/types/CustomSet.ts:7-14 | an empty set with the given key function |
| CustomSet.CustomSet.Add | src/types/CustomSet.ts:16-22 | first write wins: a known key leaves the set unchanged; a new key is stored and appended to the insertion order; afterwards the item is held and the size grew by at most one |
| CustomSet.CustomSet.Get | src/types/CustomSet.ts:24-26 | something exactly when the key is stored, and then the stored item |
| CustomSet.CustomSet.Delete | src/types/CustomSet.ts:28-34 | the item's key is removed from the map and the order, nothing else changes, and the item is no longer held |
| CustomSet.CustomSet.Clear | src/types/CustomSet.ts:36-38 | no items remain |
| CustomSet.CustomSet.Has | src/types/CustomSet.ts:40-42 | true exactly when `get` of the item's key finds something |
| CustomSet.CustomSet.Keys | src/types/CustomSet.ts:44-46 | the stored keys, each once, in insertion order |
| CustomSet.CustomSet.Values | src/types/CustomSet.ts:48-50 | one value per key, in key order, each the item stored under that key |
| CustomSet.CustomSet.SizeIsKeyCount | src/types/CustomSet.ts:52-54 | `size` is the number of keys |
| Point.NoCommaInInt | src/types/Point.ts:29-31 | the decimal form of an integer holds no comma |
| Point.ToStringInjective | src/types/Point.ts:29-31 | two points have the same string exactly when they are equal, so a `PointSet` identifies points by their coordinates (with Point.ts lines 76-82) |
| Point.Offsets | src/types/Point.ts:52-54 | eight offsets, none repeated |
| Point.OffsetsExactly | src/types/Point.ts:52-54 | the offsets tried are exactly the steps of at most one on each axis, other than none |
| Point.Select | src/types/Point.ts:55-68 | at most one point per offset |
| Point.SelectMembers | src/types/Point.ts:55-68 | a point is kept exactly when its offset from the centre is tried and it is within bounds and not ignored |
| Point.SelectDistinct | src/types/Point.ts:55-68 | distinct offsets give distinct neighbours |
| Point.NeighborsSpec | src/types/Point.ts:36-73 | the neighbours are exactly the points other than `p` within one step on both axes, non-negative, below the maximum size when one is given and not ignored; at most 8, none repeated |
| Point.NeighborsSymmetric | src/types/Point.ts:36-73 | without bounds or ignored points, a point in the quadrant is among its neighbours' neighbours |
| Point3D.ToStringInjective | src/types/Point3D.ts:25-27 | two points have the same string exactly when they are equal, so a `Point3DSet` identifies points by their components (with Point3D.ts lines 120-126) |
| Point3D.Offsets | src/types/Point3D.ts:48-51 | 26 offsets in the order of the three nested loops, each at most one step on every axis |
| Point3D.OffsetsDistinct | src/types/Point3D.ts:48-51 | no offset is tried twice |
| Point3D.OffsetsExactly | src/types/Point3D.ts:48-51 | the offsets tried are exactly those within one step on every axis, other than none |
| Point3D.Select | src/types/Point3D.ts:52-70 | a point is kept exactly when its offset is tried and it is within bounds and not ignored |
| Point3D.SelectDistinct | src/types/Point3D.ts:52-70 | distinct offsets give distinct neighbours |
| Point3D.NeighborsSpec | src/types/Point3D.ts:32-77 | the neighbours are exactly the other points within one step on every axis, within bounds and not ignored; none repeated |
| Point3D.EqualsIsEquality | src/types/Point3D.ts:79-81 | `equals` holds exactly for equal points |
| Point3D.SubtractAddInverse | src/types/Point3D.ts:83-97 | subtracting then adding a vector gives the original back, and adding then subtracting too |
| Point3D.AddGroup | src/types/Point3D.ts:83-89 | `add` is commutative and associative with the origin as identity |
| Point3D.MultiplyDistributes | src/types/Point3D.ts:83-89 | scaling distributes over `add`; scaling by 1 is the identity and by -1 the negation (with Point3D.ts lines 99-101) |
| Point3D.DotBilinear | src/types/Point3D.ts:99-101 | the dot product is symmetric and scales with its first argument (with Point3D.ts lines 107-109) |
| Point3D.CrossOrthogonal | src/types/Point3D.ts:107-117 | the cross product is perpendicular to both arguments, and swapping them negates it |
| BigIntVector3D.FromPoint3D | src/types/BigIntVector3D.ts:23-25 | the vector has the point's three components |
| BigIntVector3D.FromPoint3DEquals | src/types/BigIntVector3D.ts:23-33 | converted points are `equals` exactly when the points are |
| BigIntVector3D.FromPoint3DHomomorphic | src/types/BigIntVector3D.ts:35-77 | `add`, `subtract`, `multiply`, `dot` and `cross` on converted points agree with `Point3D`'s |
| BigIntVector3D.Quotient | src/types/BigIntVector3D.ts:59-65 | BigInt division: the remainder is smaller than the divisor and has the dividend's sign (truncation toward zero) |
| BigIntVector3D.RemainderTowardZero | src/types/BigIntVector3D.ts:59-65 | the quotient of the magnitudes, signed, leaves a remainder with the dividend's sign below the divisor |
| BigIntVector3D.QuotientUnique | src/types/BigIntVector3D.ts:59-65 | the quotient toward zero is the only one with such a remainder |
| BigIntVector3D.QuotientOfMultiple | src/types/BigIntVector3D.ts:59-65 | an exact multiple divides back |
| BigIntVector3D.DivideBy | src/types/BigIntVector3D.ts:59-65 | fails exactly for a zero scalar, as BigInt division by zero throws |
| BigIntVector3D.DivideMultiply | src/types/BigIntVector3D.ts:51-65 | dividing a multiple by the same non-zero scalar gives the vector back |
| BigIntVector3D.QuotientTowardZero | src/types/BigIntVector3D.ts:59-65 | negative components round toward zero: `-7 / 2` is `-3` |
| BigIntVector3D.SubtractAddInverse | src/types/BigIntVector3D.ts:35-49 | subtracting then adding a vector gives the original back |
| BigIntVector3D.CrossOrthogonal | src/types/BigIntVector3D.ts:67-77 | the cross product is perpendicular to both arguments |
| CycleAwareLooper.Skip | src/types/CycleAwareLooper.ts:54-57 | the counter advances by a whole number of cycle lengths, never past the aim and to within one cycle of it |
| CycleAwareLooper.IterateCountsAndCycle | src/types/CycleAwareLooper.ts:38-63 | the action runs at most once per remaining iteration, exactly once each when no cycle is found; a recorded cycle is never replaced; a new one has length at least 1 |
| CycleAwareLooper.IterateKeeps | src/types/CycleAwareLooper.ts:38-63 | a property of states that every action preserves holds of the state the looper ends in |
| CycleAwareLooper.Shift | src/types/CycleAwareLooper.ts:38-63 | once two points of the run reach the same state, the run agrees after them step for step |
| CycleAwareLooper.Repeat | src/types/CycleAwareLooper.ts:54-57 | a state that recurs after one cycle length recurs after any whole number of cycles |
| CycleAwareLooper.PeriodFromKey | src/types/CycleAwareLooper.ts:42-45 | when keys identify states, a repeated key means the states repeat with period `iCycle - cycleStart` |
| CycleAwareLooper.Jump | src/types/CycleAwareLooper.ts:54-57 | a jump by whole periods lands on the same state, and the next action gives the same state too |
| CycleAwareLooper.RecordAt | src/types/CycleAwareLooper.ts:61 | storing the key at the counter keeps every stored key the key of the state at its index |
| CycleAwareLooper.CorrectedSkipStep | src/types/CycleAwareLooper.ts:42-61 | with the skip aimed at the last iteration, the state and the stored keys still match the plain run after the jump |
| CycleAwareLooper.PlainStep | src/types/CycleAwareLooper.ts:39-61 | an iteration without a skip keeps the state and stored keys matching the plain run |
| CycleAwareLooper.CorrectedIterateMatches | src/types/CycleAwareLooper.ts:38-63 | with the corrected skip, from any point of a run the looper ends in the state of `nIterations` actions |
| CycleAwareLooper.CorrectedSkipMatches | src/types/CycleAwareLooper.ts:42-61 | the skipping iteration of the corrected run ends in the state of `nIterations` actions |
| CycleAwareLooper.CorrectedPlainMatches | src/types/CycleAwareLooper.ts:39-61 | a non-skipping iteration of the corrected run ends in the state of `nIterations` actions |
| CycleAwareLooper.CorrectedRunMatches | src/types/CycleAwareLooper.ts:38-63 | when keys identify states, a fresh corrected run ends in exactly the state of `nIterations` actions |
| CycleAwareLooper.SkipAsWrittenOvershoots | src/types/CycleAwareLooper.ts:54-57 | as written, four toggles from `false` end in the state after five; the corrected skip ends after four |
| CycleAwareLooper.CycleAwareLooper.constructor | src/types/CycleAwareLooper.ts:9-30 | no stored keys and no cycle yet |
| CycleAwareLooper.CycleAwareLooper.Run | src/types/CycleAwareLooper.ts:38-63 | the fields, the final state and the number of actions are those of the loop as written |
| CycleAwareLooper.CycleAwareLooper.RunCorrected | src/types/CycleAwareLooper.ts:38-63 | the same loop with the skip aimed at the last iteration |
| CycleAwareLooper.CycleAwareLooper.Loop | src/types/CycleAwareLooper.ts:39-62 | the `for` loop, with either aim, matches the specification of the iteration |
| CycleAwareLooper.CycleAwareLooper.Reset | src/types/CycleAwareLooper.ts:68-72 | no stored keys and no cycle |
| CachedFunction.Served | src/util/CachedFunction.ts:10-23 | the result is cached under the key; a hit returns the cached value and leaves the cache; a miss returns the computed value; no other entry changes |
| CachedFunction.ServedGrowsByAtMostOne | src/util/CachedFunction.ts:10-23 | each `run` adds at most one cache entry |
| CachedFunction.UndefinedRecomputed | src/util/CachedFunction.ts:13-20 | a cached `undefined` counts as a miss: the function is called again and its result replaces the entry |
| CachedFunction.ServedIsFaithful | src/util/CachedFunction.ts:10-23 | when equal keys mean equal results and the cache holds only true results, `run` returns what the function returns and the cache stays true |
| CachedFunction.CachedFunction.constructor | src/util/CachedFunction.ts:1-8 | an empty cache and no calls yet |
| CachedFunction.CachedFunction.Run | src/util/CachedFunction.ts:10-23 | result and cache are those of one lookup; the function is called only on a miss; under a key that determines the result it returns the function's value |
| Memoize.Consult | src/util/memoize.ts:10-22 | the result is cached under the key; a key already present returns its stored value; otherwise the computed value is stored and returned |
| Memoize.ConsultIsServedWithoutUndefined | src/util/memoize.ts:10-22 | when no result counts as `undefined`, `memoize` and `CachedFunction.run` behave alike |
| Memoize.ConsultReusesEveryStoredResult | src/util/memoize.ts:13-15 | `has` reuses even a stored `undefined`, where `CachedFunction.run` would recompute it |
| Memoize.InjectiveKeyDetermines | src/util/memoize.ts:3 | a key that tells queries apart determines the result |
| Memoize.ConsultIsFaithful | src/util/memoize.ts:10-22 | under an injective key, a call on a faithful cache returns `fn(query)` and keeps the cache faithful |
| Memoize.Memoized.constructor | src/util/memoize.ts:1-8 | an empty cache and no calls of `fn` |
| Memoize.Memoized.Call | src/util/memoize.ts:10-22 | the result and cache are those of one lookup; `fn` runs only for a key not seen before; under an injective key it returns `fn(query)` |
| Arithmetic.SumNonNegative | src/util/arithmetic.ts:1-3 | the sum of non-negative numbers is non-negative |
| Arithmetic.Mod | src/puzzles/puzzle21.ts:164-168 | the remainder lies in [0, n) and `a` is `n * (a / n)` plus it |
| Arithmetic.Min | src/puzzles/puzzle5.ts:102 | the least value, and one of the values |
| Ranges.RangeIncreasing | src/util/range.ts:4-8 | the range is strictly increasing |
| Ranges.RangeEmpty | src/util/range.ts:4-8 | `range(a, a)` is empty |
| Worklist.PrependTwice | src/types/Queue.ts:8-15 | the record of two drained segments is the record of their concatenation |
| Worklist.FilterAppend | src/types/Queue.ts:11-13 | the truthy items of a concatenation are those of each part, concatenated |
| Sorting.InsertByPermutes | src/puzzles/puzzle7.ts:124 | inserting adds exactly the one element |
| Sorting.InsertBySorted | src/puzzles/puzzle7.ts:124 | inserting into a key-sorted list keeps it sorted |
| Sorting.SortBySortsAndPermutes | src/puzzles/puzzle7.ts:124 | sorting by a numeric key (`(a, b) => key(a) - key(b)`) gives a permutation of the input in non-decreasing key order |
| Sorting.SortByLength | src/puzzles/puzzle5.ts:147 | sorting keeps the length |
| Decimal.DigitChar | src/puzzles/puzzle8.ts:152-154 | the digit character of `d` reads back as `d` |
| Decimal.NatToString | src/puzzles/puzzle8.ts:152-154 | a natural number prints as a non-empty string of digits |
| Decimal.IntToString | src/types/Point.ts:29-31 | an integer prints as a non-empty string of digits and minus signs |
| Decimal.DigitsOfNatToString | src/puzzles/puzzle6.ts:42-47 | `parseInt` of a printed natural number gives the number back |
| Decimal.NatToStringInjective | src/puzzles/puzzle8.ts:152-154 | different natural numbers print differently |
| Decimal.SignOfIntToString | src/types/Point.ts:29-31 | the printed form starts with a minus sign exactly for negative numbers |
| Decimal.IntToStringInjective | src/types/Point.ts:29-31 | different integers print differently |
| Decimal.DigitsValueAppend | src/puzzles/puzzle3.ts:39 | `parseInt` of two digit strings glued together is the first times ten to the length of the second, plus the second |
| Decimal.SeparatorPosition | src/puzzles/puzzle8.ts:152-154 | the first separator of `a + sep + b` sits right after `a` when `a` holds none |
| Decimal.JoinInjective | src/puzzles/puzzle8.ts:152-154 | joining with a separator that the first parts lack determines both parts |
| Queue.Queue.constructor | src/types/Queue.ts:1-2 | an empty queue |
| Queue.FifoVisitStep | src/types/Queue.ts:9-14 | shifting a truthy item hands it to the callback and appends what the callback enqueues behind the rest |
| Queue.FifoDropStep | src/types/Queue.ts:9-14 | shifting a falsy item takes it without calling the callback |
| CyclicQueue.CyclicQueue.constructor | src/types/CyclicQueue.ts:1-2 | an empty queue |
| Stack.Stack.constructor | src/types/Stack.ts:1-2 | an empty stack |
| Stack.Stack.Pop | src/types/Stack.ts:10 | removes and returns the top item |
| Stack.ConservedAfterVisit | src/types/Stack.ts:9-14 | popping a truthy item and pushing what the callback returns keeps taken plus pending equal to initial plus added |
| Stack.ConservedAfterDrop | src/types/Stack.ts:9-14 | popping a falsy item keeps the same balance |
| Stack.LifoVisitStep | src/types/Stack.ts:9-14 | popping a truthy item hands it to the callback and pushes what the callback adds on top of the rest |
| Stack.LifoDropStep | src/types/Stack.ts:9-14 | popping a falsy item takes it without calling the callback |
| PriorityQueue.PriorityQueue.constructor | src/types/PriorityQueue.ts:1-10 | both arrays empty, with the given priority function and order |
| PriorityQueue.EnqueueAllSnoc | src/types/PriorityQueue.ts:12-26 | enqueueing one more item after a sequence is one more `enqueue` |
| PriorityQueue.AlignedInit | src/types/PriorityQueue.ts:28-35 | popping from aligned, ordered arrays keeps them aligned and ordered |
| PriorityQueue.FirstEnqueues | src/types/PriorityQueue.ts:12-26 | enqueueing 5, 2, 1 (descending) gives both arrays 5, 2, 1 |
| PriorityQueue.LaterEnqueues | src/types/PriorityQueue.ts:12-39 | after a drain left the priorities 5, 2, 1 behind, enqueueing 1 then 2 gives the queue 1, 2 and the priorities 5, 2, 2, 1, 1 |
| Day02.ParseColor | src/puzzles/puzzle2.ts:7-9 | a colour exactly for "red", "green" and "blue", each its own |
| Day02.NewColorCount | src/puzzles/puzzle2.ts:11-18 | every colour is its supplied count, or 0 when none is supplied |
| Day02.FromEntries | src/puzzles/puzzle2.ts:32-40 | the map has exactly the colours named, each with the count of its last group |
| Day02.FromEntriesStep | src/puzzles/puzzle2.ts:32-40 | adding a group in front keeps the map's colours and last-group counts right |
| Day02.ParseGroups | src/puzzles/puzzle2.ts:33-39 | fails exactly when some group names an unknown colour; otherwise each group becomes its colour and count, in order |
| Day02.ParseRounds | src/puzzles/puzzle2.ts:30-42 | fails exactly when some round fails; otherwise one colour count per round, each the parsed round |
| Day02.ParseRoundsStep | src/puzzles/puzzle2.ts:30-42 | a list of rounds fails exactly when its first round or the rest fails |
| Day02.ParseGame | src/puzzles/puzzle2.ts:26-48 | a parsed game keeps its id and has one round per `"; "`-separated piece; it fails exactly when a round does |
| Day02.Bag | src/puzzles/puzzle2.ts:50-54 | 12 red, 13 green and 14 blue cubes |
| Day02.PossibleIff | src/puzzles/puzzle2.ts:55-59 | a game is possible exactly when no round shows more than 12 red, 13 green or 14 blue |
| Day02.PossibleIds | src/puzzles/puzzle2.ts:55-59 | no more ids than games; every id is that of a possible game |
| Day02.PossibleIdsAppend | src/puzzles/puzzle2.ts:55-59 | the possible ids of two lists of games are those of each, concatenated |
| Day02.Part1Step | src/puzzles/puzzle2.ts:49-61 | part 1 grows game by game: a possible game adds its id, an impossible one nothing |
| Day02.MaxSeen | src/puzzles/puzzle2.ts:66-68 | no round shows more of the colour, and some round shows exactly this many |
| Day02.Minimums | src/puzzles/puzzle2.ts:63-72 | every round fits in the minimums, and each colour's minimum is attained by some round |
| Day02.MinimumsLeast | src/puzzles/puzzle2.ts:63-72 | any bag every round fits in holds at least the minimums |
| Day02.PowerIsProduct | src/puzzles/puzzle2.ts:74-76 | a game's power is the product of its red, green and blue minimums |
| Day02.Product3 | src/puzzles/puzzle2.ts:75 | `reduce((mul, c) => mul * c, 1)` of three counts is their product |
| Day02.Powers | src/puzzles/puzzle2.ts:73-76 | one power per game, in order |
| Day02.Part2Step | src/puzzles/puzzle2.ts:62-78 | part 2 grows game by game by each game's power |
| Day02.PossibleMinimumsFit | src/puzzles/puzzle2.ts:49-72 | a possible game's minimums fit in part 1's bag |
| Day03.CharMatrix | src/puzzles/puzzle3.ts:29-31 | one row per line, each the line followed by one '.' |
| Day03.FlatIndex | src/puzzles/puzzle3.ts:35-42 | in a schematic of equally long lines, index `i` of the text with newlines replaced by '.' is the character at column `i % width` of row `i / width` of the matrix |
| Day03.RunEnd | src/puzzles/puzzle3.ts:35 | a digit run from `i` extends exactly to the first non-digit |
| Day03.RunsFrom | src/puzzles/puzzle3.ts:35-40 | every non-empty match of `/\d*/g` is a run of digits found at its index of the text |
| Day03.RunsFromCons | src/puzzles/puzzle3.ts:35-40 | at a digit, the first match is the run to the first non-digit and the rest follow it |
| Day03.RunsFromMaximal | src/puzzles/puzzle3.ts:35-40 | each match is maximal: no digit just before or after it |
| Day03.RunsFromOrdered | src/puzzles/puzzle3.ts:35-40 | the matches come in increasing order and do not touch |
| Day03.RunsFromCover | src/puzzles/puzzle3.ts:35-40 | every digit of the text lies in some match |
| Day03.DigitPoints | src/puzzles/puzzle3.ts:44-49 | one point per digit, a column past the width wrapping onto the next row, as written |
| Day03.AddPoint | src/puzzles/puzzle3.ts:48 | `PointSet.add` holds the old points and the new one |
| Day03.AddPoints | src/puzzles/puzzle3.ts:44-49 | adding points one by one gives the union and keeps the points distinct |
| Day03.DigitPointsInRow | src/puzzles/puzzle3.ts:44-49 | a run inside its row covers the cells from its start, none repeated |
| Day03.AddDistinct | src/puzzles/puzzle3.ts:44-49 | adding points none of which is already there appends them in order |
| Day03.AddSymbols | src/puzzles/puzzle3.ts:57-67 | the symbols among the neighbours are added to those already found, each once |
| Day03.SymbolIndexes | src/puzzles/puzzle3.ts:50-69 | exactly the symbol cells next to some digit, within the schematic and not ignored, each once |
| Day03.KeysExactly | src/puzzles/puzzle3.ts:44 | a point's key is among the digit keys exactly when the point is one of the digits (with puzzle3.ts line 55) |
| Day03.IsPartIff | src/puzzles/puzzle3.ts:50-70 | a cell is among a run's symbol neighbours exactly when it holds a symbol, is not one of the run's digits, lies inside the schematic and touches one of its digits |
| Day03.AttachSpec | src/puzzles/puzzle3.ts:71-96 | each symbol of the part is found or created once, in first-seen order, and given the new part; other symbols are unchanged |
| Day03.PartsAtStep | src/puzzles/puzzle3.ts:94-97 | pushing a part adds its index to the parts of exactly the symbols it lists |
| Day03.PartsAtEmpty | src/puzzles/puzzle3.ts:94-97 | a position no part lists has no parts |
| Day03.ExtendedOrder | src/puzzles/puzzle3.ts:71-97 | after a part is added every symbol position is listed once, the listed positions being the symbols |
| Day03.ExtendedLabelled | src/puzzles/puzzle3.ts:80-84 | every symbol object keeps its own position and character |
| Day03.ExtendedListing | src/puzzles/puzzle3.ts:94-97 | every symbol object lists exactly the parts around it, in order |
| Day03.ExtendedCovered | src/puzzles/puzzle3.ts:70-97 | the symbol positions are exactly those some part lists |
| Day03.StepConsistent | src/puzzles/puzzle3.ts:37-100 | every match keeps the bookkeeping consistent |
| Day03.ScanConsistent | src/puzzles/puzzle3.ts:37-100 | the bookkeeping is consistent after any number of matches |
| Day03.FlatEmpty | src/puzzles/puzzle3.ts:32-42 | a non-empty text has a line and a positive width, so `% width` is defined |
| Day03.ParsedConsistent | src/puzzles/puzzle3.ts:23-106 | after the whole schematic the parts and symbols are consistent |
| Day03.ListedExactly | src/puzzles/puzzle3.ts:104 | `seenSymbols.values()` lists every symbol object exactly once, in first-seen order |
| Day03.DistinctCard | src/puzzles/puzzle3.ts:104 | distinct positions are as many as their set |
| Day03.ParseInput | src/puzzles/puzzle3.ts:23-106 | the parts in the order their runs appear, and the symbols in the order first seen |
| Day03.ScanLoop | src/puzzles/puzzle3.ts:37-100 | the loop over the matches ends in the state the scan of all of them gives |
| Day03.Numbers | src/puzzles/puzzle3.ts:108 | one number per part, in order |
| Day03.GearRatio | src/puzzles/puzzle3.ts:111-121 | a gear's ratio is the product of its two parts' numbers |
| Day03.Part1Step | src/puzzles/puzzle3.ts:107-109 | the sum starts at 0 and each part adds its number once |
| Day03.PartsAtExactly | src/puzzles/puzzle3.ts:94-96 | a symbol's parts are exactly the parts listing it, in increasing order, each once |
| Day04.Hits | src/puzzles/puzzle4.ts:23-29 | the count of card numbers among the winners is at most the number of card numbers |
| Day04.HitsExtremes | src/puzzles/puzzle4.ts:23-29 | all card numbers winning count them all; none winning counts none |
| Day04.HitsMonotone | src/puzzles/puzzle4.ts:18-29 | more winning numbers never give fewer winners |
| Day04.CountWinners | src/puzzles/puzzle4.ts:18-29 | the record-marking loops count exactly the card numbers that are among the winning numbers |
| Day04.ParseCard | src/puzzles/puzzle4.ts:31-34 | a card keeps its id and the count of its winners |
| Day04.WorthDoubles | src/puzzles/puzzle4.ts:39 | no winners score 0, one scores 1, and each further winner doubles the worth |
| Day04.Worths | src/puzzles/puzzle4.ts:38-40 | one worth per card, in order |
| Day04.Part1Step | src/puzzles/puzzle4.ts:37-41 | each card adds its worth to the total, which never decreases |
| Day04.Score | src/puzzles/puzzle4.ts:44-55 | every card counts at least itself |
| Day04.LastScoresOne | src/puzzles/puzzle4.ts:47-52 | the last card wins no copies, as the cards past the end are skipped |
| Day04.CopiesPastEnd | src/puzzles/puzzle4.ts:48-51 | the copies won past the last card add nothing |
| Day04.ScoreOneWinner | src/puzzles/puzzle4.ts:44-55 | a card with no winners scores 1; with one winner it scores one more than the next card |
| Day04.ScoreCached | src/puzzles/puzzle4.ts:43-57 | the cached run returns the card's score and leaves a cache that still holds true scores, now including this card's |
| Day04.Scores | src/puzzles/puzzle4.ts:59-62 | one score per card, in order |
| Day04.Part2 | src/puzzles/puzzle4.ts:42-63 | part 2 through the shared cache is the sum of every card's score |
| Day04.Part2AtLeastCards | src/puzzles/puzzle4.ts:59-62 | the total is at least the number of cards |
| Day05.Triples | src/puzzles/puzzle5.ts:140-144 | the numbers of a map grouped three by three, in order, as destination start, source start and count |
| Day05.ParseMapString | src/puzzles/puzzle5.ts:133-150 | a map's groups sorted by source start, as a permutation of the triples |
| Day05.MapNumberSpec | src/puzzles/puzzle5.ts:75-90 | over groups sorted by source start, a number in no group maps to itself, and one in a group maps by the first group holding it |
| Day05.Locations | src/puzzles/puzzle5.ts:72-100 | each seed is run through every level in order |
| Day05.Part1 | src/puzzles/puzzle5.ts:56-103 | no seeds give no minimum; otherwise the answer is the location of some seed and no larger than any seed's location |
| Day05.SpansIndex | src/puzzles/puzzle5.ts:153-209 | each pushed piece appears as its shifted start and its count |
| Day05.SpansAppend | src/puzzles/puzzle5.ts:156-208 | pushing pieces in two runs gives the spans of both, in order |
| Day05.TilesAppend | src/puzzles/puzzle5.ts:174-203 | pieces covering a range in two consecutive parts cover the whole range |
| Day05.Counts | src/puzzles/puzzle5.ts:153-209 | one count per piece, in order |
| Day05.TilesExactly | src/puzzles/puzzle5.ts:153-209 | tiling pieces have non-negative counts adding to the range's count, every number they hold is in the range, and every number of the range is in one of them |
| Day05.TilesSum | src/puzzles/puzzle5.ts:153-209 | the counts of tiling pieces add up to the range's count |
| Day05.TilesInside | src/puzzles/puzzle5.ts:153-209 | tiling pieces have non-negative counts and hold only numbers of the range |
| Day05.TilesCover | src/puzzles/puzzle5.ts:153-209 | every number of the range lies in some tiling piece |
| Day05.CutTiles | src/puzzles/puzzle5.ts:158-208 | the pieces `mapRange` cuts tile the input range |
| Day05.InsideTiles | src/puzzles/puzzle5.ts:188-203 | the pieces cut from the start of a group on tile their range |
| Day05.AgreesAppend | src/puzzles/puzzle5.ts:156-208 | pieces whose shifts agree with the map agree however they are concatenated |
| Day05.AgreesLater | src/puzzles/puzzle5.ts:158-204 | pieces past a group's range that agree with the later groups agree with all of them |
| Day05.CutAgrees | src/puzzles/puzzle5.ts:158-208 | each cut piece shifts its numbers exactly as mapping them one by one would |
| Day05.InsideAgrees | src/puzzles/puzzle5.ts:188-203 | the pieces cut from the start of a group on shift as the map does |
| Day05.InsideAgreesAcross | src/puzzles/puzzle5.ts:197-203 | the piece inside a group that the range runs past shifts as the map does |
| Day05.InsideAgreesPast | src/puzzles/puzzle5.ts:158-204 | a range past a group's end shifts as the later groups do |
| Day05.MapRangeImage | src/puzzles/puzzle5.ts:153-209 | the output ranges hold exactly the images of the input numbers, with non-negative counts adding to the input count |
| Day05.CutAllBefore | src/puzzles/puzzle5.ts:167-172 | a range wholly before the first group is pushed unchanged |
| Day05.CutBefore | src/puzzles/puzzle5.ts:174-186 | the numbers before the first group are pushed unchanged and the rest continue from the group's start |
| Day05.CutAt | src/puzzles/puzzle5.ts:174-186 | a range starting inside or past the group's start pushes nothing before it |
| Day05.InsideWithin | src/puzzles/puzzle5.ts:188-192 | a range ending inside the group is pushed shifted, whole |
| Day05.InsideAcross | src/puzzles/puzzle5.ts:197-203 | a range running past the group's end pushes its part inside the group, shifted, and continues after the group |
| Day05.InsidePast | src/puzzles/puzzle5.ts:194-204 | a range past the group's end continues with the next group |
| Day05.MapRangeStep | src/puzzles/puzzle5.ts:158-204 | one pass of the loop pushes the spans `Cut` gives for this group, stopping exactly where the source returns |
| Day05.MapRange | src/puzzles/puzzle5.ts:153-209 | the loop pushes exactly the spans of the cut pieces |
| Day05.CoveredAppend | src/puzzles/puzzle5.ts:120-126 | a number is covered by concatenated ranges exactly when one of the parts covers it |
| Day05.Pairs | src/puzzles/puzzle5.ts:110-114 | the seed numbers grouped two by two, as start and count |
| Day05.PairUp | src/puzzles/puzzle5.ts:111-114 | the loop groups the seed numbers into exactly those pairs |
| Day05.LevelImage | src/puzzles/puzzle5.ts:120-126 | after one level the ranges cover exactly the images of the numbers covered before |
| Day05.ThroughImage | src/puzzles/puzzle5.ts:119-127 | after every level the ranges cover exactly the locations of the seeds in the seed ranges |
| Day05.Starts | src/puzzles/puzzle5.ts:129 | one start per range, in order |
| Day05.Part2Least | src/puzzles/puzzle5.ts:104-130 | the answer exists and is no greater than the location of any seed in the seed ranges |
| Day05.Part2Method | src/puzzles/puzzle5.ts:104-130 | the level-by-level loops compute part 2 |
| Day06.RacesFromExactly | src/puzzles/puzzle6.ts:39-59 | getRaces fails exactly when some game has no record or a record of 0; otherwise one race per time, paired with the record at the same index |
| Day06.NWaysToWin | src/puzzles/puzzle6.ts:61-72 | the counting loop returns the number of hold times b in [1, time) with b*(time-b) > record |
| Day06.WinningBelowBound | src/puzzles/puzzle6.ts:62-71 | after trying the holds below n, at most max(0, n-1) have been counted |
| Day06.WaysBound | src/puzzles/puzzle6.ts:61-72 | 0 <= nWaysToWin <= max(0, time-1) |
| Day06.BeatsSymmetric | src/puzzles/puzzle6.ts:63-67 | holding b goes as far as holding time-b |
| Day06.WinningShrinks | src/puzzles/puzzle6.ts:67 | raising the record never adds winning holds |
| Day06.WaysProduct | src/puzzles/puzzle6.ts:27-28 | the loop computes the product of the per-race ways to win |
| Day06.Part1 | src/puzzles/puzzle6.ts:26-29 | the product of ways to win, or getRaces' error |
| Day06.RemoveSpaces | src/puzzles/puzzle6.ts:32 | the result is no longer than the line, has no whitespace and only characters of the line |
| Day06.RemoveSpacesAppend | src/puzzles/puzzle6.ts:32 | whitespace removal distributes over concatenation |
| Day06.RemoveSpacesIdempotent | src/puzzles/puzzle6.ts:32 | a whitespace-free line is unchanged, so removal is idempotent |
| Day06.OneNumber | src/puzzles/puzzle6.ts:30-36 | a digit-free heading followed by digits and whitespace reads, after removal, as the single number formed by all its digits |
| Day06.Part2 | src/puzzles/puzzle6.ts:30-36 | part 1 applied to the lines with whitespace removed |
| Day07.StrengthRange | src/puzzles/puzzle7.ts:48-53 | known labels have strengths 1..13, unknown cards 0, so each fits one hex digit (with puzzle7.ts lines 151-153) |
| Day07.StrengthInjective | src/puzzles/puzzle7.ts:51-53 | different labels have different strengths |
| Day07.JokerWeakest | src/puzzles/puzzle7.ts:48-53 | in joker mode 'J' has strength 1, below every other label |
| Day07.StrengthOrderKept | src/puzzles/puzzle7.ts:48-53 | apart from 'J' both modes order the labels alike |
| Day07.CountCards | src/puzzles/puzzle7.ts:138-146 | the accumulator maps exactly the labels of the hand to their number of copies |
| Day07.OccurrencesPair | src/puzzles/puzzle7.ts:138-146 | two different labels have at most as many copies together as there are cards |
| Day07.FullHouseOfFive | src/puzzles/puzzle7.ts:72-84 | on five cards, a full house is exactly three of one label and two of another |
| Day07.FirstMatch | src/puzzles/puzzle7.ts:167-182 | the result is a type the hand matches, and no stronger type from the start index matches |
| Day07.FindHandType | src/puzzles/puzzle7.ts:167-189 | the loop stops at the first matching type, which always exists because "High card" matches every hand |
| Day07.CalculateHandScore | src/puzzles/puzzle7.ts:167-203 | the score is the hex number of the type digit followed by the card strengths, with the matched type's name |
| Day07.HexValueBound | src/puzzles/puzzle7.ts:191-199 | a number of k hex digits is below 16^k |
| Day07.HexValueOrder | src/puzzles/puzzle7.ts:191-199 | equal-length hex digit strings compare as their values do, and equal values mean equal digits |
| Day07.ScoreOrder | src/puzzles/puzzle7.ts:191-199 | for equal-length hands the score order is lexicographic on (type, card strengths), and equal scores mean equal type and strengths |
| Day07.NoJokerSameType | src/puzzles/puzzle7.ts:173-182 | a hand without 'J' gets the same type in both modes |
| Day07.ReplaceWithoutJoker | src/puzzles/puzzle7.ts:176-180 | replacing the 'J's of a hand without 'J' changes nothing |
| Day07.ScoreRounds | src/puzzles/puzzle7.ts:111-119 | the loop scores every round with the search, in input order |
| Day07.CalculateTotalWinnings | src/puzzles/puzzle7.ts:40-129 | the total is the sum of bid times rank over the rounds sorted by ascending score |
| Day07.RankedRounds | src/puzzles/puzzle7.ts:124 | the ranking is a permutation of the scored rounds in non-decreasing score order |
| Day07.PayoutsBounds | src/puzzles/puzzle7.ts:129 | with non-negative bids the winnings lie between the sum of bids and n times it |
| Day08.Go | src/puzzles/puzzle8.ts:40-49 | Following a link yields the linked node when the graph has it, the node itself otherwise or for any direction but 'L'/'R'. |
| Day08.GoStaysInGraph | src/puzzles/puzzle8.ts:40-49 | A walk from a node of the graph never leaves the graph; an unknown direction stays put. |
| Day08.FirstDefs | src/puzzles/puzzle8.ts:58-64 | The graph holds exactly the ids of the parsed lines, each node stored under its own id. |
| Day08.FirstDefsKeepsFirst | src/puzzles/puzzle8.ts:58-64 | An id is bound to its first definition; later lines with the same id are ignored by `add`. |
| Day08.ParseInput | src/puzzles/puzzle8.ts:54-69 | Adding every line's node to a fresh `Graph` custom set yields the first-definition graph. |
| Day08.WalkIndex | src/puzzles/puzzle8.ts:76-79 | After n steps the instruction index is n modulo the number of instructions. |
| Day08.Part1 | src/puzzles/puzzle8.ts:70-82 | 0 when AAA or ZZZ is missing; otherwise the first step count at which the walk from AAA stands on ZZZ, and no earlier one. |
| Day08.StateKeyInjective | src/puzzles/puzzle8.ts:152-154 | Two states with the same key have the same instruction index and node id. |
| Day08.TruncRemZero | src/puzzles/puzzle8.ts:179 | JavaScript's remainder by a positive length is 0 exactly when the length divides the dividend. |
| Day08.AdvanceKeeps | src/puzzles/puzzle8.ts:102-136 | One step moves the walker along its direction, records the new state at the next step, and never changes a found cycle's start or length. |
| Day08.FirstCycle | src/puzzles/puzzle8.ts:120-131 | A cycle is recorded exactly when the new state was seen before; its length is the steps since then, and it gets an end offset exactly when leaving an end node. |
| Day08.AdvanceAll | src/puzzles/puzzle8.ts:101-138 | The `map` over the walkers advances each one and moves the step count and instruction index on: one round. |
| Day08.SearchCycles | src/puzzles/puzzle8.ts:84-139 | The loop runs rounds from the start nodes until no walker's cycle lacks an end offset, stopping at the first such round. |
| Day08.CheckPasses | src/puzzles/puzzle8.ts:171-181 | A cycle passes the checks exactly when it exists, is complete, and start plus end offset is a multiple of its length. |
| Day08.ValidateExactly | src/puzzles/puzzle8.ts:167-185 | Validation succeeds exactly when every cycle passes, and then returns them all, in order. |
| Day08.ValidatePrefix | src/puzzles/puzzle8.ts:171-183 | Once the first i cycles pass, the result is those cycles followed by what the rest yields. |
| Day08.ValidateCycleAssumptions | src/puzzles/puzzle8.ts:167-185 | The loop throws the first failing check's message, or returns the cycles: equal to the validation function. |
| Day08.FinishExactly | src/puzzles/puzzle8.ts:141-143 | Part 2 gets past validation exactly when every walker's cycle meets the assumption, and then has one positive length per walker. |
| Day08.Part2 | src/puzzles/puzzle8.ts:83-144 | None only when every round up to the fuel was incomplete; otherwise the validation result at the first complete round. |
| Day09.Diffs | src/puzzles/puzzle9.ts:48-57 | The differences have length max(0, n-1) and entry i is s[i+1] - s[i]. |
| Day09.GetDiffs | src/puzzles/puzzle9.ts:48-57 | The push loop produces exactly those differences. |
| Day09.DiffsAppend | src/puzzles/puzzle9.ts:48-57 | Appending a value appends its difference from the old last element. |
| Day09.DiffsPrepend | src/puzzles/puzzle9.ts:48-57 | Prepending a value prepends the old first element's difference from it. |
| Day09.ExtrapolateForward | src/puzzles/puzzle9.ts:13-25 | Throws for fewer than 2 numbers; otherwise sums the last element of every level until a level sums to 0. |
| Day09.ExtrapolateBackward | src/puzzles/puzzle9.ts:30-42 | Throws for fewer than 2 numbers; otherwise folds the reversed first elements of every level until a level sums to 0. |
| Day09.FoldSubReverse | src/puzzles/puzzle9.ts:41 | `reverse().reduce((delta, x) => x - delta, 0)` is the alternating sum f0 - (f1 - (f2 - ...)). |
| Day09.NextKeepsDegree | src/puzzles/puzzle9.ts:17-24 | The intended next value keeps every all-zero level of differences all zero. |
| Day09.PrevKeepsDegree | src/puzzles/puzzle9.ts:34-41 | The intended previous value keeps every all-zero level of differences all zero. |
| Day09.ExtrapolationsAgree | src/puzzles/puzzle9.ts:13-42 | When no level sums to 0 without being all zeros, both loops compute the intended next and previous values. |
| Day09.SumStopsEarly | src/puzzles/puzzle9.ts:19-22 | For 0 1 0 both loops stop at differences 1 -1 and yield 0, which breaks the zero third differences. |
| Day09.NextOfZeroOneZero | src/puzzles/puzzle9.ts:17-24 | The corrected extrapolations of 0 1 0 are -3 forward and -3 backward. |
| Day09.ExtendedLevels | src/puzzles/puzzle9.ts:17-24 | 0 1 0 extended by -3 on either side still has zero third differences. |
| Day09.Solve | src/puzzles/puzzle9.ts:12-45 | Both parts throw when any history is shorter than 2; otherwise they sum every history's extrapolation. |
| Day09.SolveAgrees | src/puzzles/puzzle9.ts:12-45 | For histories whose sums never stop early, each part's terms are the intended extrapolations. |
| Day10.ValidatorsAgree | src/puzzles/puzzle10.ts:6-29 | a neighbour's pipe is accepted through an offset exactly when it opens back the other way; only the four orthogonal offsets have a validator; 'S' opens toward and is accepted from all four |
| Day10.TilesOf | src/types/Grid.ts:43-80 | the tiles of `from2DArray` are exactly the (row, column) cells of the input, each holding its character |
| Day10.Qualifying | src/puzzles/puzzle10.ts:127-143 | an offset is kept exactly when the neighbour exists, this tile opens toward it and the neighbour's pipe opens back |
| Day10.StartValueOpens | src/puzzles/puzzle10.ts:257-337 | for two different orthogonal links the start becomes the pipe that opens toward exactly those two offsets |
| Day10.StepErrors | src/puzzles/puzzle10.ts:149-151 | linking a tile throws only "Start node has less than 2 neighbors" or "Start node neighbors are not orthogonal" (with puzzle10.ts lines 262-265, 336) |
| Day10.LinksStep | src/puzzles/puzzle10.ts:122-147 | one link step keeps every recorded link well formed: at least two links per pipe, each to a neighbour both tiles (as read) open toward |
| Day10.StartsStep | src/puzzles/puzzle10.ts:149-151 | one link step changes only start tiles, each to the pipe its links determine |
| Day10.LinkedOk | src/puzzles/puzzle10.ts:193 | after any prefix of the `forEach`, the links are well formed and the start values follow from the links |
| Day10.LinkedFails | src/puzzles/puzzle10.ts:193 | once a start throws, linking the remaining cells throws the same error |
| Day10.LinkCells | src/puzzles/puzzle10.ts:193 | the linking loop returns exactly the fold of the link step over the cells, stopping at the first error |
| Day10.LinkAll | src/puzzles/puzzle10.ts:173-193 | linking the grid built from the rows, in row-major order |
| Day10.RelaxNeighbors | src/puzzles/puzzle10.ts:200-209 | one queue step: distances only decrease, the node itself is unchanged and now relaxed, and every changed neighbour is one past it, linked from it and enqueued |
| Day10.Walk | src/puzzles/puzzle10.ts:198-210 | `stepsAway` only decreases, each distance is initial or one past a tile linking to it, and a walk that runs dry leaves every changed tile relaxed |
| Day10.WitnessedStep | src/puzzles/puzzle10.ts:202-207 | a queue step keeps every distance witnessed by a predecessor |
| Day10.SettledStep | src/puzzles/puzzle10.ts:200-210 | a queue step keeps every changed tile relaxed or still queued |
| Day10.PathBound | src/puzzles/puzzle10.ts:198-210 | after the walk from a lone start, no path from the start is shorter than its end's distance |
| Day10.PathTo | src/puzzles/puzzle10.ts:202-207 | every distance is the length of some path from the start (or more) |
| Day10.WalkDistances | src/puzzles/puzzle10.ts:198-210 | the finished walk from a lone start gives every tile it reaches its shortest-path distance |
| Day10.MaxSteps | src/puzzles/puzzle10.ts:223-230 | the result bounds every distance among the cells and is one of them, or 0 when none is reached |
| Day10.Part1 | src/puzzles/puzzle10.ts:219-231 | `part1` is the largest distance of any cell, 0 when none |
| Day10.NegOnePowParity | src/puzzles/puzzle10.ts:355 | `(-1) ** n` is 1 for even and -1 for odd `n` |
| Day10.PolarityParity | src/puzzles/puzzle10.ts:342-358 | `hasOddPolarity` holds exactly when count('\|') + min(F, J) + min(L, 7) is odd |
| Day10.LeftTallyCounts | src/puzzles/puzzle10.ts:103-110 | `leftNodes` counts, for each value, the loop tiles other than '-' to the left in the row |
| Day10.OutsideParity | src/puzzles/puzzle10.ts:75-117 | an interior tile off the loop is outside exactly when the crossings to its left are even in number |
| Day10.TallyLeft | src/puzzles/puzzle10.ts:103-110 | the counting loop builds the tally of the crossings to the left |
| Day10.CalculateOutside | src/puzzles/puzzle10.ts:75-117 | loop tiles are not outside, edge tiles are, the rest are unless the tally to their left has odd polarity |
| Day10.OutsideAll | src/puzzles/puzzle10.ts:215 | every cell gets the outside-ness `calculateOutside` decides for it |
| Day10.Starts | src/puzzles/puzzle10.ts:46-51 | the start tiles, exactly those holding 'S', begin at distance 0 and no other tile has one |
| Day10.FirstStart | src/types/Grid.ts:146-157 | `find` gives the first start in row-major order, or none exactly when there is no 'S' |
| Day10.Rows | src/puzzles/puzzle10.ts:158-161 | the grid rows are the non-empty input lines |
| Day10.ParseInput | src/puzzles/puzzle10.ts:157-218 | "Invalid input dimensions" exactly when there is no non-empty line, "No start node found" exactly when there is no 'S', a linking error as linking throws it, else a grid linked, walked from the first start and with outside-ness set |
| Day10.LinkErrors | src/puzzles/puzzle10.ts:257-337 | linking the grid throws only the two errors of `calculateStartNodeValue` (with puzzle10.ts line 193) |
| Day10.EnclosedAmong | src/puzzles/puzzle10.ts:64-66 | the enclosed cells are exactly those neither on the loop nor outside |
| Day10.Part2 | src/puzzles/puzzle10.ts:247-249 | `part2` is the number of enclosed cells |
| Day10.Partition | src/puzzles/puzzle10.ts:60-66 | every cell is exactly one of on the loop, outside or enclosed; loop tiles are never outside; border tiles off the loop always are (with puzzle10.ts lines 75-98) |
| Day10.ParsedLinks | src/puzzles/puzzle10.ts:122-147 | every link of a parsed grid is between two tiles that open toward each other, two or more per pipe (with puzzle10.ts line 193) |
| Day10.ParsedDistances | src/puzzles/puzzle10.ts:198-210 | with a single start, every parsed distance is the shortest path length from the start over the links |
| Day10.LoneStart | src/puzzles/puzzle10.ts:46-51 | with a single 'S' tile only it starts at distance 0 |
| Day11.Rows | src/puzzles/puzzle11.ts:36-39 | the rows of the image are the non-empty input lines |
| Day11.EmptyRows | src/puzzles/puzzle11.ts:44-48 | the result holds exactly the indexes of rows made only of '.', in increasing order |
| Day11.EmptyCols | src/puzzles/puzzle11.ts:49-53 | the result holds exactly the columns of the first row at which every row has a '.', in increasing order |
| Day11.GalaxiesFrom | src/puzzles/puzzle11.ts:22 | the galaxies are exactly the '#' cells, in row-major order (with puzzle11.ts line 68) |
| Day11.Strictly | src/puzzles/puzzle11.ts:112-120 | the filter keeps exactly the indexes strictly between the two bounds |
| Day11.DistanceSymmetric | src/puzzles/puzzle11.ts:110-126 | a pair's expanded distance does not depend on the order of the two galaxies |
| Day11.DistanceBounds | src/puzzles/puzzle11.ts:122-126 | with factor 1 the distance is the Manhattan distance, and with any factor of at least 1 it is no less |
| Day11.OrderedIsTwicePairs | src/puzzles/puzzle11.ts:104-130 | the total over ordered pairs of different galaxies is twice the total over unordered pairs, so halving it is exact |
| Day11.DistancesFrom | src/puzzles/puzzle11.ts:105-127 | the inner loop adds the distances from one galaxy to every other |
| Day11.SumOfDistances | src/puzzles/puzzle11.ts:91-131 | `calculateSumOfDistances` is the sum of the expanded distances over unordered pairs of galaxies |
| Day11.ParseInput | src/puzzles/puzzle11.ts:35-72 | an empty image throws "Invalid input dimensions"; otherwise the galaxies, empty rows and empty columns as above |
| Day11.Part1 | src/puzzles/puzzle11.ts:73-80 | the pair sum with expansion factor 2 |
| Day11.Part2 | src/puzzles/puzzle11.ts:81-88 | the pair sum with expansion factor 1000000 |
| Day12.CountIsWays | src/puzzles/puzzle12.ts:10-115 | `countArrangements` equals the brute-force count of fillings of the unknown springs whose runs of damaged springs are exactly `runs` |
| Day12.CountDamaged | src/puzzles/puzzle12.ts:67-99 | a leading '#' places the first run: 0 for a run of 0, a '#' right after it or a '.' inside it, else the count of the rest after the run and its separator, and this agrees with the brute-force count |
| Day12.NoRuns | src/puzzles/puzzle12.ts:29-45 | with no runs left, a row has exactly one filling when it holds no '#' and none otherwise |
| Day12.TooShort | src/puzzles/puzzle12.ts:49-52 | a row shorter than `sum(runs) + runs.length - 1` has no filling |
| Day12.ZeroRun | src/puzzles/puzzle12.ts:70-77 | runs containing 0 have no filling |
| Day12.Overrun | src/puzzles/puzzle12.ts:78-83 | a run of '#' longer than the next wanted run has no completion |
| Day12.FillRun | src/puzzles/puzzle12.ts:78-98 | a first run read without a '.' inside closes at the spring after it, which must not be '#' |
| Day12.BrokenRun | src/puzzles/puzzle12.ts:84-90 | a '.' inside the first run leaves no filling |
| Day12.WaysStep | src/puzzles/puzzle12.ts:57-65 | the brute-force count splits by the first spring: a '.' closes the open run, a '#' extends it, an unknown spring adds both (with puzzle12.ts lines 104-113) |
| Day12.WaysDamaged | src/puzzles/puzzle12.ts:104-108 | putting a '#' first extends the open run |
| Day12.WaysWorking | src/puzzles/puzzle12.ts:57-65 | a leading '.' closes the open run, which must then be the next run |
| Day12.DamagedRuns | src/puzzles/puzzle12.ts:67-99 | damaged springs in front of a row count as an open run |
| Day12.FillingsAgree | src/puzzles/puzzle12.ts:104-113 | the brute-force count only depends on which completions have the wanted runs |
| Day12.Unreachable | src/puzzles/puzzle12.ts:104-113 | a prefix no completion of which has the wanted runs counts 0 |
| Day12.UnfoldLength | src/puzzles/puzzle12.ts:149 | joining 5 copies with '?' gives 5 times the length plus 4 |
| Day12.Repeat | src/puzzles/puzzle12.ts:150-152 | repeating the runs 5 times gives 5 times as many runs |
| Day12.CountsAreWays | src/puzzles/puzzle12.ts:135-157 | each summand of `part1` is the brute-force count of its row, and of `part2` that of the unfolded row and repeated runs |
| Day13.FlipTwice | src/puzzles/puzzle13.ts:13-16 | flipping swaps ash and rock, so a symbol changes and two flips restore it |
| Day13.Column | src/types/Grid.ts:205-207 | a column has one cell per row |
| Day13.FirstMirror | src/puzzles/puzzle13.ts:180-208 | the line found is 0 or lies strictly inside the grid |
| Day13.FirstMirrorSpec | src/puzzles/puzzle13.ts:180-208 | the line found is not ignored and the lines on both sides mirror out to the nearer edge; no smaller candidate does; 0 means no candidate does |
| Day13.FirstMirrorExactly | src/puzzles/puzzle13.ts:180-208 | from the first candidate: the line is inside the grid, is not ignored, and is 0 exactly when no line of reflection exists |
| Day13.IsReflected | src/puzzles/puzzle13.ts:188-202 | the inner loop answers exactly whether the lines mirror around the candidate |
| Day13.LineOfReflection | src/puzzles/puzzle13.ts:172-246 | both finders return exactly the first non-ignored line of reflection, or 0 |
| Day13.IgnoreOne | src/puzzles/puzzle13.ts:185-187 | ignoring a value other than the line found does not change the line found |
| Day13.Pattern.Flip | src/puzzles/puzzle13.ts:41-43 | `flip` toggles one node, keeping the pattern valid; the node is flipped after exactly when it was not before |
| Day13.Pattern.Reset | src/puzzles/puzzle13.ts:49-51 | `reset` puts the node's initial symbol back and it is no longer flipped |
| Day13.FlipReset | src/puzzles/puzzle13.ts:41-51 | a flipped node differs from its initial symbol; resetting it or flipping it again restores the pattern |
| Day13.Summary | src/puzzles/puzzle13.ts:92-99 | one pattern's part-1 value is its vertical line plus 100 times its horizontal line |
| Day13.Part1 | src/puzzles/puzzle13.ts:90-102 | `part1` adds up the summaries of all patterns |
| Day13.SmudgedIsNew | src/puzzles/puzzle13.ts:142-160 | a value found after a flip is a vertical line other than the original, or 100 times a horizontal line other than the original, of the flipped pattern |
| Day13.SearchFinds | src/puzzles/puzzle13.ts:120-164 | what the search returns is the value of flipping some node of the pattern |
| Day13.TryFlip | src/puzzles/puzzle13.ts:127-162 | one flip-and-test step leaves the pattern as it was and returns what that flip gives |
| Day13.SearchRow | src/puzzles/puzzle13.ts:121-163 | the scan of one row restores the pattern and either returns the search's value or passes the search to the next row |
| Day13.Unsmudge | src/puzzles/puzzle13.ts:105-166 | for one pattern, every flipped node is reset, and the result is the first new reflection in row-major order or the error `No new reflection found` |
| Day13.Total2Fails | src/puzzles/puzzle13.ts:103-169 | `part2` throws exactly when some pattern has no new line of reflection |
| Day13.AddUpFails | src/puzzles/puzzle13.ts:103-169 | adding up the outcomes fails exactly when one of them is missing |
| Day13.PrefixFails | src/puzzles/puzzle13.ts:103-169 | the first pattern that throws decides the result |
| Day13.Part2 | src/puzzles/puzzle13.ts:103-169 | `part2` adds up the new reflections of all patterns in order, or throws at the first without one, and leaves every pattern as it was |
| Day13.GroupsKeepLines | src/puzzles/puzzle13.ts:61-74 | the groups between empty lines hold exactly the non-empty lines, in order, and none is empty |
| Day13.FirstInvalid | src/puzzles/puzzle13.ts:30-38 | reports a symbol other than ash or rock exactly when the group has one |
| Day13.Patterns | src/puzzles/puzzle13.ts:73-86 | each pattern holds its group's lines padded to the widest one, or parsing fails exactly when some group has an invalid symbol |
| Day13.PatternsAreValid | src/types/Grid.ts:43-80 | every parsed pattern is a rectangle of ash and rock |
| Day13.ParseInput | src/puzzles/puzzle13.ts:60-89 | parsing builds a fresh valid pattern per group, or fails with `Invalid symbol: X` for the first invalid symbol |
| Day14.Put | src/puzzles/puzzle14.ts:118-124 | placing or removing a rock changes that one node and no other |
| Day14.MovedExactly | src/puzzles/puzzle14.ts:146-163 | a round rock moves one cell exactly when the neighbour towards the direction is empty ground; otherwise nothing changes |
| Day14.Pass | src/puzzles/puzzle14.ts:224-234 | a pass returns one new position per rock and keeps the platform's shape |
| Day14.PassShrinks | src/puzzles/puzzle14.ts:220-235 | a pass that moves a rock strictly lowers how far the rocks can still roll, so the `do` loop ends; a pass that moves none leaves everything unchanged |
| Day14.TiltFromSpec | src/puzzles/puzzle14.ts:220-235 | the passes only move round rocks, keep the rock list exact, and end with none able to roll |
| Day14.RocksOfMatches | src/puzzles/puzzle14.ts:180-218 | the rows or columns collected for any direction list every round rock exactly once |
| Day14.TiltedSpec | src/puzzles/puzzle14.ts:179-236 | `tilt` moves only round rocks, keeps their number, and leaves none with empty ground next to it in the tilt direction |
| Day14.TiltIdempotent | src/puzzles/puzzle14.ts:179-236 | tilting twice the same way gives the same platform as tilting once |
| Day14.NorthLoadIsLoad | src/puzzles/puzzle14.ts:136-140 | the north load is the sum, over each round rock once, of the platform height minus its row |
| Day14.KeyIdentifies | src/types/Grid.ts:242-254 | two platforms of the same shape have equal keys exactly when they are equal |
| Day14.SpinKeeps | src/puzzles/puzzle14.ts:61-68 | a spin cycle only moves round rocks and keeps their number |
| Day14.IterateRearranges | src/puzzles/puzzle14.ts:59-70 | however the looper skips, the platform it ends on differs from the start only in where round rocks are |
| Day14.SpinsRearrange | src/puzzles/puzzle14.ts:49-73 | the platform after `part2`'s looper has only had its round rocks moved |
| Day14.SpunShaped | src/puzzles/puzzle14.ts:49-73 | the platform after `part2`'s looper keeps the rows and row lengths of the start and has only had its round rocks moved |
| Day14.RockGrid.MoveRock | src/puzzles/puzzle14.ts:146-163 | updates the platform in place exactly as `Moved` describes and returns the rock's new position |
| Day14.RockGrid.AddRocks | src/puzzles/puzzle14.ts:181-187 | appends exactly the round rocks of the line, in order |
| Day14.RockGrid.CollectRocks | src/puzzles/puzzle14.ts:189-218 | collects the round rocks line by line in the order the direction calls for |
| Day14.RockGrid.RunPass | src/puzzles/puzzle14.ts:224-234 | the `for` loop over a copy of the rocks performs exactly one pass |
| Day14.RockGrid.Tilt | src/puzzles/puzzle14.ts:179-236 | the platform after the loop is the tilted platform |
| Day14.RockGrid.NorthLoad | src/puzzles/puzzle14.ts:136-140 | the load is the sum over the collected round rocks of the height minus their row |
| Day14.RockGrid.SpinCycle | src/puzzles/puzzle14.ts:61-68 | four tilts up, left, down and right, and the key of the result |
| Day14.RockGrid.Part1 | src/puzzles/puzzle14.ts:45-48 | tilts north and returns the north load of the tilted platform |
| Day14.RockGrid.Part2 | src/puzzles/puzzle14.ts:49-73 | the platform becomes the looper's final state, only rearranged, and the north load of it is returned |
| Day14.KeepsSymbols | src/puzzles/puzzle14.ts:85-104 | moving only round rocks keeps every cell a platform symbol |
| Text.NonEmpty | src/puzzles/puzzle14.ts:10-13 | keeps the non-empty strings and only those, never more than the input holds |
| Day14.Board | src/puzzles/puzzle14.ts:9-44 | parsing succeeds exactly when some line is non-empty and every character is a symbol; otherwise the dimension error or the invalid-value error |
| Day14.BoardSpec | src/puzzles/puzzle14.ts:15-41 | the parsed platform is as wide as the longest line, each cell holds its line's symbol, cells beyond a short line are missing |
| Day14.FilledSpec | src/puzzles/puzzle14.ts:22-41 | each row keeps its line's characters and is padded with missing cells to the width |
| Day14.ParseInput | src/puzzles/puzzle14.ts:9-44 | builds a fresh valid grid equal to the parsed platform by `setAt` cell by cell, or fails with the same error |
| Day15.SplitOn | src/puzzles/puzzle15.ts:7-9 | splitting on a separator yields at least one piece and no piece holds the separator |
| Day15.SplitJoin | src/puzzles/puzzle15.ts:7-9 | joining the pieces with the separator gives back the text |
| Day15.ParseInput | src/puzzles/puzzle15.ts:7-9 | every step is non-empty and holds no comma |
| Day15.HashOf | src/puzzles/puzzle15.ts:32-45 | the hash of any string lies in [0, 255], and the empty string hashes to 0 |
| Day15.RunHash | src/puzzles/puzzle15.ts:32-45 | the character loop computes the hash |
| Day15.HashAppend | src/puzzles/puzzle15.ts:37-42 | one more character adds its code, multiplies by 17 and reduces mod 256 |
| Day15.Part1 | src/puzzles/puzzle15.ts:10-12 | the sum of the hashes lies between 0 and 255 per step |
| Day15.Slot | src/types/CustomSet.ts:24-26 | finds the first lens with the label, or reports that there is none |
| Day15.AssignSpec | src/puzzles/puzzle15.ts:88-100 | `=` updates an existing lens in its own slot or appends a new lens at the end, keeps the other lenses in place, and keeps one lens per label |
| Day15.RemoveMembers | src/puzzles/puzzle15.ts:102-106 | `-` keeps exactly the lenses with other labels |
| Day15.RemoveSpec | src/puzzles/puzzle15.ts:102-106 | `-` removes the labelled lens and closes the gap, keeping the order of the others; without one it changes nothing |
| Day15.RemoveAt | src/types/CustomSet.ts:28-34 | deleting the lens at its slot leaves the lenses before and after it |
| Day15.UniqueWithout | src/puzzles/puzzle15.ts:47-53 | removing one lens keeps the labels distinct |
| Day15.FindMatch | src/puzzles/puzzle15.ts:70-71 | a match is a non-empty label free of `-` and `=`, one operator, and a run of digits |
| Day15.MatchOfStep | src/puzzles/puzzle15.ts:70-71 | a step written as label, operator and digits (followed by anything but a digit) matches back to exactly those fields |
| Day15.LabelEndAt | src/puzzles/puzzle15.ts:71 | the label run ends at the first operator |
| Day15.DigitsEndAt | src/puzzles/puzzle15.ts:71 | the digit run ends at the first non-digit |
| Day15.ApplySpec | src/puzzles/puzzle15.ts:69-114 | a step fails exactly when the operator is neither `=` nor `-`, touches only the box its label hashes to, and keeps every lens in its box with one lens per label |
| Day15.ApplyAllPlaced | src/puzzles/puzzle15.ts:13-17 | after any steps every lens is in the box its label hashes to, once |
| Day15.ApplyAllFails | src/puzzles/puzzle15.ts:13-17 | the steps succeed exactly when every step's operator is `=` or `-` |
| Day15.FocusingPower | src/puzzles/puzzle15.ts:18-28 | the power is a number exactly when every lens has a focal length, and then it is non-negative |
| Day15.RunHashMap | src/puzzles/puzzle15.ts:69-114 | updates the array of boxes in place exactly as one step does, or returns the error and changes nothing |
| Day15.RemoveAbsent | src/types/CustomSet.ts:28-34 | deleting an absent label changes nothing |
| Day15.Part2 | src/puzzles/puzzle15.ts:13-29 | runs every step on 256 empty boxes and returns the focusing power, or the first step's error |
| Day15.FailureStays | src/puzzles/puzzle15.ts:15-17 | once a step throws, the whole run throws that error |
| Day16.FlipsSpec | src/puzzles/puzzle16.ts:167-169 | a splitter met side-on sends light both ways across, in opposite directions; any other tile sends it on in one direction, unchanged unless it is a mirror |
| Day16.MirrorReverses | src/puzzles/puzzle16.ts:196-207 | a mirror turns light by a right angle, and light sent back along the turned direction comes out the way the first light came in |
| Day16.AheadOf | src/puzzles/puzzle16.ts:171-183 | every queued item enters a tile |
| Day16.AheadOfMembers | src/puzzles/puzzle16.ts:171-183 | an item is queued exactly when it is the neighbour in one of the directions and that neighbour is a tile |
| Day16.LightOne | src/puzzles/puzzle16.ts:161-165 | recording a new direction on a tile adds exactly that one lit pair and leaves one fewer unlit pair of the contraption |
| Day16.PropagateClosed | src/puzzles/puzzle16.ts:159-184 | when the queue runs dry, every tile the lit pairs lead to is lit in that direction |
| Day16.PropagateCovers | src/puzzles/puzzle16.ts:159-184 | processing never unlights a pair, and every queued item's pair ends up lit |
| Day16.PropagateLeast | src/puzzles/puzzle16.ts:159-184 | the lit pairs stay within any closed set that holds the pairs lit before and the queued ones, so nothing is lit that the beam cannot reach |
| Day16.OffGridStart | src/puzzles/puzzle16.ts:153-162 | light entering a cell that is not a tile lights nothing |
| Day16.NoLights | src/puzzles/puzzle16.ts:18 | every tile has an empty list of lights, and only tiles have one |
| Day16.EnergizedLit | src/puzzles/puzzle16.ts:42-44 | a tile is energized exactly when light has passed through it in some direction |
| Day16.EnergizedInCounts | src/puzzles/puzzle16.ts:187-189 | over distinct positions the count is the number of energized tiles among them |
| Day16.StrengthCounts | src/puzzles/puzzle16.ts:187-189 | the strength is the number of energized tiles, at most the number of tiles |
| Day16.EntryAt | src/puzzles/puzzle16.ts:153-159 | the queued item has a tile exactly when the cell is a tile, and then it is that cell |
| Day16.EnergizedFromSpec | src/puzzles/puzzle16.ts:142-185 | the pairs lit from a start contain the start, are closed under the beam's steps and lie within every closed set containing the start; the energized tiles are their tiles |
| Day16.ColumnStartsAt | src/puzzles/puzzle16.ts:68-84 | column `i` is tried downwards from the top row, then upwards from the bottom row |
| Day16.RowStartsAt | src/puzzles/puzzle16.ts:86-102 | row `i` is tried rightwards from the first column, then leftwards from the last |
| Day16.StartsOnEdge | src/puzzles/puzzle16.ts:66-102 | two starts per column and two per row, each at an edge heading inwards |
| Day16.Part2CoversPart1 | src/puzzles/puzzle16.ts:56-105 | part 1's start is among part 2's, so part 2's answer is at least part 1's |
| Day16.Contraption.constructor | src/puzzles/puzzle16.ts:115-125 | keeps the cells and dimensions; every tile dark and the queue empty |
| Day16.Contraption.Reset | src/puzzles/puzzle16.ts:135-140 | empties the queue and clears every tile's lights |
| Day16.Contraption.ResetRow | src/puzzles/puzzle16.ts:137-139 | clears the lights of one more row's tiles, queue untouched |
| Day16.Contraption.AddLight | src/puzzles/puzzle16.ts:142-185 | enqueues the entry for the cell and leaves the queue empty and the lights `Propagate` gives |
| Day16.Contraption.Process | src/types/Queue.ts:8-15 | drains the queue; the lights are then `Propagate` of the old lights and queue |
| Day16.Contraption.Step | src/puzzles/puzzle16.ts:160-184 | handling the front item keeps what `Propagate` will produce, and either lights a new pair or shortens the queue |
| Day16.Contraption.LightFront | src/puzzles/puzzle16.ts:165-183 | the front tile records its direction and the tiles ahead are queued after the rest |
| Day16.Contraption.EnqueueAhead | src/puzzles/puzzle16.ts:167-183 | appends exactly the entries for the neighbours that are tiles, lights untouched |
| Day16.Contraption.Strength | src/puzzles/puzzle16.ts:187-189 | the number of energized tiles |
| Day16.Contraption.Part1 | src/puzzles/puzzle16.ts:56-64 | the number of tiles energized by light entering the top-left tile heading right into a dark contraption |
| Day16.Contraption.Try | src/puzzles/puzzle16.ts:69-75 | reset, shine from one start and return the strength from that start |
| Day16.Contraption.TryPair | src/puzzles/puzzle16.ts:68-84 | the strengths of two starts in order |
| Day16.Contraption.TryColumns | src/puzzles/puzzle16.ts:68-84 | the strengths of the column starts in order |
| Day16.Contraption.TryRows | src/puzzles/puzzle16.ts:86-102 | the strengths of the row starts in order |
| Day16.Contraption.Part2 | src/puzzles/puzzle16.ts:65-105 | the greatest strength over all the edge starts |
| Day16.ParseInput | src/puzzles/puzzle16.ts:49-55 | fails with the dimension error exactly when no line is non-empty; otherwise a dark, valid contraption as wide as the longest line, each cell the line's character or missing past its end |
| Arithmetic.Max | src/puzzles/puzzle16.ts:104 | the greatest value, and one of the values |
| Day17.Opposite | src/puzzles/puzzle17.ts:231-243 | the opposite of a direction has the negated offset and is never the direction itself |
| Day17.DiffInjective | src/puzzles/puzzle17.ts:231-236 | different directions have different offsets |
| Day17.Window | src/puzzles/puzzle17.ts:60-61 | `slice(-n)` is the last `min(n, length)` moves |
| Day17.WindowRun | src/puzzles/puzzle17.ts:70-73 | `slice(-k).every(d => d === x)` holds exactly when the last `min(k, length)` moves are all `x` |
| Day17.FullRun | src/puzzles/puzzle17.ts:162-167 | the loop's length-and-every test holds exactly when the last `MaxRun` moves exist and are all the candidate direction |
| Day17.TurnsExactly | src/puzzles/puzzle17.ts:65-78 | the loop over the four directions keeps exactly those that are not the reverse and do not extend a full run |
| Day17.StraightUnlessTurnAllowed | src/puzzles/puzzle17.ts:152-154 | part 2 forces the last direction exactly when the walk may not turn yet |
| Day17.StraightIsShort | src/puzzles/puzzle17.ts:152-154 | a forced straight move never makes a run longer than ten |
| Day17.NextExactly | src/puzzles/puzzle17.ts:58-81 | `possibleNextDirections` holds a direction exactly when one more move that way keeps the crucible's rules |
| Day17.NextDistinct | src/puzzles/puzzle17.ts:146-174 | `possibleNextDirections` never holds a direction twice |
| Day17.RulesSnoc | src/puzzles/puzzle17.ts:146-174 | the rules hold after one more move exactly when they held before and the move is allowed |
| Day17.NextBuildsRules | src/puzzles/puzzle17.ts:57-81 | the move sequences that each pick from `possibleNextDirections` are exactly those keeping the rules (start right or down, never reverse, bounded runs, and part 2's turn condition) |
| Day17.StandardRules | src/puzzles/puzzle17.ts:58-81 | part 1's walks start right or down, never reverse, and never make four equal moves in a row |
| Day17.UltraTurnsEarly | src/puzzles/puzzle17.ts:148-185 | as written, part 2 allows a turn after a single first move and accepts an end reached after one move; the corrected rules allow neither |
| Day17.UltraCorrectedRuns | src/puzzles/puzzle17.ts:128-129 | with the corrected rules every run before a turn is at least four moves, and an accepted walk ends with four equal moves |
| Day17.TwoBlocksAsWritten | src/puzzles/puzzle17.ts:176-185 | as written, part 2 accepts the one-move walk across the city `19` |
| Day17.TwoBlocksCorrected | src/puzzles/puzzle17.ts:176-185 | with the corrected rules no walk reaches the end of the city `19` |
| Day17.NeighborIn | src/puzzles/puzzle17.ts:268-274 | the neighbour is the block one step in the direction when that block exists, and nothing off the grid |
| Day17.MinOf | src/puzzles/puzzle17.ts:88 | `Math.min` with `Infinity` for no walk yet: at most both, and one of them |
| Day17.HeatSnoc | src/puzzles/puzzle17.ts:104-108 | extending a walk by a block adds that block's heat loss to the total |
| Day17.Offer | src/puzzles/puzzle17.ts:92-117 | a move survives exactly when its neighbour exists, is new to the walk, keeps the total within `minHeatLoss` and is not beaten by a truthy best seen at its state key; the survivor is the walk one block and one move longer |
| Day17.WalkExtends | src/puzzles/puzzle17.ts:104-108 | one allowed move onto a new block extends a walk to a walk |
| Day17.OfferExtends | src/puzzles/puzzle17.ts:187-212 | every surviving move gives a walk one block longer within `minHeatLoss` |
| Day17.SurvivorsWalk | src/puzzles/puzzle17.ts:187-216 | every state the callback enqueues is a walk one block longer within `minHeatLoss` |
| Day17.OfferIgnores | src/puzzles/puzzle17.ts:110-119 | recording a state key at another block never changes whether a move survives |
| Day17.SeenUntouched | src/puzzles/puzzle17.ts:110-119 | the keys recorded earlier in the loop never change a later direction's decision |
| Day17.ExpandSurvivors | src/puzzles/puzzle17.ts:92-121 | the loop enqueues exactly the moves that survive against the best-seen map as it was before the loop |
| Day17.PossibleNextDirections | src/puzzles/puzzle17.ts:146-174 | the method's loop builds `possibleNextDirections`, holding exactly the allowed moves |
| Day17.WalksEnqueued | src/types/PriorityQueue.ts:12-26 | enqueuing walks onto a queue of walks leaves a queue of walks |
| Day17.Enqueue | src/puzzles/puzzle17.ts:187-216 | the loop's enqueues and best-seen updates are those of the survivors, in order |
| Day17.FirstQueued | src/puzzles/puzzle17.ts:51-55 | the first state, on the start block with no moves, is a walk |
| Day17.Visit | src/puzzles/puzzle17.ts:145-217 | on the end block `minHeatLoss` takes the accepted total and nothing is enqueued; elsewhere every enqueued state is a walk, and `minHeatLoss` only ever falls and is always the heat loss of a walk reaching the end |
| Day17.Search | src/puzzles/puzzle17.ts:42-124 | a finite answer is the heat loss of a walk from start to end obeying the crucible's rules |
| Day17.Drain | src/puzzles/puzzle17.ts:57-123 | from a queue of walks, a finite `minHeatLoss` after the drain is the heat loss of a walk from start to end obeying the crucible's rules |
| Day17.SearchRound | src/puzzles/puzzle17.ts:57-121 | one pop and its callback keep every queued state a walk, keep `minHeatLoss` witnessed by a walk, and never raise it |
| Day17.Part1 | src/puzzles/puzzle17.ts:42-124 | a finite answer is the heat loss of a part 1 walk to the end |
| Day17.Part2 | src/puzzles/puzzle17.ts:127-220 | a finite answer is the heat loss of a walk to the end under part 2's rules as written |
| Day17.Part2Corrected | src/puzzles/puzzle17.ts:127-220 | a finite answer is the heat loss of a walk to the end whose every run is four to ten moves, ending on four equal moves |
| Day17.CityCells | src/puzzles/puzzle17.ts:9-20 | each block of the grid holds its character's heat loss, and nothing lies past a row's end |
| Day17.BuildCity | src/puzzles/puzzle17.ts:9-20 | fails with the dimension error on an empty grid; otherwise the grid of heat losses |
| Day17.ParseRows | src/puzzles/puzzle17.ts:21-39 | fails without a grid, or with "No end block" when the last row is shorter than the widest; otherwise the start is the top left block and the end the bottom right one, both on the grid |
| Day17.ParseInput | src/puzzles/puzzle17.ts:8-40 | the same after the empty lines are dropped |
| PriorityQueue.PriorityQueue.Pop | src/types/PriorityQueue.ts:30 | `pop` removes and returns the last item and leaves the stored priorities as they were |
| PriorityQueue.EnqueuedElements | src/types/PriorityQueue.ts:12-26 | `enqueue` adds the item to the queue's elements and nothing else |
| PriorityQueue.EnqueueAllElements | src/types/PriorityQueue.ts:12-26 | a sequence of `enqueue` calls adds exactly those items |
| Day18.ToDirection | src/puzzles/puzzle18.ts:331-348 | U or 3 is up, D or 1 down, L or 2 left, R or 0 right; anything else, a missing character included, fails with "Invalid direction: " and the character or `undefined` |
| Day18.ParseInput | src/puzzles/puzzle18.ts:9-19 | fails with "Invalid input" exactly when some line has an empty letter, step count or hex code; otherwise keeps the lines |
| Day18.DecimalInstruction | src/puzzles/puzzle18.ts:21-26 | part 1's instruction: the letter's direction and the decimal value of the step digits; fails exactly when the letter does not parse |
| Day18.HexInstruction | src/puzzles/puzzle18.ts:48-51 | part 2's instruction: the steps are the value of the first five hex digits, below 16^5, and the direction comes from the sixth character; fails exactly when that does not parse |
| Day18.HexValueBound | src/puzzles/puzzle18.ts:50 | five hex digits are worth less than 16^5 |
| Wrappers.MapAll | src/puzzles/puzzle18.ts:21-26 | `map` with a callback that may throw: every result, in order, when none throws, otherwise the error of the first element that throws |
| Day18.StepsExactly | src/puzzles/puzzle18.ts:76-82 | the i-th cell an instruction steps into is i+1 unit steps from where it starts |
| Day18.TrailSteps | src/puzzles/puzzle18.ts:65-87 | the origin followed by the dug cells has one cell per step, each orthogonally next to the one before, and ends where the plan ends |
| Day18.BoundsHold | src/types/VirtualGrid.ts:46-56 | the box after a run of `setAt` calls holds the box it started from and every cell written |
| Day18.BoundsAppend | src/types/VirtualGrid.ts:46-56 | writing two runs of cells grows the box as writing the first run and then the second does |
| Day18.CellsExactly | src/types/VirtualGrid.ts:66-76 | the cells of the box are exactly those inside its bounds |
| Day18.RowCells | src/types/VirtualGrid.ts:173-178 | `getRow` lists `width` cells of the row, from `minX` |
| Day18.ColumnCells | src/types/VirtualGrid.ts:180-185 | `getColumn` lists `height` cells of the column, from `minY` |
| Day18.BorderExactly | src/puzzles/puzzle18.ts:92-97 | the top and bottom rows and the left and right columns hold exactly the cells on the box's edge |
| Day18.AroundAdjacent | src/types/VirtualGrid.ts:137-150 | the four orthogonal offsets reach exactly the cells next to a cell |
| Day18.ReachStep | src/puzzles/puzzle18.ts:106-115 | an open cell next to a reachable cell is reachable |
| Day18.ClosedHoldsPath | src/puzzles/puzzle18.ts:89-118 | a marked set that holds the open border and every open neighbour of its cells holds the end of every open path from the border |
| Day18.FewerLeft | src/puzzles/puzzle18.ts:106-115 | marking a new cell of the box leaves fewer cells unmarked, so the fill ends |
| Day18.TerrainMap.constructor | src/puzzles/puzzle18.ts:60-63 | a fresh map has an empty box and no flags set |
| Day18.TerrainMap.ProcessInstructions | src/puzzles/puzzle18.ts:65-87 | the origin and every cell the plan steps through are trenched, the origin loses any edge mark, and the box is the least one holding the origin and the trail |
| Day18.TerrainMap.DigInstruction | src/puzzles/puzzle18.ts:73-85 | one instruction trenches the cells it steps through and ends `nSteps` steps away |
| Day18.TerrainMap.Trench | src/puzzles/puzzle18.ts:78-83 | a step grows the box to the new cell and trenches it, without touching edge marks |
| Day18.TerrainMap.FillEdges | src/puzzles/puzzle18.ts:89-118 | on a map without edge marks, the cells marked edge end up exactly the untrenched cells reachable from the border through untrenched cells; trenched cells are never marked |
| Day18.TerrainMap.MarkBorder | src/puzzles/puzzle18.ts:91-104 | the marked cells are exactly the untrenched border cells, and they are all stacked |
| Day18.TerrainMap.FillStep | src/puzzles/puzzle18.ts:106-115 | one pop and its callback keep the fill's invariant (stacked cells marked, marked cells reachable, the open border marked, a marked cell off the stack has its open neighbours marked) and make progress |
| Day18.FillStepFacts | src/puzzles/puzzle18.ts:106-115 | after a pop and the marking of its open neighbours, every stacked cell is marked, every marked cell off the stack is closed, and fewer cells are unmarked or the stack is shorter |
| Day18.TerrainMap.MarkNeighbors | src/puzzles/puzzle18.ts:106-115 | the callback marks exactly the open, unmarked neighbours of the popped cell, stacks only those, and keeps every mark reachable |
| Day18.TerrainMap.TrenchInnards | src/puzzles/puzzle18.ts:120-128 | trenches exactly the cells of the box that are neither edge nor trenched |
| Day18.TerrainMap.TrenchCount | src/puzzles/puzzle18.ts:130-135 | the number of trenched cells in the box, which is every trenched cell |
| Day18.TrenchInLagoon | src/puzzles/puzzle18.ts:89-128 | no open path enters the trench, so the trench is part of the lagoon |
| Day18.LagoonSize | src/puzzles/puzzle18.ts:28-33 | digging, filling and trenching the innards of a fresh map counts the cells of the box the border cannot reach, a set holding the trench |
| Day18.Part1 | src/puzzles/puzzle18.ts:20-34 | the parse errors as stated, and otherwise the size of the lagoon the decimal plan digs |
| Day18.IsInRange | src/puzzles/puzzle18.ts:215-223 | the cell lies between the endpoints' rows and between their columns, in either order |
| Day18.InRangeEitherWay | src/puzzles/puzzle18.ts:215-223 | swapping a range's endpoints does not change what lies in it |
| Day18.InRangeIsStepped | src/puzzles/puzzle18.ts:165-170 | an instruction's range holds exactly the cells 0 to `nSteps` unit steps from its start (with puzzle18.ts lines 215-223) |
| Day18.InRangeIsStart | src/puzzles/puzzle18.ts:165-170 | an instruction's range is its start and the cells it steps through (with puzzle18.ts lines 215-223) |
| Day18.RangesAreTrench | src/puzzles/puzzle18.ts:65-87 | for a plan with an instruction, the giant map's ranges cover exactly the cells the terrain map trenches (with puzzle18.ts lines 160-199) |
| Day18.LeastIsLeast | src/puzzles/puzzle18.ts:155-156 | the folded minimum is at most the start and every vertex coordinate, and equals one of them (with puzzle18.ts lines 195-196) |
| Day18.GreatestIsGreatest | src/puzzles/puzzle18.ts:157-158 | the folded maximum is at least the start and every vertex coordinate, and equals one of them (with puzzle18.ts lines 197-198) |
| Day18.GiantTerrainMap.constructor | src/puzzles/puzzle18.ts:142-158 | a fresh giant map has no ranges or points and bounds at 0 |
| Day18.GiantTerrainMap.ProcessInstructions | src/puzzles/puzzle18.ts:160-205 | adds one segment per instruction from the origin, the cells of every range, the vertical segments sorted by start column, and bounds folded over every vertex |
| Day18.GiantTerrainMap.AddAll | src/puzzles/puzzle18.ts:161-199 | the `forEach`: segments, range cells, verticals in plan order and bounds over the vertices |
| Day18.GiantTerrainMap.AddInstruction | src/puzzles/puzzle18.ts:164-198 | one instruction's segment ends `nSteps` steps away; its cells are added, it is kept as vertical when it goes up or down, and the bounds grow to its end |
| Day18.GiantTerrainMap.AddRange | src/puzzles/puzzle18.ts:176-184 | adds exactly the cells in the range |
| Day18.VerticalsSorted | src/puzzles/puzzle18.ts:201-202 | the sorted verticals are ordered by start column and are a permutation of the unsorted ones |
| Day19.ParseRule | src/puzzles/puzzle19.ts:21-54 | '>' and '<' give the two comparisons with the captured property, target and destination; any other operator fails with "Unknown operator: " and the operator |
| Day19.ParseWorkflow | src/puzzles/puzzle19.ts:12-57 | a workflow keeps its name, its catch-all and one parsed rule per rule text, and fails with the first rule's error |
| Day19.ParsePart | src/puzzles/puzzle19.ts:63-73 | succeeds exactly when every listed name is x, m, a or s, and otherwise fails with "Unknown property: " and an offending name |
| Day19.PartRatings | src/puzzles/puzzle19.ts:65-72 | a parsed part rates exactly the categories listed, each with the last value listed for it |
| Day19.Dictionary | src/puzzles/puzzle19.ts:59-61 | every entry is keyed by its workflow's name |
| Day19.DictionaryLastWins | src/puzzles/puzzle19.ts:59-61 | the dictionary holds exactly the workflows' names, each mapped to the last workflow with that name |
| Day19.ParseInput | src/puzzles/puzzle19.ts:7-88 | succeeds exactly when the workflows and the ratings parse and some workflow is named "in", which becomes the initial workflow; otherwise the first error in that order, ending with "No initial workflow found" |
| Day19.Go | src/puzzles/puzzle19.ts:99-109 | 'A' accepts, 'R' rejects and an unknown workflow rejects, whatever the budget |
| Day19.Find | src/puzzles/puzzle19.ts:95-96 | finds the first rule that holds for the part, or none when no rule holds |
| Day19.FirstRuleDecides | src/puzzles/puzzle19.ts:93-112 | the walk from a rule follows the destination of the first rule from there that holds, or the catch-all |
| Day19.WalkMonotone | src/puzzles/puzzle19.ts:93-112 | a walk that ends within a budget ends the same way with any larger budget |
| Day19.GoMonotone | src/puzzles/puzzle19.ts:99-109 | following a destination that ends within a budget ends the same way with any larger budget |
| Day19.Accepts | src/puzzles/puzzle19.ts:92-113 | the `while` loop computes the outcome of the walk from the initial workflow |
| Day19.AcceptedTotalMonotone | src/puzzles/puzzle19.ts:89-116 | once every part's walk ends, a larger budget gives the same total |
| Day19.UndecidedPropagates | src/puzzles/puzzle19.ts:90-115 | a part whose walk does not end leaves the total undecided |
| Day19.Part1 | src/puzzles/puzzle19.ts:89-116 | the sum of the rating totals of exactly the accepted parts, or undecided when some walk exceeds the budget |
| Day19.Split | src/puzzles/puzzle19.ts:179-204 | each piece lies within the range; a rating of the range is in the true piece iff the comparison holds and in the false piece iff it does not; a range containing the target is cut at target+1/target for '>' and target-1/target for '<' |
| Day19.Keep | src/puzzles/puzzle19.ts:173-177 | a piece is kept exactly when it is non-empty and within [1, 4000] |
| Day19.Volume | src/puzzles/puzzle19.ts:248-254 | a valid box holds at least one combination |
| Day19.TotalVolume | src/puzzles/puzzle19.ts:247-256 | the total over valid boxes is at least their number |
| Day19.Part2 | src/puzzles/puzzle19.ts:117-257 | drains the stack from the full box at "in" and returns the total volume of the accepted boxes, or undecided when the stack does not empty within the budget |
| Day19.RouteSound | src/puzzles/puzzle19.ts:144-164 | a box routed to 'A' is accepted entirely and one pushed to a workflow keeps its soundness (with puzzle19.ts lines 211-231) |
| Day19.VisitSound | src/puzzles/puzzle19.ts:140-243 | one visit keeps every recorded box wholly accepted by part 1's walk and every pushed entry sound |
| Day19.DrainSound | src/puzzles/puzzle19.ts:140-243 | draining sound entries only records boxes all of whose combinations part 1 accepts |
| Day19.AcceptedBoxesSound | src/puzzles/puzzle19.ts:117-243 | every box part 2 counts is valid and every combination in it is accepted by part 1's walk |
| Day19.PieceInBox | src/puzzles/puzzle19.ts:206-210 | a box narrowed to a piece of one range lies inside the original box (with puzzle19.ts lines 233-238) |
| Day20.ParseLine | src/puzzles/puzzle20.ts:14-39 | a '%' or '&' prefix gives a flip-flop or a conjunction named without the prefix, "broadcaster" the broadcaster, each with the line's outputs and no inputs; any other name fails with "Invalid module: " and the name |
| Day20.AppendNew | src/puzzles/puzzle20.ts:127-131 | the names grow by exactly the new names, keep their old prefix, and stay distinct |
| Day20.InputsOfExactly | src/puzzles/puzzle20.ts:133-137 | the inputs found for a name are exactly the set's modules listing it as an output, each once (with puzzle20.ts lines 148-153) |
| Day20.Rewired | src/puzzles/puzzle20.ts:133-138 | recomputing the inputs keeps the set's keys and every module's outputs |
| Day20.RewiredIsWired | src/puzzles/puzzle20.ts:133-138 | after recomputing, every module's inputs are those `getInputOf` finds for it, and recomputing again changes nothing |
| Day20.InputsOfSameWiring | src/puzzles/puzzle20.ts:148-153 | modules wired the same way have the same inputs for every name |
| Day20.Handle | src/puzzles/puzzle20.ts:163-237 | one pulse is counted once as low or high, the wiring is untouched, the first high pulse of its source is recorded at its press and no other record changes, every pulse sent comes from its destination in the same press, and a pulse to an unknown module changes no module and sends nothing |
| Day20.FlipFlopBehaviour | src/puzzles/puzzle20.ts:208-215 | a flip-flop ignores a high pulse; on a low pulse it toggles and sends high to every output if it was off, low if it was on |
| Day20.ConjunctionBehaviour | src/puzzles/puzzle20.ts:216-235 | a conjunction remembers the pulse under its source and sends low to every output exactly when every input's last pulse (an unseen input counting as low) was high |
| Day20.BroadcasterForwards | src/puzzles/puzzle20.ts:204-207 | the broadcaster keeps its state and sends the pulse's type to every output, in order |
| Day20.Receive | src/puzzles/puzzle20.ts:203-236 | a module's reaction changes its state only, never its name, kind, inputs or outputs |
| Day20.DrainCounts | src/puzzles/puzzle20.ts:163-174 | draining the queue adds one to the low or the high count for every pulse taken off it, by its type |
| Day20.DrainRecordsFirstHigh | src/puzzles/puzzle20.ts:155-185 | over one press the records present stay, and exactly the other sources of a high pulse get a record, stamped with that press |
| Day20.DrainKeepsWiring | src/puzzles/puzzle20.ts:163-237 | a press changes the modules' states only, never how they are wired |
| Day20.PressTimesFirstHigh | src/puzzles/puzzle20.ts:155-185 | over several presses the wiring stays, old records stay, and each new record is one of those presses |
| Day20.NoneStaysNone | src/puzzles/puzzle20.ts:44-49 | once a press runs past its budget, the presses after it do too |
| Day20.KeptKeys | src/types/CustomSet.ts:16-22 | after the adds, a name has a module exactly when some added module has that name |
| Day20.KeptFirstWins | src/types/CustomSet.ts:16-22 | the module kept under a name is the first one added under it |
| Day20.RewireAgain | src/puzzles/puzzle20.ts:124-139 | recomputing every module's inputs after an add does not depend on the inputs computed before it |
| Day20.ParseInput | src/puzzles/puzzle20.ts:8-43 | fails with the error of the first invalid line; otherwise a valid chain with no presses, holding the names, the first module of every name with recomputed inputs, and the insertion order of the adds |
| Day20.AppendAll | src/puzzles/puzzle20.ts:127-131 | the `forEach` appends exactly the names not yet held, in order |
| Day20.RewireAll | src/puzzles/puzzle20.ts:133-138 | the `forEach` over the set gives every module the inputs found for it |
| Day20.AddTo | src/puzzles/puzzle20.ts:124-139 | adding keeps the first module of a name, appends the new names and recomputes all inputs, and the chain stays wired |
| Day20.ModuleChain.Add | src/puzzles/puzzle20.ts:124-139 | the chain stays valid, its set and names become those of the add, and the counters and the target are untouched |
| Day20.ModuleChain.AddNext | src/puzzles/puzzle20.ts:13-41 | the add of the next line's module extends the chain built from the lines before it |
| Day20.ModuleChain.SetTarget | src/puzzles/puzzle20.ts:141-146 | the target is recorded, and the name is reported known exactly when it is among the module names (where the source throws) |
| Day20.ModuleChain.GetInputOf | src/puzzles/puzzle20.ts:148-153 | the result is exactly the set's modules listing the name as an output, each once |
| Day20.ModuleChain.PushButton | src/puzzles/puzzle20.ts:155-238 | one more press: the counter goes up, and the state and the queue become those of draining the button's low pulse within the budget; the chain stays valid when the queue empties |
| Day20.ModuleChain.PressMany | src/puzzles/puzzle20.ts:45-47 | `count` presses give the state of pressing that many times, or report the press that ran out of budget |
| Day20.ModuleChain.PressNext | src/puzzles/puzzle20.ts:46 | one more push extends the presses counted so far |
| Day20.ModuleChain.Part1 | src/puzzles/puzzle20.ts:44-49 | the score is the product of the low and high counts after 1000 presses, or None when a press runs out of budget (with puzzle20.ts lines 250-252) |
| Day20.ModuleChain.PressUntilRecorded | src/puzzles/puzzle20.ts:74-82 | stops with every relevant name recorded and returns each one's press, with the old records kept and the new ones stamped with a press made here |
| Day20.ModuleChain.Part2 | src/puzzles/puzzle20.ts:50-84 | skips, with the source's messages, when "rx" is unknown or is not fed by exactly one conjunction; otherwise returns, for each input of that conjunction, the press of its first high pulse |
| Day21.LastIndexOf | src/puzzles/puzzle21.ts:17-22 | the index found holds the character and no later index does |
| Day21.StartInSpec | src/puzzles/puzzle21.ts:11 | the start recorded is the last start symbol in row-major order, and (0, 0) when the map has none (with puzzle21.ts lines 17-22) |
| Day21.ParseInput | src/puzzles/puzzle21.ts:10-30 | fails with the dimension error exactly when no line is left; otherwise every cell holds its character with the start read as a garden plot, and the start recorded is the one `StartIn` finds |
| Day21.NoStartLeft | src/puzzles/puzzle21.ts:18-21 | no cell of the parsed map holds the start symbol |
| Day21.AddToQueue | src/puzzles/puzzle21.ts:127-152 | a cell is queued exactly when it is new or reached in fewer steps, and within `nSteps`; it then takes the new count and joins `endedAt` exactly when the count has the parity of `nSteps`; otherwise nothing changes |
| Day21.NeighbourRepeats | src/puzzles/puzzle21.ts:165-168 | the neighbour lookup wraps: a whole map further down or right reads the same cell |
| Day21.AddKeeps | src/puzzles/puzzle21.ts:139-151 | adding a cell one step past every recorded count never records a cell again, so the parity set stays exact |
| Day21.VisitOneKeeps | src/puzzles/puzzle21.ts:161-176 | one neighbour keeps the walk's invariant and queues only entries one step further on |
| Day21.VisitKeeps | src/puzzles/puzzle21.ts:160-178 | visiting a queue entry keeps the walk's invariant and queues only entries one step further on |
| Day21.LevelNext | src/types/Queue.ts:14-21 | shifting the front and queueing entries one step past it keeps the queue in breadth-first order |
| Day21.StepKeeps | src/puzzles/puzzle21.ts:160-178 | one shift of the queue keeps the breadth-first invariant |
| Day21.DrainGood | src/puzzles/puzzle21.ts:154-178 | draining a breadth-first queue from a good walk leaves a good walk |
| Day21.GardensCounted | src/puzzles/puzzle21.ts:107-181 | the start has no steps and is counted exactly when `nSteps` is even; the cells counted are exactly the reached cells of matching parity, no more than the cells reached; every count is within `nSteps`; no reached cell but the start is a rock |
| Day21.CountGardens | src/puzzles/puzzle21.ts:107-181 | runs the queue and returns the size of `endedAt` once it is empty, or None when the shift budget runs out |
| Day21.Part1 | src/puzzles/puzzle21.ts:31-37 | the count for 64 steps |
| Day21.Part2 | src/puzzles/puzzle21.ts:38-71 | a map not 131 wide gives the count for 500 steps; a 131-wide map that is not square gives the square-grid error; a square one gives the counts for 65, 196 and 327 steps |
| Day22.BoxHas | src/puzzles/puzzle22.ts:295-304 | a brick's cubes are exactly the lattice points between its two corners, both ends included |
| Day22.MinZIsLeast | src/puzzles/puzzle22.ts:271 | the running minimum is `Infinity` exactly for no cubes; otherwise it is the z of some cube and at most every cube's z |
| Day22.BoxMinZ | src/puzzles/puzzle22.ts:271-304 | `minZ` is the lower corner's z when the box has cubes and `Infinity` when it has none |
| Day22.NewBrick | src/puzzles/puzzle22.ts:273-305 | the three nested loops build the box's cubes in loop order and track their least z |
| Day22.ParseInput | src/puzzles/puzzle22.ts:8-22 | one brick per pair of corners, with its index as its id |
| Day22.MoveDown | src/puzzles/puzzle22.ts:307-314 | both corners and every cube go down by one, `minZ` decreases, and the id and the number of cubes are kept |
| Day22.MoveDownHas | src/puzzles/puzzle22.ts:310-312 | a point is a cube of the lowered brick exactly when the point above it was a cube before |
| Day22.MoveDownKeepsBox | src/puzzles/puzzle22.ts:307-314 | a lowered box is the box of the lowered corners, with the matching `minZ` |
| Day22.CachedHas | src/puzzles/puzzle22.ts:254-259 | after caching, a cell is known exactly when it was known or is a cube of the brick, and a cube of the brick names the brick |
| Day22.UncachedHas | src/puzzles/puzzle22.ts:126-129 | after the deletions a cell is known exactly when it was known and is not a cube of the brick |
| Day22.CachedAllLocated | src/puzzles/puzzle22.ts:80-83 | when no two bricks share a cube, caching every brick maps exactly the bricks' cubes, each to its own brick |
| Day22.AboveFromHas | src/puzzles/puzzle22.ts:231-249 | a brick is listed above brick `i` exactly when it is another brick filling the cell right above some cube of `i` |
| Day22.GetBricksAbove | src/puzzles/puzzle22.ts:231-249 | the loop lists, cube by cube, the other brick in the cell above |
| Day22.MoveKeepsLocated | src/puzzles/puzzle22.ts:125-132 | moving a brick that can fall keeps every cube of every brick located at its own brick, and nothing else |
| Day22.MoveKeepsStuck | src/puzzles/puzzle22.ts:151-180 | a brick that could not fall and was not above the moved brick still cannot fall |
| Day22.SettleOneProgress | src/puzzles/puzzle22.ts:151-180 | a step keeps every brick solid and every index in range, and either lowers the total height of the cubes or shortens the worklist, so `settle` ends |
| Day22.SettleOneSettles | src/puzzles/puzzle22.ts:151-180 | a step keeps every cube located and keeps every brick outside the worklist unable to fall |
| Day22.SkyMap.constructor | src/puzzles/puzzle22.ts:80-84 | caches every brick and settles them: without shared cubes every cube is located and no brick can fall, and the links describe the rest state |
| Day22.SkyMap.CacheBrickLocations | src/puzzles/puzzle22.ts:254-259 | the locations become `Cached` of the old locations, and nothing else changes |
| Day22.SkyMap.MoveBrickDown | src/puzzles/puzzle22.ts:125-132 | the brick is lowered and the locations become its cubes removed and its lowered cubes cached |
| Day22.SkyMap.SettleStep | src/puzzles/puzzle22.ts:151-180 | the bricks, the locations and the worklist become exactly `SettleOne` of the old ones |
| Day22.SkyMap.Settle | src/puzzles/puzzle22.ts:137-198 | the worklist drains; if every cube was located before, none can fall afterwards; then the links are those of the final bricks |
| Day22.DedupHas | src/puzzles/puzzle22.ts:193-195 | a `Set` built by `add` holds exactly the values added |
| Day22.BelowUpToHas | src/puzzles/puzzle22.ts:190-197 | after the second loop has seen `n` bricks, a brick is below `a` exactly when it is one of those bricks and `a` is above it |
| Day22.LinksAgree | src/puzzles/puzzle22.ts:186-197 | a brick is above another exactly when that one is below it, and no brick is above itself |
| Day22.Link | src/puzzles/puzzle22.ts:186-197 | both maps have one entry per brick: the bricks above it, each once, and the bricks it rests on |
| Day22.LinkedClosed | src/puzzles/puzzle22.ts:97 | every brick listed above another has its own list of bricks below, so the `!` in `getDependentBricks` holds |
| Day22.SupportsNone | src/puzzles/puzzle22.ts:104-112 | no support counted exactly when every support is the brick itself or has fallen |
| Day22.CountSupports | src/puzzles/puzzle22.ts:104-112 | counts the supports other than the brick that have not fallen |
| Day22.DependentsHas | src/puzzles/puzzle22.ts:91-120 | a brick depends on `i` exactly when it is above `i` and every brick below it is `i` or has fallen |
| Day22.SkyMap.GetDependentBricks | src/puzzles/puzzle22.ts:91-120 | returns exactly `Dependents` of the brick and the fallen set |
| Day22.SafeCount | src/puzzles/puzzle22.ts:27-32 | the number of safe bricks is at most the number of bricks |
| Day22.SafeIff | src/puzzles/puzzle22.ts:24-32 | a brick is safe exactly when every brick above it also rests on some other brick |
| Day22.Part1 | src/puzzles/puzzle22.ts:23-33 | counts the bricks on which no brick depends |
| Day22.ChainFallen | src/puzzles/puzzle22.ts:40-67 | every brick that falls when brick `i` is removed rests only on `i` and on bricks that fell |
| Day22.ChainReaction | src/puzzles/puzzle22.ts:41-66 | runs one chain reaction on a fresh queue: the number of fallen bricks, or None when the shift budget runs out |
| Day22.SumChains | src/puzzles/puzzle22.ts:40-67 | the sum of the chain reactions of the first `n` bricks |
| Day22.Part2 | src/puzzles/puzzle22.ts:34-68 | the sum of every brick's chain reaction |
| Day23.SymbolClasses | src/puzzles/puzzle23.ts:207-211 | a node is at most one of path, forest and slope; the slopes are the four direction symbols (with puzzle23.ts lines 241-243) |
| Day23.DirectionSteps | src/puzzles/puzzle23.ts:184-205 | each of the four directions steps to the adjacent cell on that side, and its reverse steps back |
| Day23.AdjacentBack | src/puzzles/puzzle23.ts:191-205 | the step back between adjacent cells goes in the reverse direction |
| Day23.AddNew | src/puzzles/puzzle23.ts:67 | `Set.add`: the set gains the element and keeps its other members, without repeats (with puzzle23.ts lines 77-84) |
| Day23.LinkDirHas | src/puzzles/puzzle23.ts:69-87 | a walkable neighbour is linked both ways with the direction and its reverse; nothing else changes |
| Day23.LinkDirsSpec | src/puzzles/puzzle23.ts:69-88 | after the first `k` directions of a node, exactly the adjacent walkable pairs considered so far are linked, with their directions |
| Day23.VisitCellSpec | src/puzzles/puzzle23.ts:65-89 | the callback at a cell keeps the links equal to the adjacent walkable pairs with a visited end |
| Day23.BuiltSpec | src/puzzles/puzzle23.ts:65-90 | after the callback has run at distinct cells, the links are exactly the adjacent walkable pairs touching a visited cell |
| Day23.BuiltExactly | src/puzzles/puzzle23.ts:65-90 | the walkable nodes are the non-forest cells; two nodes are linked exactly when both are walkable and adjacent; links are symmetric; each records its step direction and the reverse link the reverse direction |
| Day23.BuiltWellLinked | src/puzzles/puzzle23.ts:65-90 | the constructor leaves a graph on the walkable nodes: symmetric links, no self-links, no repeats |
| Day23.RelinkHas | src/puzzles/puzzle23.ts:121-124 | the two neighbours drop the collapsed node and gain each other; no other list changes |
| Day23.CollapseShape | src/puzzles/puzzle23.ts:104-127 | a collapse removes the node from the walkable set, relinks its two neighbours, adds its steps to the first and marks it collapsed |
| Day23.RelinkedDetached | src/puzzles/puzzle23.ts:121-126 | after a collapse no walkable node lists the collapsed node |
| Day23.RelinkedListsDistinct | src/puzzles/puzzle23.ts:121-124 | after a collapse no walkable node repeats a neighbour or lists itself |
| Day23.RelinkedSymmetric | src/puzzles/puzzle23.ts:121-126 | after a collapse the links stay symmetric and among walkable nodes |
| Day23.CollapseKeepsTotal | src/puzzles/puzzle23.ts:125-126 | moving the node's `nSteps` onto its first neighbour keeps the total steps over the walkable nodes |
| Day23.CollapseKeeps | src/puzzles/puzzle23.ts:102-130 | one collapse keeps the graph well formed and the total steps, deletes exactly the collapsed node, and unlinks it |
| Day23.PassSpec | src/puzzles/puzzle23.ts:100-131 | a pass keeps the graph well formed and the total steps, only deletes nodes, and a pass that reports `pruned` deletes one |
| Day23.PassCollapsesNothing | src/puzzles/puzzle23.ts:98-132 | a pass that sets no `pruned` changes nothing and found no node to collapse |
| Day23.PruneAllSpec | src/puzzles/puzzle23.ts:97-133 | after `prune` the graph is well formed, the total steps are kept, and no walkable node can be collapsed |
| Day23.ExtensionsExactly | src/puzzles/puzzle23.ts:163-177 | the callback pushes exactly the neighbours that are off the path and may be entered, each with the path and length extended |
| Day23.ExtendSimple | src/puzzles/puzzle23.ts:171-175 | a simple path extended by a linked node off the path is a simple path with the steps added |
| Day23.ExtensionsSimple | src/puzzles/puzzle23.ts:163-177 | every entry pushed from a simple path is a simple path |
| Day23.BestSpec | src/puzzles/puzzle23.ts:156-161 | the recorded length is at least the start value and every length that reaches the end, and is the start value or one of them |
| Day23.PopSimple | src/puzzles/puzzle23.ts:155-178 | one pop from simple paths leaves only simple paths on the queue and updates the longest length at the end |
| Day23.SearchSound | src/puzzles/puzzle23.ts:155-178 | draining from simple paths visits only simple paths, and the result is the best length among visited entries at the end |
| Day23.LongestHikeSpec | src/puzzles/puzzle23.ts:138-181 | `longestPath` explores only simple paths from the start; its answer is at least 0 and every explored path length at the end, and is 0 or one of them |
| Day23.GardenMap.constructor | src/puzzles/puzzle23.ts:62-90 | the nodes' state after the constructor is the fold of the callback over the cells in row-major order |
| Day23.GardenMap.VisitNode | src/puzzles/puzzle23.ts:65-89 | the callback at one cell, as its four-direction loop |
| Day23.GardenMap.LinkNeighbor | src/puzzles/puzzle23.ts:69-87 | one direction of the callback on the map's fields |
| Day23.GardenMap.Prune | src/puzzles/puzzle23.ts:97-133 | `prune` on the fields is the fixpoint of passes; the graph stays well formed and no walkable node can be collapsed afterwards |
| Day23.GardenMap.PruneOnce | src/puzzles/puzzle23.ts:100-131 | one pass of the `for` loop over the walkable nodes and whether it pruned |
| Day23.GardenMap.CollapseNode | src/puzzles/puzzle23.ts:102-130 | the loop body at one node: a collapse exactly when the node qualifies |
| Day23.GardenMap.LongestPath | src/puzzles/puzzle23.ts:138-181 | `longestPath` on the map's current state, bounded by `fuel` pops |
| Day23.EndsInTiles | src/puzzles/puzzle23.ts:53-60 | the start and end cells exist exactly when the first row has a second column and the last row reaches the last column but one |
| Day23.NewGardenMap | src/puzzles/puzzle23.ts:34-91 | the parsed grid, the start at (0, 1) and the end at (height - 1, width - 2) with the linked nodes, or the dimension or missing-node error |
| Day23.Part1 | src/puzzles/puzzle23.ts:8-15 | the longest hike on the unpruned map that never climbs a slope |
| Day23.Part2 | src/puzzles/puzzle23.ts:16-25 | the longest hike on the pruned map, slopes allowed |
| Day25.AtMostTotal | src/puzzles/puzzle25.ts:176 | the default string order compares any two names |
| Day25.AtMostAntisymmetric | src/puzzles/puzzle25.ts:176 | two names each at most the other are equal |
| Day25.EdgeIdSymmetric | src/puzzles/puzzle25.ts:176 | an edge's id is its two names in sorted order joined by '-', whichever vertex comes first |
| Day25.EdgeIdDeterminesPair | src/puzzles/puzzle25.ts:116-118 | for names without '-', equal ids mean the same pair of names (with puzzle25.ts line 176) |
| Day25.JoinedSplits | src/puzzles/puzzle25.ts:176 | joining two names without '-' by '-' can be undone |
| Day25.DashAfter | src/puzzles/puzzle25.ts:176 | the first '-' of a joined id follows the first name |
| Day25.AddNew | src/puzzles/puzzle25.ts:200-202 | `Set.add` leaves the old members plus the new one, still without repeats |
| Day25.WithComponent | src/puzzles/puzzle25.ts:125-131 | the line's component is in the graph afterwards |
| Day25.Neighbors | src/puzzles/puzzle25.ts:204-214 | `neighbors` are exactly the links that name a component of the graph |
| Day25.NeighborsAreLinks | src/puzzles/puzzle25.ts:204-214 | in a graph whose links are mirrored, `neighbors` is every link, in order |
| Day25.PresentAll | src/puzzles/puzzle25.ts:205-212 | when every name is in the graph none is skipped |
| Day25.LinkedAt | src/puzzles/puzzle25.ts:132-141 | one link adds exactly the pair of names, in both directions, and loses no link |
| Day25.LinkedExact | src/puzzles/puzzle25.ts:132-141 | after one link a name is in the graph exactly when it was or is the linked name |
| Day25.LinkedKeeps | src/puzzles/puzzle25.ts:139-148 | one link keeps the earlier order and edges and records the edge under its id |
| Day25.LinkedValid | src/puzzles/puzzle25.ts:132-149 | one link keeps the graph valid |
| Day25.LinkedShaped | src/puzzles/puzzle25.ts:132-141 | one link keeps names, repeat-free link sets and mirrored links |
| Day25.LinkedEdges | src/puzzles/puzzle25.ts:142-148 | after one link every edge sits under its own id and joins two linked components |
| Day25.LinkedAllAt | src/puzzles/puzzle25.ts:132-141 | a line's links connect its component to each listed name and back, and lose nothing |
| Day25.LinkedAllKeeps | src/puzzles/puzzle25.ts:139-148 | a line's links keep the earlier order and edges and record one edge per listed name |
| Day25.LinkedAllValid | src/puzzles/puzzle25.ts:132-149 | a line's links keep the graph valid |
| Day25.WithComponentValid | src/puzzles/puzzle25.ts:125-131 | finding or adding the component keeps the graph valid and changes no link |
| Day25.DistinctAppend | src/puzzles/puzzle25.ts:131 | adding a component not yet in the graph keeps its names distinct |
| Day25.MentionsLast | src/puzzles/puzzle25.ts:119-150 | a pair is mentioned by the lines exactly when the earlier lines or the last one mention it |
| Day25.WithLineAt | src/puzzles/puzzle25.ts:122-150 | one line links its component to each listed name and each of those back, losing nothing |
| Day25.WithLineValid | src/puzzles/puzzle25.ts:122-150 | one line keeps the graph valid |
| Day25.BuiltValid | src/puzzles/puzzle25.ts:112-150 | `buildGraph` gives a valid graph |
| Day25.BuiltAt | src/puzzles/puzzle25.ts:112-150 | a name links to another in the built graph exactly when some line joins the two |
| Day25.BuiltExact | src/puzzles/puzzle25.ts:112-156 | the built graph holds exactly the names the lines mention and links exactly the pairs they join |
| Day25.BuiltEdges | src/puzzles/puzzle25.ts:142-148 | every link a line lists is an edge under its id, joining its two linked vertices |
| Day25.BuiltHasEdges | src/puzzles/puzzle25.ts:142-148 | every listed link's id is among the edges |
| Day25.BrokenExact | src/puzzles/puzzle25.ts:216-222 | `breakLink` removes exactly the link between the two names, both ways when the other is in the graph |
| Day25.BrokenShaped | src/puzzles/puzzle25.ts:216-222 | breaking a link keeps names, repeat-free link sets and mirrored links |
| Day25.Cut | src/puzzles/puzzle25.ts:86-94 | cutting an edge keeps the graph's components and their order |
| Day25.CutShaped | src/puzzles/puzzle25.ts:86-94 | cutting an edge keeps the graph shaped |
| Day25.Unseen | src/puzzles/puzzle25.ts:234-238 | the links queued are exactly those not yet in the set |
| Day25.DrainCloses | src/puzzles/puzzle25.ts:229-240 | a drain that empties the queue ends with a set closed under links, holding every truthy queued name |
| Day25.VisitCovers | src/puzzles/puzzle25.ts:230-238 | visiting the front name keeps every link of a visited name visited or queued |
| Day25.DrainWithin | src/puzzles/puzzle25.ts:229-240 | a drain never leaves a closed set holding what it started with and the queued names |
| Day25.ReachedExactly | src/puzzles/puzzle25.ts:224-243 | the connected components are the least link-closed set holding the component's links |
| Day25.ReachedHasSelf | src/puzzles/puzzle25.ts:224-243 | in a mirrored graph a component with a link is among its own connected components |
| Day25.ReachedInGraph | src/puzzles/puzzle25.ts:232-238 | in a mirrored graph every connected component is a component of the graph |
| Day25.SubsetSmaller | src/puzzles/puzzle25.ts:100 | a subset is smaller exactly when it misses a member |
| Day25.CutSplits | src/puzzles/puzzle25.ts:96-101 | `networkSize < nComponents` exactly when some component is not reached from `nodes[0]` |
| Day25.SearchKAnswer | src/puzzles/puzzle25.ts:74-102 | an answer of the innermost loop comes from a triple it tries that splits the graph |
| Day25.SearchJAnswer | src/puzzles/puzzle25.ts:69-105 | an answer of the middle loop comes from a triple it tries that splits the graph |
| Day25.SearchIAnswer | src/puzzles/puzzle25.ts:69-105 | an answer of the loops comes from a triple they try that splits the graph, valued as the product of the sides |
| Day25.SearchKNoCut | src/puzzles/puzzle25.ts:74-102 | no answer from the innermost loop means every later triple repeats an edge or leaves the graph whole |
| Day25.SearchJNoCut | src/puzzles/puzzle25.ts:69-105 | no answer from the middle loop means every later triple repeats an edge or leaves the graph whole |
| Day25.SearchINoCut | src/puzzles/puzzle25.ts:69-105 | no answer means every triple tried repeats an edge or leaves the graph whole |
| Day25.Graph.constructor | src/puzzles/puzzle25.ts:112-156 | the class built from the lines holds `buildGraph`'s graph |
| Day25.Graph.AddLine | src/puzzles/puzzle25.ts:122-150 | one line updates the graph as `WithLine` says |
| Day25.Graph.AddLink | src/puzzles/puzzle25.ts:132-149 | one link updates the graph as `Linked` says |
| Day25.Graph.Link | src/puzzles/puzzle25.ts:200-202 | `link` adds the name to the component's link set and changes nothing else |
| Day25.Graph.BreakLink | src/puzzles/puzzle25.ts:216-222 | `breakLink` updates the graph as `Broken` says |
| Day25.Graph.BreakEdge | src/puzzles/puzzle25.ts:86-94 | breaking an edge updates the graph as `Cut` says |
| Day25.Graph.ConnectedComponents | src/puzzles/puzzle25.ts:224-243 | the queue loop returns the reached set, closed under links and holding the component's links |
| Day25.TryCut | src/puzzles/puzzle25.ts:84-98 | a fresh graph with the three edges cut reaches what `CutReach` says from `nodes[0]` |
| Day25.Part1 | src/puzzles/puzzle25.ts:69-105 | an answer comes from a tried triple that splits the graph, and no answer means no tried triple does (with puzzle25.ts lines 61-63) |
| Day25.TryTriples | src/puzzles/puzzle25.ts:69-105 | the three loops compute the search over the candidates |
| Day14.RunSpins | src/puzzles/puzzle14.ts:59-70 | the looper of `part2`, run with the corrected skip, ends on `Spun` of the start |
| Day13.Pattern.constructor | src/puzzles/puzzle13.ts:73-87 | a pattern holds the parsed rows, each node starting unflipped |
| Day14.RockGrid.constructor | src/puzzles/puzzle14.ts:22-27 | a fresh grid of the given size with every cell missing |
| Day14.RockGrid.SetAt | src/puzzles/puzzle14.ts:29-40 | `setAt` puts the node's symbol in that one cell |
| Day14.TiltFrom | src/puzzles/puzzle14.ts:220-235 | the passes keep the platform's shape |
| Day20.ModuleChain.constructor | src/puzzles/puzzle20.ts:111-122 | a chain with no modules, an empty pulse queue and every counter at 0 |
| Day20.Emit | src/puzzles/puzzle20.ts:192-201 | one pulse of the given type from the module to each output, in order |
| Day16.Propagate | src/puzzles/puzzle16.ts:160-185 | the lights after the queue drains still record only directions of tiles of the contraption |
| Day10.Linked | src/puzzles/puzzle10.ts:193 | linking every node keeps exactly the same tiles |
| Day07.Labels | src/puzzles/puzzle7.ts:48-51 | thirteen card labels, strongest first |
| Day07.IndexOf | src/puzzles/puzzle7.ts:52-53 | the first position of a label, or the length when it is absent |
| Day08.NextIndex | src/puzzles/puzzle8.ts:79 | the next instruction index stays below the instruction count (with puzzle8.ts line 138) |
| Day06.Numbers | src/puzzles/puzzle6.ts:42-47 | one number per digit run of the line |
| Day06.Ways | src/puzzles/puzzle6.ts:28 | one count per race, each the number of winning hold times (with puzzle6.ts line 35) |
| Day09.Values | src/puzzles/puzzle9.ts:27 | one extrapolation per history, in order (with puzzle9.ts line 44) |
| Day18.Segments | src/puzzles/puzzle18.ts:163-176 | one trenched range per instruction |
| Day18.Verticals | src/puzzles/puzzle18.ts:185-190 | the vertical ranges are exactly the trenched ranges with a vertical direction |
| Day18.Vertices | src/puzzles/puzzle18.ts:193-198 | one vertex per instruction, where it ends |
| Day23.Built | src/puzzles/puzzle23.ts:65-90 | the walkable nodes listed after the callback are distinct |

## Left out

- Queue.Queue.Process, Stack.Stack.Process, CyclicQueue.CyclicQueue.Process, PriorityQueue.PriorityQueue.Process: the source loops until the worklist is empty, which need not happen; the model bounds the loop by a `fuel` count of removals.
- Grid: `toString`, `draw`, `forEachRow` and `mapRow` render or log rows with colours and are not modelled; `key` is modelled by the renderings it joins.
- Grid.Grid.SetAt: requires `rowIndex >= minY` and `colIndex >= minX`. JavaScript stores a write below the minima as a non-index property, which `getAt` reads back and every iteration skips; the model does not cover such writes.
- Grid.Grid.FindCoords, Grid.Grid.Find: a write two or more rows past the last row leaves a hole in the outer array. `find` and `findCoords` would meet it as an `undefined` row and throw. The model keeps an empty row there, so the search goes on to the next row.
- VirtualGrid: `toString` and `draw` are not modelled, for the same reason. `Infinity` and `-Infinity` bounds are the absent box.
- Point3D: `divideBy` divides in floating point and is not modelled. `BigIntVector3D.divideBy` is modelled.
- Point3D: `toString` joins the components with commas as `Array.prototype.toString` does; `Point3DSet` is a `CustomSet` keyed by it.
- Memoize: the default key `JSON.stringify` is not modelled; callers supply the key function.
- Memoize and CachedFunction: the wrapped function is a pure function, so a function with side effects or one that depends on mutable state is not covered.
- CycleAwareLooper: the debug logging of the cycle it finds is not modelled; the action is a pure function from a state to the next state and its key.
- CycleAwareLooper.Run: models the skip as written, which ends one action past `nIterations` in some cases (see Findings). `CycleAwareLooper.RunCorrected` aims the skip at the last iteration.
- src/util/Timer.ts, src/util/readDataFile.ts and src/puzzles/Puzzle.ts read files, the clock and the console; they are not part of this model. Puzzle input arrives as the lines or tokens each day's model names.
- Worklists: JavaScript truthiness of an item is a `truthy` function given to the constructor.
- Worklists: callbacks with side effects are functions from a state to the new state and the items they add.
- Queue.length, PriorityQueue.length and CustomSet.size are functions on the fields; they have no contract of their own.
- Numbers are unbounded integers. JavaScript's 64-bit floating point (precision lost above 2^53, NaN, Infinity) is not modelled except where a day says so.
- Day02: the input's splitting on ": ", "; " and ", " and `parseInt` of the counts are not modelled; games arrive as an id and rounds of `(count, colour)` groups. The thrown error for an unknown colour is a `Failure`.
- Day03: a schematic whose lines differ in length is read by the model as the text is, but the index-to-point lemma (`Day03.FlatIndex`) is proved for lines of equal length only, as every puzzle input has. Symbols are identified by their point, as the `CustomSet` keyed by `index.toString()` does.
- Day03: `parseInt` of an empty match gives NaN and is skipped; only non-empty digit runs are modelled, which is the same.
- Day04: the regular expression of a card line and the whitespace splitting are not modelled; a card arrives as its id and its winning and card numbers as tokens.
- Day04.Score: requires the cards to be numbered 1, 2, … in order, as the puzzle input is; the source indexes `cards[id + i]` for any ids, which the model does not cover.
- Day05: the regular expression over the whole almanac and `parseInt` are not modelled; the seeds and the map levels arrive as numbers. `part1`'s writes to the seed objects are not modelled; only `location` is read.
- Day05.MapNumberSpec: requires the groups sorted by source start, as `parseMapStrings` leaves them. Day05.MapRangeImage and the lemmas under it require non-negative counts, which `parseInt` of a digit run always gives.
- Day05.Triples: requires the map numbers to come in threes, as the almanac gives them; a short last group, whose missing fields `slice` leaves `undefined` (src/puzzles/puzzle5.ts:140-144), is not modelled.
- Day05.ParseMapString: requires the map numbers to come in threes; a short last group with `undefined` fields is not modelled.
- Day05.Pairs: requires the seed numbers to come in pairs, as the almanac gives them; a short last range, whose count `slice` leaves `undefined` (src/puzzles/puzzle5.ts:111-114), is not modelled.
- Day05.PairUp: requires the seed numbers to come in pairs; a short last range with an `undefined` count is not modelled.
- Day05.Part2: requires the seed numbers to come in pairs; a short last range with an `undefined` count is not modelled.
- Day05.Part2Method: requires the seed numbers to come in pairs; a short last range with an `undefined` count is not modelled.
- Day05.Part2Least: requires the seed numbers to come in pairs; a short last range with an `undefined` count is not modelled.
- Day05.Part2Least: states only that the answer is at most every reachable location; a range with count 0 has a start that also counts toward `Math.min`, as in the source, so the answer is not proved to be a seed's location.
- Day14.Spun: that it is the platform after 1e9 spin cycles is not proved. `CycleAwareLooper.CorrectedRunMatches` proves this for actions whose keys identify states everywhere, and the platform key identifies platforms of one shape only (`Day14.KeyIdentifies`).
- Day25: the sampling loop that counts edge traversals is not modelled (`Math.random`, src/puzzles/puzzle25.ts:17-55). The edge ids ranked by traversal count are a parameter of `Day25.Part1`.
- Day25.Part1: requires every ranked id to be an edge of the graph, as the `!` on `edges.get(edgeId)` assumes; `===` on edges is value equality, which agrees because `CustomSet` keeps one edge object per id.
- Day25: the line splitting is not modelled; a line arrives as its name and its linked names. The `''` name an empty link string gives becomes a component, as in the source, and is never visited, as it is falsy.
- Day25: a JavaScript `Set` is a sequence in insertion order without repeats. The `graph` back-reference of edges and components is the one graph the functions are given. `queue.add` is modelled as `enqueue`.
- Day25.Graph.ConnectedComponents: the queue loop takes a fuel bound on shifts; `None` means the fuel ran out, and the search reports `OutOfFuel`.
- Day25: `nodes[0]` of an empty graph is `undefined` and the source would throw; every puzzle input has a line, and the model does not cover the empty graph.
- Day25: `sort` compares names by code point, which equals UTF-16 order for names in the Basic Multilingual Plane only. Names that contain '-' can share an edge id; `Day25.EdgeIdDeterminesPair` is stated for names without '-'.
- Day25: `console.warn` in `neighbors` and `part2`'s constant answer are not modelled.
- Day06: `parseInput` computes number lists it then discards and passes the text on; the model starts from the lines. `\s` is modelled for the ASCII whitespace characters only.
- Day06.Numbers: only the non-empty digit runs are read; `parseInt` of a digit run never yields NaN, so NaN is not modelled.
- Day07: `parseInput`'s line splitting is not modelled; rounds start as a hand string and a bid. Hands of any length are scored; the lexicographic score order is proved for hands of equal length. `toSorted`'s stability is modelled by the insertion sort but not stated as a property.
- Day08.Part2: returns the cycle lengths rather than their least common multiple; `lcm` is not modelled.
- Day08.Part1 and Day08.Part2: the source loops without bound; the model takes a step budget and reports running out of it.
- Day08: a line is given as its list of words; the `\w+` regular expression that splits it is not modelled.
- Day08: with no instructions the source index becomes NaN; the model keeps the index at 0, which reads no direction, as NaN does.
- Day08: nodes are compared by value rather than object identity, which agrees because every node in the graph has a distinct id.
- Day09: histories are given as integer sequences; splitting lines on whitespace and `Number` (which reads an empty token as 0) are not modelled.
- Day10: the `Node` objects are modelled as per-tile state (value, links, distance, outside-ness) in maps keyed by position; links are kept as offsets rather than node references.
- Day10: `Infinity` for an unreached tile is the absence of the tile from the distance map.
- Day10.Walk: the queue loop has no termination bound in the source; the model takes a fuel bound on the number of nodes taken off the queue and `ParseInput` returns `OutOfFuel` when it is exhausted.
- Day10: the `isOutside` branch of `calculateOutside` that keeps an already-set outside flag is not modelled; each tile is visited once and the flag starts false, so it never fires.
- Day10: the "Node is not a start node" error of `calculateStartNodeValue` is not modelled; it is only ever called on the start.
- Day10.ParsedDistances: the shortest-path statement assumes the grid holds a single 'S'; other start tiles also begin at 0 and are never relaxed.
- Day10: `toString`, the `kleur` colouring and the commented-out `draw` calls are not modelled.
- Day12: the memo table of `countArrangements` (keyed by `${line}:${runs}`) is not modelled; it only caches the pure recursion.
- Day12: the parsing of rows (`split(' ')`, `split(',')`, `Number`) is not modelled; rows come as springs and run lengths, and the runs are natural numbers (a `NaN` or negative from `Number` is not represented).
- Day13: each node's symbol lives in the pattern's `cells` rather than in a separate `Node` object; nodes are never shared between patterns, so no aliasing is lost. `toString` comparison of rows and columns is modelled as sequence equality, which agrees because every node renders as one character.
- Day13: `drawModifiedNode` and the `kleur` colouring are not modelled.
- Day13.Part2: requires all nodes of every pattern to be unflipped on entry, which is how parsing leaves them.
- Day14: `RockGrid` is modelled as its own class with the platform's cells, width and height; the other `Grid` fields it inherits are fixed by parsing and not needed. Each `Node` is the symbol in its cell; nodes are identified by position, which agrees because a node never changes position.
- Day14: the input arrives as lines; `split('\n')` and `split('')` are not modelled.
- Day14.RockGrid.Part2: the looper's action is the pure spin cycle on the platform rather than a closure over the grid. The looper runs with the corrected skip (`CycleAwareLooper.RunCorrected`, see Findings), aimed at the last of the 1e9 spin cycles.
- Day14.RockGrid.Part2: not proved to be the load of the platform after 1e9 spin cycles; the model proves it is the load of the platform that `Spun` gives, and `Day14.Spun` carries the same gap.
- Day14.RunSpins: not proved to leave the platform of 1e9 spin cycles; it is proved to run the corrected looper on the spin cycle, whose result equals the plain run only for actions whose keys identify states (`CycleAwareLooper.CorrectedRunMatches`).
- Day14.RockGrid.CollectRocks: the four `for` loops of the `switch` are modelled as one loop over the rows or columns in the order each case visits them.
- Day15: a `Box` is represented by its lenses in the insertion order of its underlying `Map`, and a `Lens` is a value; `setFocalLength` replaces the lens in its slot. Each lens lives in one box only, so no aliasing is lost.
- Day15: `charCodeAt(0)` is modelled as the character's code point, which equals the UTF-16 code unit for characters in the Basic Multilingual Plane only.
- Day15: the box-index range check and the missing-box check of `runHASHMAP` are not modelled; the hash always lies in [0, 255] (`HashOf`), so neither can fire.
- Day15: NaN from `parseInt` of a missing focal length is `None`; the focusing power is `None` exactly when some lens has no focal length, as NaN propagates through `sum`.
- Day16: each `Tile` object becomes an entry of the contraption's `lights` map keyed by its position; tiles are never shared, so no aliasing is lost. The `Queue` field is a sequence field of the contraption.
- Day16: `Queue.reset`, which `reset` calls, does not exist on the `Queue` class; it is modelled as emptying the queue.
- Day16: `toString`, and the `grid` back-reference of each tile, are not modelled.
- Day16: `Math.max` of the possibilities is modelled on a non-empty list; parsing guarantees at least one column and row, so the empty `-Infinity` case cannot occur.
- Day17: a character that is not a digit gives a `NaN` heat loss in the source; `ParseInput` requires digits.
- Day17: blocks are identified by their (row, col) position rather than object identity, and the state key is a datatype rather than the joined string; both agree because each position holds one block and the string determines the position and the moves.
- Day17: the "No start block" error cannot occur, as every kept line is non-empty; the `!block` guard is dead, as a walk always holds its start block.
- Day17.Search: proves only that a finite answer is the heat loss of a walk that obeys the rules and reaches the end; that it is the least such loss is not proved.
- Day17.Drain: proves only that a finite `minHeatLoss` is the heat loss of a walk that obeys the rules and reaches the end; that it is the least such loss is not proved.
- Day17.Drain: `process` is modelled as its loop of `pop` calls with a fuel bound on the number of pops; `None` means the fuel ran out.
- Day17.Search: `process` is modelled as its loop of `pop` calls with a fuel bound on the number of pops; `None` means the fuel ran out. The queue keeps its stale priorities as written (see the PriorityQueue finding), which does not affect what is proved.
- Day17.Part1: not proved to be the least heat loss of a walk to the end; a finite answer is proved to be the heat loss of some walk that obeys the part 1 rules.
- Day17.Part2: not proved to be the least heat loss; a finite answer is proved to be the heat loss of some walk that obeys the part 2 rules as written.
- Day17.Part2Corrected: not proved to be the least heat loss; a finite answer is proved to be the heat loss of some walk whose every run is four to ten moves.
- Day18: the `matchAll` regular expression over the whole file is not modelled; lines arrive as the three captured groups.
- Day18.HexInstruction: requires five hex digits; `parseInt(..., 16)` of a code with other characters reads a prefix or gives `NaN`, which is not modelled. `Day18.DecimalInstruction` likewise reads only digit strings, as `\d*` captures.
- Day18: `Terrain` objects are modelled by the sets of trenched and edge cells of the map; each cell holds one terrain, so no aliasing is lost. Every cell of the box reads as a terrain, as `getBlank` always makes one, so the blank cells `getAt` creates are not tracked.
- Day18: `Stack` has no `add`; `fillStack.add` in `trenchEdges` (puzzle18.ts lines 100 and 112) is modelled as `push`.
- Day18.TerrainMap.FillEdges: requires a map with no edge marks, which is how `part1` calls it; edge marks left over from elsewhere would stop the fill early.
- Day18: `GiantTerrainMap.trenchCount` and `part2`'s count are not modelled; the scan visits every cell of the box and its interior test by vertical crossings is not proved to count the lagoon. `width`, `height` and `draw` are not modelled either.
- Day18: the points of `pointsInRange` are the cells themselves, since `Point.toString` tells points apart.
- Day19: the input splitting and the regular expressions are not modelled; workflows arrive as their captured groups (an unmatched rule captures empty strings), ratings as name/value pairs.
- Day19: the workflow dictionary is a map, so JavaScript prototype keys such as "constructor" are not found in it as they would be in the object.
- Day19: `Stack` has no `add`; `stack.add` in both parts (puzzle19.ts lines 129, 156, 223 and 234) is modelled as `push`.
- Day19.Part1 and Day19.Part2: the source loops without bound on cyclic workflows; the model takes a budget of workflows per walk (pops of the stack) and reports running out of it.
- Day19.Part2: requires every rule to name x, m, a or s; for any other name `partRanges[property]` is undefined and the source throws a `TypeError`. Only soundness is proved (every counted combination is accepted); that the boxes are disjoint and that every accepted combination is counted is not proved.
- Day20: the line splitting (`split('\n')`, `' -> '`, `', '`) is not modelled; lines arrive as a name and its outputs.
- Day20: the `CustomSet` of modules is kept as a map plus its insertion order inside `ModuleChain`, since its module objects are updated in place; modules are values, identified by name, which agrees because the set holds one module per name.
- Day20: `isOn` starting `undefined` is modelled as false and a missing `lastPulseReceivedFrom` as an empty map; both read the same in the source.
- Day20: the `key` getter is not modelled; nothing in the puzzle uses it.
- Day20: `Queue` has no `add`; `this.pulses.add` in `pushButton` (puzzle20.ts line 157) is modelled as `enqueue`.
- Day20.ModuleChain.Part2: the least common multiple of the presses is not taken (`lcm` is not part of this model); the presses themselves are returned. The source loops without bound; the model takes a press budget and a pulse budget per press, and reports `OutOfFuel`.
- Day20.ModuleChain.Part1: each press takes a pulse budget; when one press outlasts it the result is None and the chain's state is not specified further.
- Day20.ParseInput: the source adds each module as its line is read and throws at the first invalid line; the model parses every line first, which gives the same result since the partly built chain is discarded.
- Day20: JavaScript's `Map` and arrays are modelled as Dafny maps and sequences; the part 2 chain continues from the state part 1 leaves, as the puzzle runner passes the same object to both.
- Day21: the line splitting is not modelled; lines arrive as strings. The `Queue` class has no `add`; `walk.add` is modelled as `enqueue`.
- Day21: the cell keys `"row,col"` become coordinate pairs, which agree because the string determines the pair; `Infinity` for an unvisited cell is the absence of the cell from the map.
- Day21: `src/util/arithmetic.ts` defines no `mod`, so the imported helper is not part of this model; it is modelled by `Arithmetic.Mod`, the non-negative remainder that wrapping a coordinate onto the map needs. The map is kept as the parsed cell values; a cell is never changed after parsing.
- Day21.CountGardens: the source's `process` loop has no bound; the model takes a budget of queue shifts and returns None when it runs out.
- Day21.Part2: the quadratic fitted through the three counts, its floating-point evaluation at 202300 and the dead "more than three results" checks are not modelled; the three counts are returned.
- Day22: the line splitting and `Number` parsing of the corners are not modelled; each brick arrives as its two corners. The `name` field is not modelled; nothing reads it.
- Day22: `Brick` objects become indices into the sky's brick sequence, and each brick is a value that `moveDown` replaces; bricks are never shared, so no aliasing is lost. `Set<Brick>` values are sequences kept in insertion order without repeats.
- Day22: `PriorityQueue` takes a `priority` option and has no `add`, while `settle` passes `compare` and calls `add`; the model pushes onto the back and `process` pops from the back, as `PriorityQueue.process` does. The order in which bricks settle is not modelled; no property proved depends on it.
- Day22.SkyMap.constructor: requires every brick to have a cube; a brick with no cubes can always fall, and `settle` would never end.
- Day22.SkyMap.constructor: that the bricks rest with every cube located is proved for input bricks that share no cube; shared cubes make the cache map a cell to one brick only.
- Day22: `Queue` has no `add`; `queue.add` in part 2 is modelled as `enqueue`.
- Day22.Part2: the source drains each queue without bound; the model takes a budget of shifts per chain reaction and returns None once one runs out. That the fallen bricks are exactly those that must fall is not proved; only that every fallen brick rests on the removed brick or on fallen bricks.
- Day22.ChainFallen: not proved to be exactly the bricks that must fall when the brick is removed; it is proved only that every brick in the chain rests on nothing but the removed brick and bricks of the chain.
- Day23: the line splitting is not modelled; lines arrive as strings. Nodes are identified by their cell, which agrees because each cell holds one `Node`; `neighborDirections` is one map keyed by the pair of cells. `toString` and the `id` field are not modelled.
- Day23: `PriorityQueue` takes a `priority` option and has no `add`, while `longestPath` passes `compare` and calls `add`; the model pushes onto the back and pops from the back, as `PriorityQueue.process` does.
- Day23: the callback's `for` loop over the neighbours is the function `Extensions`, as `process` takes the callback as a function of the state and the entry.
- Day23.GardenMap.LongestPath: the source's `process` has no bound; the model takes a budget of pops and returns None when it runs out. That every simple path to the end is explored (so the answer is the longest one) is not proved; only that every explored entry is a simple path and that the answer is the best among them.
- Day23.Part1: not proved to be the longest simple path from the start to the end; through `Day23.LongestHikeSpec` it is 0 or the length of a simple path the search explored to the end, and at least every such explored length.
- Day23.Part2: not proved to be the longest simple path on the pruned map; through `Day23.LongestHikeSpec` it is 0 or the length of a simple path the search explored to the end, and at least every such explored length.
- Day23.GardenMap.CollapseNode: the "missing expected neighbors" error cannot fire, since a set of size 2 has two members.
- Day23.GardenMap.Prune: requires the map to be well linked, which the constructor guarantees (`BuiltWellLinked`).
- Day23: `isCollapsed` is kept as the set of collapsed nodes; nothing reads it.

## Findings

| source | as written | input that shows it | evidently intended | confidence | as-written member | corrected member |
|---|---|---|---|---|---|---|
| src/types/CycleAwareLooper.ts:54-57 | the skip adds whole cycles up to `nIterations` itself, and the loop then runs one more action | a toggle between two states, 4 iterations from `false`: the cycle of length 2 is seen at iteration 2, the skip moves to 4, and the state after 5 toggles, `true`, is returned | the state after `nIterations` actions, `false` here; aiming the skip at `nIterations - 1` gives it | high; not executed | CycleAwareLooper.SkipAsWrittenOvershoots | CycleAwareLooper.CorrectedRunMatches |
| src/types/PriorityQueue.ts:28-39 | `process` and `reset` shrink `queue` but never `priorities` | `ascending` false, each item its own priority: enqueue 5, 2, 1, drain, then enqueue 1 and 2; the stale priorities put 2 after 1, so 2 is popped first | both arrays shrink together, so the lowest priority is always popped first | high; not executed | PriorityQueue.StalePrioritiesMisorder | PriorityQueue.DrainAlignedKeepsInvariant |
| src/puzzles/puzzle9.ts:19-36 | the loops (lines 19 and 36) stop when the differences sum to 0 | 0 1 0: the differences 1 -1 sum to 0, so both directions return 0 | stop when every difference is 0, giving -3 on both sides | high; not executed | Day09.SumStopsEarly | Day09.NextKeepsDegree |
| src/puzzles/puzzle17.ts:149-181 | `slice(-4)` (lines 149, 153 and 181) of fewer than four moves is all of them, so part 2 lets the walk turn, and the end count, after a first run shorter than four | the city `19`: the single move right is accepted with heat loss 9 | no walk of the city `19` counts; every run, the first included, is at least four moves | high; not executed | Day17.TwoBlocksAsWritten | Day17.TwoBlocksCorrected |
