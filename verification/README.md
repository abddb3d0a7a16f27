# 3D-ICE core, modelled in Dafny

3D-ICE is a compact transient thermal simulator for 3D stacked integrated
circuits with inter-tier liquid cooling. Its stack of dies, layers and
microchannel or pin-fin cavities is discretised into a grid of thermal
cells. Each cell is joined to its six neighbours by conductances. The
simulator assembles a sparse linear system, factors it once with a sparse
direct solver, and then advances time step by step.

This project models the logic of that core that decides things:

- **Grid** (`grid.dfy`): the flat cell index
  `layer*NRows*NColumns + row*NColumns + column`, its inverse, and the six
  neighbour directions with their index offsets.
- **Conductance** (`conductance.dfy`): the `PARALLEL` rule that joins two
  facing half-cell conductances.
- **Stencil** (`stencil.dfy`): the four column builders of the system
  matrix, in compressed-column (CCS) and compressed-row (CRS) storage, for
  solid and for liquid cells. Each builder is proved against a dense
  reference definition of the matrix entry (`SolidEntry`, `LiquidEntry`).
  The older resistance-based `add_solid_column` and `add_liquid_column`
  (Sources/system_matrix.c, lines 88-280 and 286-467) emit exactly what
  the newer CCS builders emit, so `AddCcsSolidColumn` and
  `AddCcsLiquidColumn` model them too. This includes swapping North and
  South between the south and north entries, and adding North to the
  diagonal on the first and last rows.
- **SystemMatrix** (`system_matrix.dfy`): allocation and release of the
  Columns/Rows/Values arrays, and the assembly of a whole grid column by
  column.
- **Traversal, Channel, Die, LegacyDie** (`traversal.dfy`, `channel.dfy`,
  `die.dfy`, `legacy_die.dfy`): the stack composition. They record:
  - which stack layer each die layer or cavity sub-layer is written to;
  - in which order the cells are visited;
  - which filler or builder each cell gets;
  - where the coolant inlet sources go;
  - how the per-layer entry counts advance the matrix pointers.
- **ThermalData** (`thermal_data.dfy`): the driver state machine. It
  covers the factorization mode (DOFACT, SamePattern, FACTORED), the change
  flags, when the matrix is refactored and when a solve is refused, and the
  documented results of the emulation entry points.
- **Queries** (`queries.dfy`): the return codes of the temperature queries.
- **PowersQueue, NetworkMessage, Analysis, Floorplan, Material**: the FIFO
  of power values, the bounded message buffer, the routing of inspection
  points, floorplan checks and grid alignment, and the material list.

Collaborators whose code is not part of this model are parameters:
- the sparse solver's factorization and triangular solve;
- the thermal-cell fillers;
- the convection formulas;
- the channel-column test;
- the per-point header and output writers;
- malloc, whose success is a boolean.

Doubles are modelled as Dafny `real`.

## Model

| member | source | states |
|---|---|---|
| Grid.Index | sources/system_matrix.c:167-170 | every cell of the grid gets a flat index below the number of cells, and CellOf recovers the cell from it |
| Grid.IndexOfCellOf | sources/system_matrix.c:167-170 | every flat index below the number of cells is the index of exactly the cell CellOf gives, so the numbering is a bijection |
| Grid.IndexInjective | sources/system_matrix.c:167-170 | two grid cells share a flat index only if they are the same cell |
| Grid.StepIndex | sources/system_matrix.c:184-326 | moving to the bottom, south, west, east, north or top neighbour moves the flat index by minus the layer area, minus NColumns, minus 1, plus 1, plus NColumns or plus the layer area |
| Conductance.Parallel | sources/system_matrix.c:37 | PARALLEL(x, y) of two positive conductances is positive and below each of them |
| Conductance.ParallelCommutes | sources/system_matrix.c:37 | PARALLEL does not depend on the order of its two faces, which is what makes the off-diagonal entries (i, j) and (j, i) equal |
| Conductance.ParallelIsSeries | sources/system_matrix.c:37 | PARALLEL of two positive conductances is their series combination: the reciprocals add up |
| Stencil.SolidEntrySymmetric | sources/system_matrix.c:184-330 | the solid system matrix is symmetric in pattern and value, because each coupling joins the two facing faces of the two cells |
| Stencil.SolidEntryPattern | sources/system_matrix.c:184-326 | with positive faces, an off-diagonal solid entry is nonzero exactly between two adjacent cells |
| Stencil.BuildShape | sources/system_matrix.c:182-341 | every builder emits between 1 and 7 entries, advances the pointer from the previous one by the count it returns, lists exactly the cell and its grid neighbours, ascending for CCS and descending for CRS |
| Stencil.AddCcsSolidColumn | sources/system_matrix.c:161-342 | the CCS solid column of a cell holds, in strictly increasing row order, exactly the nonzeros of that column of the reference solid matrix; the pointer ends at the previous pointer plus the count returned, between 1 and 7 |
| Stencil.AddCrsSolidColumn | sources/system_matrix.c:359-543 | the CRS solid row of a cell holds the same neighbourhood in strictly decreasing column order, with the values of the reference matrix; with a heat sink, a top-layer cell adds its own Top conductance to the diagonal only |
| Stencil.AddCrsLiquidColumn | sources/system_matrix.c:739-903 | the CRS liquid row holds the raw North coefficient on the north neighbour, the raw South coefficient on the south neighbour, minus the couplings east, west, top and bottom, and a diagonal that adds North once on the first and the last row |
| Stencil.AddCcsLiquidColumn | sources/system_matrix.c:559-723 | the CCS liquid column places the raw North coefficient of its own cell on the south neighbour and its raw South coefficient on the north neighbour, whatever the neighbours carry, in increasing row order; it agrees with the row-wise reference wherever the flow coefficients along the channel are the same |
| Stencil.CcsSolidColumnSum | sources/system_matrix.c:184-341 | each CCS solid column sums to the capacity of its cell, since the diagonal is the capacity plus the conductances whose negatives fill the column |
| Stencil.CrsSolidRowSum | sources/system_matrix.c:377-543 | each CRS solid row sums to the capacity of its cell, plus the cell's Top conductance when a heat sink sits on the top layer |
| Stencil.CrsLiquidRowSum | sources/system_matrix.c:739-903 | an interior liquid row whose North and South coefficients cancel sums to the capacity of its cell |
| Stencil.SolidLayoutsAgree | sources/system_matrix.c:161-543 | the CCS and CRS solid builders describe the same matrix: an entry is in a column exactly when it is in the corresponding row, with the same value |
| Stencil.LiquidLayoutsAgree | sources/system_matrix.c:559-903 | with equal flow coefficients along the flow, the CCS and CRS liquid builders describe the same matrix |
| SystemMatrix.AllocSystemMatrix | sources/system_matrix.c:44-97 | Size, NNz and the storage are recorded; CCS sizes Columns at nvalues+1 and Rows at nnz, CRS swaps the two, and any other storage returns 0; 1 is returned exactly when all three allocations succeed, and otherwise no buffer is left allocated |
| SystemMatrix.AllocResistanceMatrix | Sources/system_matrix.c:18-51 | a NULL matrix returns 0 untouched; otherwise Size and NNz are recorded, 1 is returned exactly when all three allocations succeed, with Columns holding nvalues+1 entries and Rows and Values nnz each, and a failure frees the buffers already obtained |
| SystemMatrix.FreeSystemMatrix | Sources/system_matrix.c:57-64 | NULL is left alone; otherwise all three buffers are released and nothing else changes |
| SystemMatrix.FillSystemMatrix | Sources/system_matrix.c:70-82 | assembling the grid cell by cell gives Columns starting at 0, each column advancing the pointer by 1 to 7, and the Rows/Values slice of each column listing the cell and its neighbours in ascending order with the reference values; a liquid column holds its own cell's raw North coefficient on the south entry and raw South coefficient on the north entry |
| Material.InitMaterial | Sources/material.c:17-25 | NULL stays NULL; otherwise Id is NULL and both coefficients are 0 |
| Material.FreeMaterial | Sources/material.c:46-52 | NULL frees nothing; otherwise the structure is freed, and the Id exactly when it is set |
| Material.FindMaterialInList | Sources/material.c:107-118 | the result is the first material whose Id equals the name, and NULL exactly when none does |
| Traversal.VisitLayer | sources/channel.c:318-438 | the nested row and column loops visit the cells of one layer in row-major order, with the cell pointer equal to each cell's flat index |
| Traversal.WalkVisitsOnce | sources/channel.c:318-438 | every cell of the layer is visited, and only once |
| Channel.InitChannel | sources/channel.c:43-57 | every field takes its default and there is no wall material |
| Channel.FillThermalCellChannel | sources/channel.c:224-440 | 4RM fills one layer, liquid on channel columns and solid elsewhere; the other models fill four consecutive layers in the order bottom wall, virtual wall, liquid, top wall, with the pin-fin fillers for pin fins and the 2RM fillers otherwise |
| Channel.FillSystemMatrixChannel | sources/channel.c:512-662 | the matrix fill uses the same layers and cell order, with the liquid or solid builder per column in 4RM and the four sub-layer builders otherwise |
| Channel.LiquidAgrees | sources/channel.c:224-662 | in every sub-layer, the thermal-cell filler of a cell is a liquid filler exactly when its matrix-column builder is a liquid builder |
| Channel.ChannelFillsAgree | sources/channel.c:224-662 | the thermal-cell fill and the matrix fill visit the same cells in the same order and agree on which are liquid |
| Channel.RoundHalfUp | sources/channel.c:476 | the 2RM channel count is the chip length over the pitch, rounded to the nearest integer, half up |
| Channel.Channels4Rm | sources/channel.c:481 | the 4RM channel count (NColumns-1)/2 satisfies 2n+1 <= NColumns <= 2n+2, and wraps as 32-bit unsigned arithmetic when NColumns is 0 |
| Channel.FillSourcesChannel | sources/channel.c:444-508 | 2·C·Tin is written into row 0 of the coolant layer (layer_index+2 in 2RM and pin-fin, and only channel columns in 4RM); every other source keeps its value |
| Channel.InletCellsAreLiquid | sources/channel.c:451-508 | every cell that receives an inlet source is one the thermal fill made liquid |
| Die.InitDie | sources/die.c:44-52 | Id is NULL, the counters are 0, there are no layers and no source layer |
| Die.FindDieInList | sources/die.c:115-122 | the first die whose Id equals the name, or NULL exactly when none does |
| Die.FillThermalGridDataDie | sources/die.c:126-145 | one call per layer in list order, on consecutive stack layers from layer_index |
| Die.FillSourcesDie | sources/die.c:149-200 | per layer in list order, the active filler exactly for SourceLayer and the empty filler otherwise, each at layer_index + Offset |
| Die.FillSystemMatrixDie | sources/die.c:204-232 | one matrix call per layer in list order, at layer_index + Offset |
| Die.OneActiveLayer | sources/die.c:166-197 | exactly one layer gets the active filler when SourceLayer is one of the die's layers, and none otherwise |
| Die.DieFillsAgree | sources/die.c:126-232 | when each layer's Offset is its position, the grid, source and matrix fills address the same stack layer for every die layer |
| LegacyDie.InitDie | Sources/die.c:20-31 | Id and the layer list are NULL, NLayers and SourcesId are 0 |
| LegacyDie.FindDieInList | Sources/die.c:135-147 | the first die whose Id equals the name, or NULL exactly when none does |
| LegacyDie.FillResistancesDie | Sources/die.c:154-193 | one call per layer in list order, current_layer incremented once per layer |
| LegacyDie.FillSourcesDie | Sources/die.c:250-308 | one filler call per layer in list order: the active-layer filler exactly when the layer's Id equals SourcesId, the empty-layer filler otherwise; the k-th call gets the sources pointer advanced by k layer areas, and the pointer returned lies past the last layer |
| LegacyDie.OneActiveLayer | Sources/die.c:270-305 | when no two layers share an Id, exactly one layer gets the active filler if some layer carries SourcesId, and none otherwise |
| LegacyDie.FillSystemMatrixDie | Sources/die.c:314-365 | layer k is filled at current_layer + k, with the cell pointers advanced by k layer areas and the entry pointers by the entries the earlier layers added; the result is the total of all the per-layer counts |
| ThermalData.InitData | sources/thermal_data.c:38-41 | all size elements equal the initial value |
| ThermalData.InitThermalData | sources/thermal_data.c:45-171 | one temperature and one source per cell, temperatures at the initial value, sources at 0, and Fact DOFACT |
| ThermalData.FillThermalData | sources/thermal_data.c:206-285 | a flow change refills the matrix and asks for SamePattern after a factorization (DOFACT otherwise); any change rebuilds the sources and B and clears both flags; the factorization runs, its info is returned and Fact becomes FACTORED exactly when the flow changed or Fact was not FACTORED; otherwise 0 is returned |
| ThermalData.FillIdempotent | sources/thermal_data.c:206-285 | a second fill with no change in between returns 0, does not refactor and leaves the state unchanged |
| ThermalData.Iterations | sources/thermal_data.c:296-326 | the loop on total_time runs the least number of passes after which no time is left |
| ThermalData.Run | sources/thermal_data.c:296-326 | the passes keep Fact and the sources, and after a successful last solve B agrees with the new temperatures |
| ThermalData.SolveSystem | sources/thermal_data.c:289-327 | DOFACT is refused with 1 and no change; otherwise as many passes as time steps, stopping at the first failing solve and returning its info |
| ThermalData.FillThenSolve | sources/thermal_data.c:206-327 | after fill_thermal_data the factors are current, so the solve is not refused, and a successful run leaves B consistent with the sources the fill set |
| ThermalData.EmulateStep | include/thermal_data.h:187-207 | WRONG_CONFIG exactly for a steady configuration; END_OF_SIMULATION when powers run out; SOLVER_ERROR on a failing solve; otherwise SLOT_DONE when the slot completes and STEP_DONE when it does not |
| ThermalData.EmulateSlot | include/thermal_data.h:211-228 | never STEP_DONE; WRONG_CONFIG exactly for a steady configuration; otherwise the result of the first step that does not merely finish |
| ThermalData.EmulateSteady | include/thermal_data.h:232-249 | WRONG_CONFIG exactly for a transient configuration; SOLVER_ERROR on a failing solve; END_OF_SIMULATION when no powers are given or the solve succeeds |
| ThermalData.UpdateCoolantFlowRate | include/thermal_data.h:253-270 | FAILURE exactly when the refactorization fails; the sources and B are rebuilt only on success |
| ThermalData.UpdateAgreesWithFill | include/thermal_data.h:253-270 | a successful update leaves the same state as fill_thermal_data after a flow-rate change, and both report success together |
| Queries.GetCellTemperature | include/thermal_data.h:452-467 | 0 and the cell's temperature exactly when the cell exists, -1 otherwise |
| Queries.CellQueryRoundTrip | include/thermal_data.h:452-467 | querying the cell a flat index stands for returns the temperature stored at that index |
| Queries.ElementStatistic | include/thermal_data.h:274-352 | 0 with the element's value when both names resolve; -1 exactly when no stack element has that name; -2 exactly when it has no floorplan; -3 exactly when the floorplan has no such element |
| Queries.AllStatistics | include/thermal_data.h:354-448 | 0 with one value per element in declaration order; -1 and -2 as for one element |
| Queries.AllStatisticsAgree | include/thermal_data.h:274-448 | the whole-floorplan query writes, for each element, the value the single-element query returns for its name |
| PowersQueue.InitPowersQueue | sources/powers_queue.c:37-42 | the new queue is empty and valid |
| PowersQueue.IsEmpty | sources/powers_queue.c:57-60 | true only when Length is 0, and on a valid queue exactly when no node is reachable |
| PowersQueue.EmptyMeansNoValues | sources/powers_queue.c:57-60 | on a valid queue, Length is 0 exactly when no node is reachable |
| PowersQueue.GetFromPowersQueue | sources/powers_queue.c:103-106 | the head value, or 0 when the queue is empty |
| PowersQueue.PopFromPowersQueue | sources/powers_queue.c:110-119 | exactly the head is removed and Length drops by one |
| PowersQueue.PutAsWritten | sources/powers_queue.c:75-99 | as written: a failed allocation keeps the nodes but leaves Tail NULL; a successful one appends the value, except that a non-empty queue with a NULL Tail dereferences it |
| PowersQueue.PutAsWrittenLosesTail | sources/powers_queue.c:75-99 | after a failed allocation, a queue still holding a node has a NULL Tail, and the next successful put dereferences it |
| PowersQueue.PutIntoPowersQueue | sources/powers_queue.c:75-99 | a successful put appends the value at the tail and keeps the queue valid; a failed allocation leaves the queue as it was |
| PowersQueue.PutVersionsAgree | sources/powers_queue.c:75-99 | when the allocation succeeds, the corrected put does what the code does |
| PowersQueue.PutAllAppends | sources/powers_queue.c:87-98 | successive puts append their values in order |
| PowersQueue.PopNDrops | sources/powers_queue.c:110-119 | n pops remove exactly the first n values |
| PowersQueue.Fifo | sources/powers_queue.c:75-119 | values come out in the order they were put in |
| PowersQueue.FreePowersQueue | sources/powers_queue.c:64-71 | popping until empty releases every value, head first, and leaves the queue empty |
| NetworkMessage.InitNetworkMessage | sources/network_message.c:46-57 | every word is 0, so the length word reads 0 |
| NetworkMessage.BuildMessageHead | sources/network_message.c:61-66 | Length becomes 2 and Type the given type; the content is untouched |
| NetworkMessage.InsertMessageWord | sources/network_message.c:72-89 | fails without change exactly when Length equals MaxLength; otherwise, for a length word of 1 or more, writes the word at Memory[Length] and increments Length, leaving the other words alone; with a length word of 0 the word overwrites the length word, which becomes word + 1 |
| NetworkMessage.InsertBeforeHead | sources/network_message.c:72-89 | before a head is built the word lands on the length word itself |
| NetworkMessage.ExtractMessageWord | sources/network_message.c:93-107 | fails exactly when index >= MaxLength-2, and otherwise reads content word index |
| NetworkMessage.InsertAllHolds | sources/network_message.c:72-89 | inserting words that fit appends them to the content in order |
| NetworkMessage.RoundTrip | sources/network_message.c:61-107 | after a head and k insertions, index i < k extracts the i-th word inserted, the rest of the buffer reads 0, indices from MaxLength-2 fail, and a full buffer refuses another word |
| Analysis.InitAnalysis | sources/analysis.c:44-55 | every counter and time is 0, the type is unset and all three lists are empty |
| Analysis.GetSimulatedTime | sources/analysis.c:81-84 | the simulated time is never negative when the step time is not |
| Analysis.SimulatedTimeAdvances | sources/analysis.c:81-84 | each step advances the simulated time by the step time |
| Analysis.SlotCompleted | sources/analysis.c:88-99 | a steady analysis never completes a slot; a transient one completes it at step 0 |
| Analysis.SlotCompletedAtMultiples | sources/analysis.c:88-99 | a transient slot completes at every multiple of the slot length |
| Analysis.SlotNotCompletedBetween | sources/analysis.c:88-99 | a transient slot completes at no step strictly between two multiples of the slot length |
| Analysis.SteadyNeverCompletes | sources/analysis.c:88-99 | a steady analysis never completes a slot |
| Analysis.AddInspectionPoint | sources/analysis.c:244-270 | the point goes at the tail of exactly one list (Final for a steady analysis or a FINAL point, Slot for SLOT, Step for STEP), and nothing else changes |
| Analysis.VisitUntilFailure | sources/analysis.c:280-300 | points are visited in list order up to and including the first failure, and success means all of them succeeded |
| Analysis.VisitAppend | sources/analysis.c:280-300 | walking one list and then, if every header succeeded, the next, is the same as walking the two as one list |
| Analysis.GenerateAnalysisHeaders | sources/analysis.c:274-300 | the outcome and the points visited are those of walking the Final, Slot and Step lists as one list, stopping at the first failing header |
| Analysis.OutputAsWritten | sources/analysis.c:304-339 | as written: SLOT requests and requests of no kind fail without visiting a point; FINAL and STEP requests walk their list up to the first failing point and succeed exactly when every point is written |
| Analysis.SlotOutputNeverWritten | sources/analysis.c:304-339 | an output request for SLOT fails without writing a SLOT point that was added |
| Analysis.GenerateAnalysisOutput | sources/analysis.c:304-339 | each kind of output request walks its own list, stopping at the first failure, and an unset kind fails |
| Analysis.OutputVersionsAgree | sources/analysis.c:304-339 | the corrected output agrees with the code for every request except SLOT |
| Analysis.AddedPointIsOutput | sources/analysis.c:244-339 | a point added to a transient analysis is written by the output request of its kind |
| Floorplan.InitFloorplan | Sources/floorplan.c:24-32 | NULL stays NULL; otherwise there is no file name and no element |
| Floorplan.CheckIntersections | Sources/floorplan.c:108-123 | the count of listed elements that intersect the new one: 0 exactly when none does, all exactly when all do |
| Floorplan.IntersectionsAppend | Sources/floorplan.c:108-123 | one more listed element adds one to the count exactly when it intersects |
| Floorplan.CheckLocation | Sources/floorplan.c:130-148 | 0 exactly when the element lies within the chip, 1 otherwise |
| Floorplan.LocatedCornersInside | Sources/floorplan.c:130-148 | an element that passes the check has all four corners on the chip |
| Floorplan.WestScan | Sources/floorplan.c:166-176 | SW_Column is the first column whose centre is not west of SW_X |
| Floorplan.SouthScan | Sources/floorplan.c:195-198 | SW_Row is the first row whose centre is at least SW_Y |
| Floorplan.NorthScan | Sources/floorplan.c:202-205 | the north scan stops at the first row whose centre lies north of the element, so NE_Row is the last row whose centre is within it |
| Floorplan.EastScanAsWritten | Sources/floorplan.c:180-191 | as written: the east loop never ends before its start column minus one, and reaches at least the start column when the start centre lies within the element |
| Floorplan.AlignToGridAsWritten | Sources/floorplan.c:155-215 | as written: SW_Column, SW_Row and NE_Row are those of the corrected alignment and only NE_Column differs; 1 is returned exactly when NE equals SW on both axes |
| Floorplan.EastOverrun | Sources/floorplan.c:180-191 | on a 3-column grid, an element covering the whole chip passes check_location but gets NE_Column 3; an element covering column 0 gets NE_Column 1 |
| Floorplan.EastScan | Sources/floorplan.c:180-191 | the corrected east scan stops at the first column whose centre lies east of the element |
| Floorplan.Aligned | Sources/floorplan.c:206-214 | 1 exactly when NE equals SW on both axes, 0 otherwise |
| Floorplan.AlignToGrid | Sources/floorplan.c:155-215 | SW and NE are the first and last column and row whose centres lie within the element, and 1 is returned exactly for a single cell |
| Floorplan.CentresAgree | Sources/floorplan.c:166-191 | the west and east scans use the same centres for the first and the inner columns |
| Floorplan.AlignedWithinGrid | Sources/floorplan.c:155-215 | on a consistent grid, an element that passes check_location is aligned within the columns of the grid |
| Floorplan.InsertPowerValues | Sources/floorplan.c:220-230 | the k-th element of the list gets values[k], and nothing else changes |

## Left out

Collaborators and I/O:
- The sparse direct solver (`get_perm_c`, `sp_preorder`, `dgstrf`, `dgstrs` and the `dCreate_*`/`Stat*` set-up). It is a foreign library. Its factorization info code and its solve are parameters of `ThermalData`.
- The conductance, capacity and convection formulas, which are floating-point physics whose definitions are not part of this model:
  - `fill_solid_cell_*`, `fill_liquid_cell_*` and `CCONV_*`. The conductances and capacities are given per cell, and `CCONV_*` is a function parameter applied to the arguments the code passes.
  - `IS_CHANNEL_COLUMN`, a predicate parameter.
- `fill_system_matrix_stack_description` and `fill_ccs/crs_system_matrix_stack_description` are not part of this model. `SystemMatrix.FillSystemMatrix` stands for them with a per-cell choice between the liquid and the solid builder.
- The storage dispatch of the newer `fill_system_matrix` (sources/system_matrix.c:110-145). The CCS and CRS builders it reaches are modelled one by one.
- `init_thermal_data`'s allocation failures and cleanup (sources/thermal_data.c:152-170). The model starts once every allocation has succeeded.
- The byte count `sizeof(int) * nvalues + 1` at Sources/system_matrix.c:26. `AllocResistanceMatrix` records nvalues+1 entries for Columns.
- Tracing output, all `print_*` functions, and the `fprintf` diagnostics.
- File parsing, in `fill_floorplan` and the stack-description parser.
- The internals of writing an inspection point's header or output. Their success is a parameter.
- The socket plumbing of `network_interface.h` and the embedded Python wrapper.
- The type-only headers, which are used for field names only.

Simplifications:
- Doubles are real numbers, so rounding is not modelled.
- `Conductance.Parallel`: when x + y is 0, the macro divides by zero. The model returns 0 there.
- MAX_LENGTH of the message buffer is a parameter, since its value is not part of this model.
- The emulation entry points, `update_coolant_flow_rate` and the queries are modelled from the contracts their header documents. Their code is not part of this model.
  - `EmulateStep` checks in this order: power exhaustion, then solver failure, then slot completion.
  - `EmulateSteady` treats a run with no powers as the end of the simulation before it solves.
- Analysis.SlotCompleted requires a positive slot length for a non-steady analysis. The C code divides by SlotLength (sources/analysis.c:95), so a zero slot length is a division by zero there and is not modelled.
- SystemMatrix.AllocSystemMatrix and SystemMatrix.AllocResistanceMatrix require a matrix that holds no live buffers. The C code accepts any matrix and overwrites its pointers, leaking what it held; the model does not track leaked buffers.
- LegacyDie.FillSourcesDie takes `fill_sources_active_layer` and `fill_sources_empty_layer` to advance the sources pointer by one layer area each. Their code is not part of this model.
- `ThermalData.SolveSystem` requires a positive time step when time is left. With delta_time <= 0 the C loop never ends.
- `ThermalData.FillThermalData`: Fact becomes FACTORED even when the factorization reports a nonzero info. `solve_system` returns the SLU_Info of the previous run when its loop does not run at all. Both are modelled as written.
- `Analysis.AddInspectionPoint` requires a point of some kind in a non-steady analysis. For an unset kind the C code selects no list and writes through NULL.
- Channel.FillSourcesChannel requires a positive pitch and a non-negative chip length for a 2RM cavity. The C code divides the chip length by the pitch to count the channels, which a zero pitch makes undefined.
- Floorplan.InsertPowerValues requires at least one value per element. The C code reads `values` once per element with no bound, so a shorter array is read past its end.
- `NetworkMessage.InsertMessageWord` requires the length word to lie within the buffer. The code only tests for equality with MaxLength.
- `PowersQueue.PopFromPowersQueue` requires a non-empty queue, since the code dereferences Head.
- `Floorplan.AlignToGrid` starts its east scan from the centre of SW_Column as the east side measures it. For a last column shorter or longer than the inner ones this differs from the west side's centre; `CentresAgree` shows where the two coincide.
- `align_to_grid` prints that no cells belong to an element when NE equals SW on both axes. That is in fact a one-cell element. The model keeps the return code as written.
- The newer `free_system_matrix` (sources/system_matrix.c:101-106) has no NULL check. `SystemMatrix.FreeSystemMatrix` models the older, NULL-safe variant.
- `Stencil.AddCcsLiquidColumn` is compared with the row-wise reference only where the flow coefficients of the two cells agree, because the column uses the coefficients of its own cell. Its raw North and South values on the south and north entries are stated for every cell.

## Findings

| source | as written | input that shows it | evidently intended | confidence | as-written member | corrected member |
|---|---|---|---|---|---|---|
| Sources/floorplan.c:180-191 | the east-side loop chooses its step by the column it has just tested, so the centre tested at column c+1 is that of column c, and the last column's centre is tested one column late | a grid of three 100 µm columns on a 0.3 mm chip: an element covering the whole chip passes check_location but gets NE_Column 3, past the last column 2; an element covering column 0 gets NE_Column 1 | NE_Column is the last column whose centre lies within the element, and never past the grid | high (not executed) | Floorplan.EastOverrun (on Floorplan.AlignToGridAsWritten) | Floorplan.AlignToGrid, with Floorplan.AlignedWithinGrid |
| sources/analysis.c:324 | the third list test compares with FINAL again instead of SLOT, so a SLOT output request selects no list and returns failure | a transient analysis holding one SLOT point, asked for its SLOT output | SLOT requests walk the Slot list | high (not executed) | Analysis.SlotOutputNeverWritten (on Analysis.OutputAsWritten) | Analysis.GenerateAnalysisOutput, with Analysis.AddedPointIsOutput |
| sources/powers_queue.c:79-85 | Tail is overwritten with the result of malloc before it is checked, so a failed allocation leaves Tail NULL while Head still holds the nodes | a queue holding one value, then a put whose allocation fails, then a put whose allocation succeeds: the second put links through a NULL Tail | a failed put leaves the queue unchanged | medium (not executed) | PowersQueue.PutAsWrittenLosesTail (on PowersQueue.PutAsWritten) | PowersQueue.PutIntoPowersQueue, with PowersQueue.Fifo |
