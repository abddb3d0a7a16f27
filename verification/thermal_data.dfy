/**
 * The simulation driver (sources/thermal_data.c): the per-cell state, the
 * factorization flag of the sparse direct solver and the decisions of when to
 * rebuild, refactor and solve. The solver itself (factorization and
 * triangular solve) and the fillers of conductances, capacities, sources and
 * right-hand side are collaborators whose results are parameters.
 */
module ThermalData {
  import opened Wrappers
  import opened Grid

  /** SLU_Options.Fact: how the next factorization has to proceed. */
  datatype Fact = DoFact | SamePattern | Factored

  /** What one triangular solve reports: its info code and the vector it leaves in B. */
  datatype Solution = Solution(info: int, x: seq<real>)

  /**
   * The collaborators of the driver:
   * sources   what fill_sources_stack_description writes into Sources;
   * vector    fill_system_vector, B from Sources and Temperatures (the Capacities are fixed);
   * factorInfo the SLU_Info reported by the factorization;
   * solve     the triangular solve on the current factors, applied to B.
   */
  datatype Collaborators = Collaborators(
    sources: seq<real>,
    vector: (seq<real>, seq<real>) -> seq<real>,
    factorInfo: int,
    solve: seq<real> -> Solution)

  /** struct ThermalData, restricted to what the driver decides on. */
  datatype State = State(
    size: nat, initialTemperature: real, deltaTime: real,
    temperatures: seq<real>, sources: seq<real>, b: seq<real>,
    fact: Fact, info: int)

  /** The change flags of the stack description (Channel->FlowRateChanged, PowerValuesChanged). */
  datatype Flags = Flags(flowRateChanged: bool, powerValuesChanged: bool)

  /** init_data: the size elements, written from the first to the last, all equal to value. */
  method InitData(size: nat, value: real) returns (data: seq<real>)
    ensures |data| == size
    ensures forall k :: 0 <= k < size ==> data[k] == value
  {
    data := [];
    var left: nat := size;
    while left > 0
      invariant left <= size && |data| == size - left
      invariant forall k :: 0 <= k < |data| ==> data[k] == value
    {
      data := data + [value];
      left := left - 1;
    }
  }

  /**
   * init_thermal_data once every allocation has succeeded: one temperature
   * and one source per cell, temperatures at the initial value, sources at
   * zero, and a full factorization pending. SLU_Info is not written, so it
   * keeps whatever info the structure held; B is filled later.
   */
  method InitThermalData(d: Dimensions, initialTemperature: real, deltaTime: real, info: int) returns (t: State)
    ensures t.size == NumberOfCells(d)
    ensures |t.temperatures| == t.size && |t.sources| == t.size
    ensures forall k :: 0 <= k < t.size ==> t.temperatures[k] == initialTemperature && t.sources[k] == 0.0
    ensures t.initialTemperature == initialTemperature && t.deltaTime == deltaTime
    ensures t.fact == DoFact && t.info == info
  {
    var size := NumberOfCells(d);
    var temperatures := InitData(size, initialTemperature);
    var sources := InitData(size, 0.0);
    t := State(size, initialTemperature, deltaTime, temperatures, sources, [], DoFact, info);
  }

  /**
   * The outcome of fill_thermal_data: the code returned, the new state and
   * flags, whether the system matrix was refilled, and the Fact option the
   * factorization ran with (None when it did not run).
   */
  datatype Filled = Filled(code: int, state: State, flags: Flags, matrixRefilled: bool, factoredWith: Option<Fact>)

  /** B agrees with the sources and the temperatures it was built from. */
  predicate Consistent(t: State, c: Collaborators)
  {
    t.b == c.vector(t.sources, t.temperatures)
  }

  /**
   * fill_thermal_data: a flow-rate change refills the matrix and asks for a
   * SamePattern refactorization when one was done before (a full one
   * otherwise), rebuilds sources and B, and clears both flags; a power change
   * alone rebuilds sources and B and clears its flag; then, unless the
   * factors are current, the matrix is factored and its info returned.
   */
  function FillThermalData(t: State, flags: Flags, c: Collaborators): (r: Filled)
    ensures r.flags == Flags(false, false)
    ensures r.matrixRefilled <==> flags.flowRateChanged
    ensures r.state.fact == Factored
    ensures r.factoredWith.Some? <==> flags.flowRateChanged || t.fact != Factored
    ensures flags.flowRateChanged ==> r.factoredWith == Some(if t.fact == Factored then SamePattern else DoFact)
    ensures !flags.flowRateChanged && t.fact != Factored ==> r.factoredWith == Some(t.fact)
    ensures r.code == (if r.factoredWith.Some? then c.factorInfo else 0)
    ensures r.state.info == (if r.factoredWith.Some? then c.factorInfo else t.info)
    ensures flags.flowRateChanged || flags.powerValuesChanged ==>
      r.state.sources == c.sources && Consistent(r.state, c)
    ensures !flags.flowRateChanged && !flags.powerValuesChanged ==>
      r.state.sources == t.sources && r.state.b == t.b
    ensures r.state.temperatures == t.temperatures && r.state.size == t.size && r.state.deltaTime == t.deltaTime
  {
    var afterFlow :=
      if flags.flowRateChanged then
        t.(fact := if t.fact == Factored then SamePattern else DoFact,
           sources := c.sources, b := c.vector(c.sources, t.temperatures))
      else t;
    var flagsAfterFlow := if flags.flowRateChanged then Flags(false, false) else flags;
    var afterPower :=
      if flagsAfterFlow.powerValuesChanged then
        afterFlow.(sources := c.sources, b := c.vector(c.sources, afterFlow.temperatures))
      else afterFlow;
    var flagsAfterPower := flagsAfterFlow.(powerValuesChanged := false);
    if afterPower.fact != Factored then
      Filled(c.factorInfo, afterPower.(fact := Factored, info := c.factorInfo), flagsAfterPower,
             flags.flowRateChanged, Some(afterPower.fact))
    else
      Filled(0, afterPower, flagsAfterPower, flags.flowRateChanged, None)
  }

  /**
   * A second fill_thermal_data with no change in between refills nothing,
   * does not refactor, returns 0 and leaves the state as it was.
   */
  lemma FillIdempotent(t: State, flags: Flags, c: Collaborators, c': Collaborators)
    ensures var first := FillThermalData(t, flags, c);
      FillThermalData(first.state, first.flags, c') == Filled(0, first.state, first.flags, false, None)
  {
  }

  /** Time left after k passes of the solve loop. */
  function Remaining(totalTime: real, delta: real, k: nat): real
  {
    totalTime - k as real * delta
  }

  lemma ZeroProduct(e: real, delta: real)
    requires delta > 0.0 && e * delta == 0.0
    ensures e == 0.0
  {
  }

  /**
   * The number of passes of `for (; total_time > 0; total_time -= delta_time)`:
   * the least n after which no time is left.
   */
  function Iterations(totalTime: real, delta: real): (n: nat)
    requires totalTime > 0.0 ==> delta > 0.0
    ensures Remaining(totalTime, delta, n) <= 0.0
    ensures forall k: nat :: k < n ==> Remaining(totalTime, delta, k) > 0.0
    decreases if totalTime <= 0.0 then 0 else (totalTime / delta).Floor + 1
  {
    if totalTime <= 0.0 then 0
    else
      FloorStep(totalTime, delta);
      var n := 1 + Iterations(totalTime - delta, delta);
      assert forall k: nat :: 0 < k < n ==> Remaining(totalTime, delta, k) == Remaining(totalTime - delta, delta, k - 1);
      n
  }

  /** One step of delta less leaves one whole step less. */
  lemma FloorStep(totalTime: real, delta: real)
    requires delta > 0.0
    ensures ((totalTime - delta) / delta).Floor == (totalTime / delta).Floor - 1
  {
    var q := totalTime / delta;
    var q' := (totalTime - delta) / delta;
    assert q' * delta == totalTime - delta;
    assert q * delta == totalTime;
    assert (q' - q + 1.0) * delta == 0.0;
    ZeroProduct(q' - q + 1.0, delta);
    assert q' == q - 1.0;
  }

  /**
   * One pass of the loop body of solve_system: a triangular solve on B; when
   * it fails its info is kept and the loop stops, otherwise the solution
   * becomes the temperatures and B is rebuilt from them.
   */
  function Pass(t: State, c: Collaborators): State
  {
    var s := c.solve(t.b);
    if s.info != 0 then t.(info := s.info, b := s.x)
    else t.(info := 0, temperatures := s.x, b := c.vector(t.sources, s.x))
  }

  /** Up to n passes, stopping after the first one whose solve fails. */
  function Run(t: State, n: nat, c: Collaborators): (r: State)
    ensures r.fact == t.fact && r.sources == t.sources && r.size == t.size && r.deltaTime == t.deltaTime
    ensures n == 0 ==> r == t
    ensures n > 0 && r.info == 0 ==> Consistent(r, c)
    decreases n
  {
    if n == 0 then t
    else
      var p := Pass(t, c);
      if p.info != 0 then p else Run(p, n - 1, c)
  }

  /**
   * solve_system: refused with 1 while no factorization has been done;
   * otherwise as many passes as total_time holds steps of delta_time, up to
   * the first failing solve, returning the last SLU_Info (the stale one when
   * no pass runs). A non-positive delta_time with time left never ends in
   * the source, so the caller has to avoid it.
   */
  method SolveSystem(t: State, totalTime: real, c: Collaborators) returns (code: int, r: State)
    requires t.fact != DoFact && totalTime > 0.0 ==> t.deltaTime > 0.0
    ensures t.fact == DoFact ==> code == 1 && r == t
    ensures t.fact != DoFact ==> r == Run(t, Iterations(totalTime, t.deltaTime), c) && code == r.info
  {
    if t.fact == DoFact {
      return 1, t;
    }
    var time := totalTime;
    r := t;
    if time <= 0.0 {
      assert Iterations(totalTime, t.deltaTime) == 0;
      return r.info, r;
    }
    var delta := t.deltaTime;
    while time > 0.0
      invariant Run(t, Iterations(totalTime, delta), c) == Run(r, Iterations(time, delta), c)
      invariant r.deltaTime == delta
      decreases Iterations(time, delta)
    {
      var p := Pass(r, c);
      assert Iterations(time, delta) == 1 + Iterations(time - delta, delta);
      if p.info != 0 {
        r := p;
        break;
      }
      r := p;
      time := time - delta;
    }
    code := r.info;
  }

  /**
   * After fill_thermal_data the factors are current, so solve_system never
   * refuses, and when its last solve succeeds B agrees with the new
   * temperatures and the sources the fill left.
   */
  lemma FillThenSolve(t: State, flags: Flags, c: Collaborators, totalTime: real)
    requires t.deltaTime > 0.0 && totalTime > 0.0
    ensures var filled := FillThermalData(t, flags, c).state;
      var r := Run(filled, Iterations(totalTime, filled.deltaTime), c);
      r.fact == Factored && (r.info == 0 ==> Consistent(r, c) && r.sources == filled.sources)
  {
    var filled := FillThermalData(t, flags, c).state;
    assert Remaining(totalTime, filled.deltaTime, 0) > 0.0;
  }

  /** The result codes of the emulation entry points (SimResult_t). */
  datatype SimResult = WrongConfig | SolverError | EndOfSimulation | StepDone | SlotDone

  /**
   * What one time step observes: whether it starts a new slot and so needs
   * the next power values, whether those are available, the solver's info,
   * and whether the slot is complete after the step.
   */
  datatype StepInput = StepInput(needsPowers: bool, powersLeft: bool, solveInfo: int, slotCompleted: bool)

  /**
   * emulate_step, as its header documents it: refused for a steady
   * configuration, the end of the simulation when powers are needed and
   * exhausted, a solver error on a failing solve, otherwise a step done, and
   * a slot done when the step completes its slot.
   */
  function EmulateStep(transient: bool, s: StepInput): (r: SimResult)
    ensures r == WrongConfig <==> !transient
    ensures r == EndOfSimulation <==> transient && s.needsPowers && !s.powersLeft
    ensures r == SolverError <==> transient && (!s.needsPowers || s.powersLeft) && s.solveInfo != 0
    ensures r == SlotDone <==> transient && (!s.needsPowers || s.powersLeft) && s.solveInfo == 0 && s.slotCompleted
    ensures r == StepDone <==> transient && (!s.needsPowers || s.powersLeft) && s.solveInfo == 0 && !s.slotCompleted
  {
    if !transient then WrongConfig
    else if s.needsPowers && !s.powersLeft then EndOfSimulation
    else if s.solveInfo != 0 then SolverError
    else if s.slotCompleted then SlotDone
    else StepDone
  }

  /**
   * emulate_slot: steps until one of them does not merely finish a step; it
   * never answers StepDone, and it answers what the first such step answers.
   */
  function EmulateSlot(transient: bool, steps: seq<StepInput>): (r: SimResult)
    requires exists k :: 0 <= k < |steps| && steps[k].slotCompleted
    ensures r != StepDone
    ensures r == WrongConfig <==> !transient
    ensures transient ==> exists k :: 0 <= k < |steps| && r == EmulateStep(true, steps[k])
                                    && forall j :: 0 <= j < k ==> EmulateStep(true, steps[j]) == StepDone
  {
    var r := EmulateStep(transient, steps[0]);
    if r != StepDone then r
    else
      assert !steps[0].slotCompleted;
      var r' := EmulateSlot(transient, steps[1..]);
      assert transient ==> forall j :: 0 < j < |steps| ==> steps[j] == steps[1..][j - 1];
      r'
  }

  /**
   * emulate_steady, as its header documents it: refused for a transient
   * configuration, a solver error on a failing solve, and the end of the
   * simulation both when no powers are given and when the solve succeeds.
   */
  function EmulateSteady(transient: bool, powersGiven: bool, solveInfo: int): (r: SimResult)
    ensures r == WrongConfig <==> transient
    ensures r == SolverError <==> !transient && powersGiven && solveInfo != 0
    ensures r == EndOfSimulation <==> !transient && (!powersGiven || solveInfo == 0)
  {
    if transient then WrongConfig
    else if !powersGiven then EndOfSimulation
    else if solveInfo != 0 then SolverError
    else EndOfSimulation
  }

  /**
   * update_coolant_flow_rate, as its header documents it: the matrix is
   * refilled and factored again; only when that succeeds are the sources
   * (whose inlet terms depend on the flow rate) and B rebuilt.
   */
  function UpdateCoolantFlowRate(t: State, c: Collaborators): (r: (Outcome, State))
    ensures r.0 == Failure <==> c.factorInfo != 0
    ensures r.1.fact == Factored && r.1.info == c.factorInfo
    ensures r.0 == Success ==> r.1.sources == c.sources && Consistent(r.1, c)
    ensures r.0 == Failure ==> r.1.sources == t.sources && r.1.b == t.b
    ensures r.1.temperatures == t.temperatures
  {
    var factored := t.(fact := Factored, info := c.factorInfo);
    if c.factorInfo != 0 then (Failure, factored)
    else (Success, factored.(sources := c.sources, b := c.vector(c.sources, t.temperatures)))
  }

  /**
   * A successful update of the flow rate leaves the driver as
   * fill_thermal_data does after a flow-rate change, and it reports its
   * outcome through the same info code.
   */
  lemma UpdateAgreesWithFill(t: State, powerValuesChanged: bool, c: Collaborators)
    ensures var filled := FillThermalData(t, Flags(true, powerValuesChanged), c);
      (UpdateCoolantFlowRate(t, c).0 == Success <==> filled.code == 0)
      && (filled.code == 0 ==> UpdateCoolantFlowRate(t, c).1 == filled.state)
  {
  }
}
