/**
 * The analysis settings (sources/analysis.c): the simulated clock, slot
 * boundaries, and the three lists of inspection points, chosen by the kind
 * of output a point asks for. What generating a header or an output for one
 * point does is not part of this model; its success is a parameter.
 */
module Analysis {
  import opened Wrappers
  import opened Grid

  /** AnalysisType_t; AnalysisTypeUnset is the initial value ANALYSISTYPE_I. */
  datatype AnalysisType = AnalysisTypeUnset | Steady | Transient

  /** OutputInstanceType_t; InstanceUnset is the initial value. */
  datatype OutputInstance = InstanceUnset | Final | Slot | Step

  /** An inspection point; `tag` stands for its identity. */
  datatype InspectionPoint = InspectionPoint(tag: nat, instance: OutputInstance)

  datatype Analysis = Analysis(
    analysisType: AnalysisType, stepTime: real, slotTime: real,
    slotLength: nat, currentTime: nat, initialTemperature: real,
    finalList: seq<InspectionPoint>, slotList: seq<InspectionPoint>, stepList: seq<InspectionPoint>)

  /** init_analysis: type unset, every counter and time zero, every list empty. */
  function InitAnalysis(): (a: Analysis)
    ensures a.analysisType == AnalysisTypeUnset
    ensures a.stepTime == 0.0 && a.slotTime == 0.0 && a.slotLength == 0 && a.currentTime == 0 && a.initialTemperature == 0.0
    ensures a.finalList == [] && a.slotList == [] && a.stepList == []
  {
    Analysis(AnalysisTypeUnset, 0.0, 0.0, 0, 0, 0.0, [], [], [])
  }

  /** get_simulated_time: the steps elapsed times the step time. */
  function GetSimulatedTime(a: Analysis): (t: real)
    ensures a.stepTime >= 0.0 ==> t >= 0.0
  {
    a.currentTime as real * a.stepTime
  }

  /** One more step advances the simulated time by the step time. */
  lemma SimulatedTimeAdvances(a: Analysis)
    ensures GetSimulatedTime(a.(currentTime := a.currentTime + 1)) == GetSimulatedTime(a) + a.stepTime
  {
  }

  /**
   * slot_completed: never for a steady analysis; otherwise when the step
   * count is a multiple of the slot length (which must not be 0, the C code
   * divides by it).
   */
  predicate SlotCompleted(a: Analysis): (b: bool)
    requires a.analysisType != Steady ==> a.slotLength > 0
    ensures b ==> a.analysisType != Steady
    ensures a.currentTime == 0 ==> (b <==> a.analysisType != Steady)
  {
    if a.analysisType == Steady then false else a.currentTime % a.slotLength == 0
  }

  /** A transient slot completes at every multiple of the slot length... */
  lemma {:induction false} SlotCompletedAtMultiples(a: Analysis, k: nat)
    requires a.analysisType != Steady && a.slotLength > 0
    ensures SlotCompleted(a.(currentTime := k * a.slotLength))
  {
    DivModUnique(k * a.slotLength, k, 0, a.slotLength);
  }

  /** ...and at no step strictly between two of them. */
  lemma {:induction false} SlotNotCompletedBetween(a: Analysis, k: nat, r: nat)
    requires a.analysisType != Steady && 0 < r < a.slotLength
    ensures !SlotCompleted(a.(currentTime := k * a.slotLength + r))
  {
    DivModUnique(k * a.slotLength + r, k, r, a.slotLength);
  }

  /** A steady analysis never completes a slot. */
  lemma SteadyNeverCompletes(a: Analysis)
    requires a.analysisType == Steady
    ensures !SlotCompleted(a)
  {
  }

  /** The three lists of an analysis. */
  datatype ListName = FinalList | SlotList | StepList

  function List(a: Analysis, name: ListName): seq<InspectionPoint>
  {
    match name
    case FinalList => a.finalList
    case SlotList => a.slotList
    case StepList => a.stepList
  }

  /**
   * add_inspection_point_to_analysis: the point goes at the tail of the
   * Final list for a steady analysis or a FINAL point, else of the Slot or
   * the Step list by its kind. A point of no kind in a non-steady analysis
   * selects no list, and the C code then writes through NULL; callers never
   * pass one.
   */
  function AddInspectionPoint(a: Analysis, p: InspectionPoint): (r: Analysis)
    requires a.analysisType == Steady || p.instance != InstanceUnset
    ensures exists name :: (List(r, name) == List(a, name) + [p]
      && forall other :: other != name ==> List(r, other) == List(a, other))
    ensures List(r, FinalList) == List(a, FinalList) + [p] <==> a.analysisType == Steady || p.instance == Final
    ensures List(r, SlotList) == List(a, SlotList) + [p] <==> a.analysisType != Steady && p.instance == Slot
    ensures List(r, StepList) == List(a, StepList) + [p] <==> a.analysisType != Steady && p.instance == Step
    ensures r.(finalList := a.finalList, slotList := a.slotList, stepList := a.stepList) == a
  {
    if a.analysisType == Steady || p.instance == Final then
      var r := a.(finalList := a.finalList + [p]);
      assert List(r, FinalList) == List(a, FinalList) + [p];
      assert |List(r, SlotList)| < |List(a, SlotList) + [p]| && |List(r, StepList)| < |List(a, StepList) + [p]|;
      r
    else if p.instance == Slot then
      var r := a.(slotList := a.slotList + [p]);
      assert List(r, SlotList) == List(a, SlotList) + [p];
      assert |List(r, FinalList)| < |List(a, FinalList) + [p]| && |List(r, StepList)| < |List(a, StepList) + [p]|;
      r
    else
      assert p.instance == Step;
      var r := a.(stepList := a.stepList + [p]);
      assert List(r, StepList) == List(a, StepList) + [p];
      assert |List(r, FinalList)| < |List(a, FinalList) + [p]| && |List(r, SlotList)| < |List(a, SlotList) + [p]|;
      r
  }

  /**
   * FOR_EVERY_ELEMENT_IN_LIST_FORWARD with an early return: the points are
   * visited in list order until one fails; the flag says whether all
   * succeeded.
   */
  function VisitUntilFailure(points: seq<InspectionPoint>, ok: InspectionPoint -> bool): (r: (bool, seq<InspectionPoint>))
    ensures r.1 <= points
    ensures r.0 <==> r.1 == points && forall k :: 0 <= k < |points| ==> ok(points[k])
    ensures !r.0 ==> |r.1| > 0 && !ok(r.1[|r.1| - 1]) && forall k :: 0 <= k < |r.1| - 1 ==> ok(r.1[k])
  {
    if points == [] then (true, [])
    else if !ok(points[0]) then (false, [points[0]])
    else
      var (allOk, rest) := VisitUntilFailure(points[1..], ok);
      assert points == [points[0]] + points[1..];
      (allOk, [points[0]] + rest)
  }

  /**
   * Walking two lists one after the other, as long as the first succeeds,
   * is walking their concatenation.
   */
  lemma {:induction false} VisitAppend(xs: seq<InspectionPoint>, ys: seq<InspectionPoint>, ok: InspectionPoint -> bool)
    ensures VisitUntilFailure(xs + ys, ok)
      == if VisitUntilFailure(xs, ok).0 then (VisitUntilFailure(ys, ok).0, xs + VisitUntilFailure(ys, ok).1)
         else VisitUntilFailure(xs, ok)
  {
    if xs == [] {
      assert xs + ys == ys;
      assert xs + VisitUntilFailure(ys, ok).1 == VisitUntilFailure(ys, ok).1;
    } else if !ok(xs[0]) {
      assert (xs + ys)[0] == xs[0];
    } else {
      var rest := xs[1..];
      assert (xs + ys)[0] == xs[0];
      assert (xs + ys)[1..] == rest + ys;
      VisitAppend(rest, ys, ok);
      var (restOk, restVisited) := VisitUntilFailure(rest, ok);
      assert VisitUntilFailure(xs, ok) == (restOk, [xs[0]] + restVisited);
      var (bothOk, bothVisited) := VisitUntilFailure(rest + ys, ok);
      assert VisitUntilFailure(xs + ys, ok) == (bothOk, [xs[0]] + bothVisited);
      if restOk {
        var w := VisitUntilFailure(ys, ok).1;
        assert [xs[0]] + (rest + w) == xs + w;
      }
    }
  }

  /**
   * generate_analysis_headers: the Final, Slot and Step lists in that
   * order, stopping at the first header that cannot be generated.
   */
  function GenerateAnalysisHeaders(a: Analysis, header: InspectionPoint -> bool): (r: (Outcome, seq<InspectionPoint>))
    ensures var all := a.finalList + a.slotList + a.stepList;
      (r.0 == Success <==> VisitUntilFailure(all, header).0) && r.1 == VisitUntilFailure(all, header).1
  {
    VisitAppend(a.finalList, a.slotList, header);
    VisitAppend(a.finalList + a.slotList, a.stepList, header);
    var (finalOk, finals) := VisitUntilFailure(a.finalList, header);
    if !finalOk then (Failure, finals)
    else
      var (slotOk, slots) := VisitUntilFailure(a.slotList, header);
      if !slotOk then (Failure, finals + slots)
      else
        var (stepOk, steps) := VisitUntilFailure(a.stepList, header);
        (if stepOk then Success else Failure, finals + slots + steps)
  }

  /**
   * generate_analysis_output as written: the third test repeats FINAL, so a
   * SLOT request selects no list and fails. Every point visited gets the
   * simulated time.
   */
  function OutputAsWritten(a: Analysis, instance: OutputInstance, output: (InspectionPoint, real) -> bool): (r: (Outcome, seq<InspectionPoint>))
    ensures instance == Slot || instance == InstanceUnset ==> r == (Failure, [])
    ensures instance == Final || instance == Step ==>
      var list := List(a, Selected(instance).value);
      r.1 <= list
      && (r.0 == Success <==> r.1 == list && forall k :: 0 <= k < |list| ==> output(list[k], GetSimulatedTime(a)))
  {
    var time := GetSimulatedTime(a);
    var selected :=
      if instance == Final then Some(a.finalList)
      else if instance == Step then Some(a.stepList)
      else if instance == Final then Some(a.slotList)
      else None;
    match selected
    case None => (Failure, [])
    case Some(list) =>
      var (allOk, visited) := VisitUntilFailure(list, p => output(p, time));
      (if allOk then Success else Failure, visited)
  }

  /**
   * A transient analysis with one SLOT point whose output would succeed:
   * the point is never written and the request fails.
   */
  lemma SlotOutputNeverWritten(output: (InspectionPoint, real) -> bool)
    ensures var p := InspectionPoint(0, Slot);
      var a := AddInspectionPoint(InitAnalysis().(analysisType := Transient), p);
      a.slotList == [p] && OutputAsWritten(a, Slot, output) == (Failure, [])
  {
  }

  /** The list each kind of output request reads. */
  function Selected(instance: OutputInstance): Option<ListName>
  {
    match instance
    case Final => Some(FinalList)
    case Slot => Some(SlotList)
    case Step => Some(StepList)
    case InstanceUnset => None
  }

  /**
   * generate_analysis_output with the third test on SLOT, as intended:
   * FINAL, SLOT and STEP requests walk their own list, stopping at the
   * first failure; a request of no kind fails.
   */
  function GenerateAnalysisOutput(a: Analysis, instance: OutputInstance, output: (InspectionPoint, real) -> bool): (r: (Outcome, seq<InspectionPoint>))
    ensures Selected(instance).None? ==> r == (Failure, [])
    ensures Selected(instance).Some? ==>
      var list := List(a, Selected(instance).value);
      r.1 <= list
      && (r.0 == Success <==> r.1 == list && forall k :: 0 <= k < |list| ==> output(list[k], GetSimulatedTime(a)))
  {
    var time := GetSimulatedTime(a);
    match Selected(instance)
    case None => (Failure, [])
    case Some(name) =>
      var (allOk, visited) := VisitUntilFailure(List(a, name), p => output(p, time));
      (if allOk then Success else Failure, visited)
  }

  /** The two versions differ only on SLOT requests. */
  lemma OutputVersionsAgree(a: Analysis, instance: OutputInstance, output: (InspectionPoint, real) -> bool)
    requires instance != Slot
    ensures OutputAsWritten(a, instance, output) == GenerateAnalysisOutput(a, instance, output)
  {
  }

  /**
   * Every point of a transient analysis is written by the output request of
   * its own kind: after it is added, and when every output succeeds, that
   * request visits it as the last point of its list.
   */
  lemma AddedPointIsOutput(a: Analysis, p: InspectionPoint, output: (InspectionPoint, real) -> bool)
    requires a.analysisType == Transient && p.instance != InstanceUnset
    requires forall q: InspectionPoint :: output(q, GetSimulatedTime(a))
    ensures var r := GenerateAnalysisOutput(AddInspectionPoint(a, p), p.instance, output);
      r.0 == Success && |r.1| > 0 && r.1[|r.1| - 1] == p
  {
    var added := AddInspectionPoint(a, p);
    var name := Selected(p.instance).value;
    assert List(added, name) == List(a, name) + [p];
    assert GetSimulatedTime(added) == GetSimulatedTime(a);
    var list := List(added, name);
    assert forall k :: 0 <= k < |list| ==> output(list[k], GetSimulatedTime(added));
  }
}
