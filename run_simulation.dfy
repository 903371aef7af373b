/** The server-side what-if projector (`run_simulation`): every catalog
    control selected by id adds a flat 1.5 points to its framework, and each
    stored ComplianceResult of the policy is projected with that impact,
    capped at 100. */
module RunSimulation {
  import opened Common
  import opened Entities

  /** "Each control adds ~1.5% to compliance score". */
  const ImpactPerControl: real := 1.5

  // ---------------------------------------------------------------------
  // Selection
  // ---------------------------------------------------------------------

  function SelectedBy(controlIds: seq<string>): Control -> bool
  {
    (c: Control) => c.id in controlIds
  }

  /** `controls.filter(c => control_ids.includes(c.id))`, in catalog order. */
  function SelectedControls(catalog: seq<Control>, controlIds: seq<string>): seq<Control>
  {
    Filter(catalog, SelectedBy(controlIds))
  }

  /** The selection is the catalog controls whose id was asked for, in
      catalog order. */
  lemma SelectedControlsSpec(catalog: seq<Control>, controlIds: seq<string>)
    ensures forall c :: c in SelectedControls(catalog, controlIds) <==> c in catalog && c.id in controlIds
    ensures IsSublist(SelectedControls(catalog, controlIds), catalog)
  {
    FilterMembers(catalog, SelectedBy(controlIds));
    FilterIsSublist(catalog, SelectedBy(controlIds));
  }

  /** Only the ids of catalog controls matter: unknown ids, repeated ids and
      the order of the ids change nothing. */
  lemma SelectionIgnoresUnknownAndRepeatedIds(catalog: seq<Control>, ids: seq<string>, ids': seq<string>)
    requires forall c :: c in catalog ==> (c.id in ids <==> c.id in ids')
    ensures SelectedControls(catalog, ids) == SelectedControls(catalog, ids')
  {
    FilterCongruent(catalog, SelectedBy(ids), SelectedBy(ids'));
  }

  // ---------------------------------------------------------------------
  // Impact per framework (the `forEach` that fills `impactByFramework`)
  // ---------------------------------------------------------------------

  function InFramework(framework: string): Control -> bool
  {
    (c: Control) => c.framework == framework
  }

  /** `selectedControls.filter(c => c.framework === framework).length` */
  function SelectedIn(selected: seq<Control>, framework: string): nat
  {
    |Filter(selected, InFramework(framework))|
  }

  /** A JavaScript number used as a condition: 0 and `undefined` are false. */
  function Present(v: Option<real>): real
  {
    if v.Some? && v.value != 0.0 then v.value else 0.0
  }

  /** One control's contribution: its framework's entry, or 0 when it has
      none yet, plus 1.5. */
  function AddImpact(m: seq<(string, real)>, framework: string): seq<(string, real)>
  {
    Put(m, framework, Present(Lookup(m, framework)) + ImpactPerControl)
  }

  /** `impactByFramework` after the loop over `selected`. */
  function ImpactTable(selected: seq<Control>): seq<(string, real)>
    decreases |selected|
  {
    if |selected| == 0 then []
    else AddImpact(ImpactTable(selected[..|selected| - 1]), selected[|selected| - 1].framework)
  }

  /** The loop body: a framework not seen yet (or at 0) is set to 0 first,
      then 1.5 is added. */
  method AddControl(impactByFramework: seq<(string, real)>, framework: string) returns (updated: seq<(string, real)>)
    ensures updated == AddImpact(impactByFramework, framework)
  {
    updated := impactByFramework;
    if Present(Lookup(updated, framework)) == 0.0 {
      updated := Put(updated, framework, 0.0);
    }
    updated := Put(updated, framework, Lookup(updated, framework).value + ImpactPerControl);
    if Present(Lookup(impactByFramework, framework)) == 0.0 {
      PutTwice(impactByFramework, framework, 0.0, ImpactPerControl);
    }
  }

  /** The `forEach` over the selected controls. */
  method ImpactByFramework(selected: seq<Control>) returns (impactByFramework: seq<(string, real)>)
    ensures impactByFramework == ImpactTable(selected)
  {
    impactByFramework := [];
    for i := 0 to |selected|
      invariant impactByFramework == ImpactTable(selected[..i])
    {
      impactByFramework := AddControl(impactByFramework, selected[i].framework);
      assert selected[..i + 1][..i] == selected[..i];
    }
    assert selected[..|selected|] == selected;
  }

  /** Appending a control adds one to its own framework's count only. */
  lemma SelectedInSnoc(init: seq<Control>, last: Control, framework: string)
    ensures SelectedIn(init + [last], framework)
            == SelectedIn(init, framework) + (if last.framework == framework then 1 else 0)
  {
    FilterSnoc(init, last, InFramework(framework));
  }

  /** Keys are never repeated. */
  lemma {:induction false} ImpactTableDistinct(selected: seq<Control>)
    ensures DistinctKeys(ImpactTable(selected))
    decreases |selected|
  {
    if |selected| > 0 {
      var init, last := selected[..|selected| - 1], selected[|selected| - 1];
      ImpactTableDistinct(init);
      var m := ImpactTable(init);
      PutKeepsDistinct(m, last.framework, Present(Lookup(m, last.framework)) + ImpactPerControl);
      assert ImpactTable(selected) == AddImpact(m, last.framework);
    }
  }

  /** The entry a count of `k` controls gives: 1.5 each, absent when none. */
  function ImpactEntry(k: nat): Option<real>
  {
    if k > 0 then Some(1.5 * k as real) else None
  }

  /** One step of the loop, on an abstract table whose entry for `framework`
      already agrees with the count `k`. */
  lemma ImpactStep(m: seq<(string, real)>, added: string, framework: string, k: nat)
    requires Lookup(m, framework) == ImpactEntry(k)
    requires Lookup(m, added).Some? ==> Lookup(m, added).value > 0.0
    ensures Lookup(AddImpact(m, added), framework) == ImpactEntry(k + if added == framework then 1 else 0)
  {
    var v := Present(Lookup(m, added)) + ImpactPerControl;
    var r := Put(m, added, v);
    if added == framework {
      assert Lookup(r, framework) == Some(v);
      assert v == 1.5 * k as real + 1.5;
    } else {
      assert Lookup(r, framework) == Lookup(m, framework);
    }
  }

  /** A framework has an entry exactly when some selected control is in it,
      and its entry is 1.5 times the number of those controls. */
  lemma {:induction false} ImpactTableAt(selected: seq<Control>, framework: string)
    ensures Lookup(ImpactTable(selected), framework) == ImpactEntry(SelectedIn(selected, framework))
    decreases |selected|
  {
    if |selected| == 0 {
      assert Filter(selected, InFramework(framework)) == [];
    } else {
      var init, last := selected[..|selected| - 1], selected[|selected| - 1];
      assert selected == init + [last];
      SelectedInSnoc(init, last, framework);
      ImpactTableAt(init, framework);
      ImpactTableAt(init, last.framework);
      var m := ImpactTable(init);
      ImpactStep(m, last.framework, framework, SelectedIn(init, framework));
      assert SelectedIn(selected, framework)
             == SelectedIn(init, framework) + (if last.framework == framework then 1 else 0);
    }
  }

  lemma ImpactTableSpec(selected: seq<Control>)
    ensures DistinctKeys(ImpactTable(selected))
    ensures forall framework :: Lookup(ImpactTable(selected), framework)
              == ImpactEntry(SelectedIn(selected, framework))
  {
    ImpactTableDistinct(selected);
    forall framework
      ensures Lookup(ImpactTable(selected), framework)
              == ImpactEntry(SelectedIn(selected, framework))
    {
      ImpactTableAt(selected, framework);
    }
  }

  /** The impacts add up to 1.5 per selected control. */
  lemma {:induction false} ImpactTableSum(selected: seq<Control>)
    ensures SumValues(ImpactTable(selected)) == 1.5 * |selected| as real
    decreases |selected|
  {
    if |selected| > 0 {
      var init, last := selected[..|selected| - 1], selected[|selected| - 1];
      ImpactTableSum(init);
      var m := ImpactTable(init);
      SumAfterPut(m, last.framework, Present(Lookup(m, last.framework)) + ImpactPerControl);
    }
  }

  // ---------------------------------------------------------------------
  // Projection of the stored results
  // ---------------------------------------------------------------------

  datatype Projection = Projection(
    framework: string,
    currentScore: int,
    projectedScore: int,
    improvement: int,
    controlsCovered: nat,
    controlsMissing: nat)

  /** `Math.min(100, currentScore + impact)` */
  function ProjectedScore(current: real, impact: real): real
  {
    Min(100.0, current + impact)
  }

  /** With a current score in [0, 100] and a non-negative impact, the
      projection never falls below the current score nor exceeds 100, and the
      rounded scores and improvement keep that order. */
  lemma ProjectionBounds(current: real, impact: real)
    requires 0.0 <= current <= 100.0 && impact >= 0.0
    ensures current <= ProjectedScore(current, impact) <= 100.0
    ensures Round(current) <= Round(ProjectedScore(current, impact)) <= 100
    ensures Round(ProjectedScore(current, impact) - current) >= 0
    ensures ProjectedScore(current, impact) == current + impact <==> current + impact <= 100.0
  {
    RoundBetween(ProjectedScore(current, impact), 0, 100);
  }

  /** The entry for one stored result. */
  function Project(r: ComplianceResult, impactByFramework: seq<(string, real)>, selected: seq<Control>): Projection
  {
    var impact := Present(Lookup(impactByFramework, r.framework));
    var currentScore := r.score;
    var projectedScore := ProjectedScore(currentScore, impact);
    Projection(r.framework, Round(currentScore), Round(projectedScore), Round(projectedScore - currentScore),
               r.covered, MaxInt(0, r.missing - SelectedIn(selected, r.framework)) as nat)
  }

  function ProjectWith(impactByFramework: seq<(string, real)>, selected: seq<Control>): ComplianceResult -> Projection
  {
    r => Project(r, impactByFramework, selected)
  }

  /** `results.map(...)`: one projection per stored result, in order. */
  function Projections(results: seq<ComplianceResult>, impactByFramework: seq<(string, real)>, selected: seq<Control>): seq<Projection>
  {
    Map(results, ProjectWith(impactByFramework, selected))
  }

  /** Each projection belongs to the result at the same position: its score
      moves by 1.5 per selected control of that framework, capped at 100, and
      its missing count drops by that many controls, never below 0. */
  lemma ProjectionsSpec(results: seq<ComplianceResult>, selected: seq<Control>)
    ensures var ps := Projections(results, ImpactTable(selected), selected);
            && |ps| == |results|
            && forall i :: 0 <= i < |results| ==>
                 var r, k := results[i], SelectedIn(selected, results[i].framework);
                 && ps[i].framework == r.framework
                 && ps[i].projectedScore == Round(Min(100.0, r.score + 1.5 * k as real))
                 && ps[i].controlsCovered == r.covered
                 && ps[i].controlsMissing == (if r.missing >= k then r.missing - k else 0)
                 && ps[i].controlsMissing <= r.missing
  {
    ImpactTableSpec(selected);
    MapAt(results, ProjectWith(ImpactTable(selected), selected));
  }

  /** A stored score in [0, 100] is never lowered by the projection. */
  lemma ProjectionNeverLowers(r: ComplianceResult, selected: seq<Control>)
    requires 0.0 <= r.score <= 100.0
    ensures var p := Project(r, ImpactTable(selected), selected);
            && p.currentScore <= p.projectedScore <= 100
            && p.improvement >= 0
  {
    ImpactTableSpec(selected);
    ProjectionBounds(r.score, Present(Lookup(ImpactTable(selected), r.framework)));
  }

  // ---------------------------------------------------------------------
  // Gaps resolved and the mean impact
  // ---------------------------------------------------------------------

  /** `selectedControls.some(c => c.control_code === gap.control_id)` */
  function ResolvedBy(selected: seq<Control>): Gap -> bool
  {
    (g: Gap) => exists c :: c in selected && c.code == g.controlId
  }

  /** The gaps, of any status, that a selected control addresses. */
  function GapsResolved(gaps: seq<Gap>, selected: seq<Control>): nat
  {
    |Filter(gaps, ResolvedBy(selected))|
  }

  lemma GapsResolvedSpec(gaps: seq<Gap>, selected: seq<Control>)
    ensures GapsResolved(gaps, selected) <= |gaps|
    ensures forall g :: g in Filter(gaps, ResolvedBy(selected)) <==>
              g in gaps && exists c :: c in selected && c.code == g.controlId
    ensures (forall g :: g in gaps ==> exists c :: c in selected && c.code == g.controlId) ==>
              GapsResolved(gaps, selected) == |gaps|
  {
    FilterMembers(gaps, ResolvedBy(selected));
    if forall g :: g in gaps ==> exists c :: c in selected && c.code == g.controlId {
      FilterKeepsAll(gaps, ResolvedBy(selected));
    }
  }

  /** `Math.round(sum / count)` over the per-framework impacts; `None` stands
      for the NaN of 0 / 0 when nothing was selected. */
  function TotalImpact(impactByFramework: seq<(string, real)>): Option<int>
  {
    if |impactByFramework| == 0 then None
    else Some(Round(SumValues(impactByFramework) / |impactByFramework| as real))
  }

  /** The mean is defined exactly when some control was selected, and it is
      1.5 × (selected controls) / (frameworks they fall into). */
  lemma TotalImpactSpec(selected: seq<Control>)
    ensures TotalImpact(ImpactTable(selected)).None? <==> |selected| == 0
    ensures |selected| > 0 ==>
              TotalImpact(ImpactTable(selected))
              == Some(Round(1.5 * |selected| as real / |Keys(ImpactTable(selected))| as real))
  {
    var m := ImpactTable(selected);
    if |selected| > 0 {
      var framework := selected[|selected| - 1].framework;
      assert selected[|selected| - 1] in Filter(selected, InFramework(framework)) by {
        FilterMembers(selected, InFramework(framework));
      }
      ImpactTableAt(selected, framework);
      assert |m| > 0;
      ImpactTableSum(selected);
      var sum, n := SumValues(m), |m| as real;
      assert |Keys(m)| as real == n;
      assert sum == 1.5 * |selected| as real;
      assert TotalImpact(m) == Some(Round(sum / n));
    } else {
      assert m == [];
    }
  }

  // ---------------------------------------------------------------------
  // The handler
  // ---------------------------------------------------------------------

  datatype SimulationError = Unauthorized | MissingArguments

  datatype SimulationResponse =
    | Simulated(currentResults: seq<(string, int)>, projectedResults: seq<Projection>,
                controlsImplemented: nat, gapsResolved: nat, totalImpact: Option<int>)
    | Refused(error: SimulationError)

  function CurrentEntry(r: ComplianceResult): (string, int)
  {
    (r.framework, Round(r.score))
  }

  /** The response to a request. `controlIds` is `None` when the request has
      no `control_ids`; `results` and `gaps` are the policy's stored records
      and `catalog` the whole control library. */
  function Simulation(user: Option<string>, policyId: string, controlIds: Option<seq<string>>,
                      results: seq<ComplianceResult>, catalog: seq<Control>, gaps: seq<Gap>): SimulationResponse
  {
    if user.None? then Refused(Unauthorized)
    else if policyId == "" || controlIds.None? then Refused(MissingArguments)
    else
      var selected := SelectedControls(catalog, controlIds.value);
      var impactByFramework := ImpactTable(selected);
      Simulated(Map(results, CurrentEntry), Projections(results, impactByFramework, selected),
                |controlIds.value|, GapsResolved(gaps, selected), TotalImpact(impactByFramework))
  }

  method Simulate(user: Option<string>, policyId: string, controlIds: Option<seq<string>>,
                  results: seq<ComplianceResult>, catalog: seq<Control>, gaps: seq<Gap>)
    returns (response: SimulationResponse)
    ensures response == Simulation(user, policyId, controlIds, results, catalog, gaps)
    ensures response.Refused? <==> user.None? || policyId == "" || controlIds.None?
    ensures response.Simulated? ==> && |response.projectedResults| == |results|
                                    && response.controlsImplemented == |controlIds.value|
                                    && response.gapsResolved <= |gaps|
  {
    if user.None? {
      return Refused(Unauthorized);
    }
    if policyId == "" || controlIds.None? {
      return Refused(MissingArguments);
    }
    var selected := SelectedControls(catalog, controlIds.value);
    var impactByFramework := ImpactByFramework(selected);
    var projectedResults := Projections(results, impactByFramework, selected);
    var gapsResolved := GapsResolved(gaps, selected);
    GapsResolvedSpec(gaps, selected);
    response := Simulated(Map(results, CurrentEntry), projectedResults, |controlIds.value|, gapsResolved,
                          TotalImpact(impactByFramework));
  }

  /** Two selected controls of a result's framework (two ISO 27001 controls,
      say) on a stored score of 60 give +3.0, projected 63. */
  lemma TwoControlsScenario(a: Control, b: Control, r: ComplianceResult)
    requires a.framework == r.framework && b.framework == r.framework
    requires r.score == 60.0
    ensures Lookup(ImpactTable([a, b]), r.framework) == Some(3.0)
    ensures Project(r, ImpactTable([a, b]), [a, b]).projectedScore == 63
    ensures Project(r, ImpactTable([a, b]), [a, b]).improvement == 3
  {
    assert [a, b] == [a] + [b];
    assert [a] == [] + [a];
    assert Filter([], InFramework(r.framework)) == [];
    SelectedInSnoc([], a, r.framework);
    SelectedInSnoc([a], b, r.framework);
    ImpactTableAt([a, b], r.framework);
  }
}
