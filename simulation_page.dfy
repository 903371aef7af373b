/** The client what-if simulator page: a fixed table of sample controls, each
    worth some impact points in one of three frameworks. Selecting controls
    and running the simulation raises each framework's current score by 1.5
    per selected point, capped at 100. The page keeps the selection and the
    last simulation outcome as component state. */
module SimulationPage {
  import opened Common
  import opened Entities

  // ---------------------------------------------------------------------
  // The fixed tables
  // ---------------------------------------------------------------------

  datatype SampleControl = SampleControl(id: string, name: string, framework: string, impact: nat)

  const NcaEcc: string := "NCA ECC"
  const Iso27001: string := "ISO 27001"
  const Nist80053: string := "NIST 800-53"

  /** The frameworks the page knows, in the order of its score tables. */
  const Frameworks: seq<string> := [NcaEcc, Iso27001, Nist80053]

  const SampleControls: seq<SampleControl> := [
    SampleControl("AC-1", "Access Control Policy", Nist80053, 3),
    SampleControl("AC-2", "Account Management", Nist80053, 5),
    SampleControl("A.5.1.1", "Information Security Policies", Iso27001, 4),
    SampleControl("A.9.1.1", "Access Control Policy", Iso27001, 3),
    SampleControl("2-1-1", "Cybersecurity Governance", NcaEcc, 5),
    SampleControl("2-2-1", "Cybersecurity Risk Management", NcaEcc, 4),
    SampleControl("A.12.4.1", "Event Logging", Iso27001, 3),
    SampleControl("AU-2", "Audit Events", Nist80053, 3),
    SampleControl("3-1-1", "Human Resource Security", NcaEcc, 2),
    SampleControl("A.7.2.2", "Security Awareness Training", Iso27001, 2)
  ]

  /** Scores shown before any result is known. */
  const DefaultScores: seq<(string, int)> := [(NcaEcc, 72), (Iso27001, 68), (Nist80053, 58)]

  /** The impact table a simulation starts from. */
  const NoImpact: seq<(string, int)> := [(NcaEcc, 0), (Iso27001, 0), (Nist80053, 0)]

  /** Every sample control belongs to one of the three frameworks. */
  lemma SampleFrameworksKnown()
    ensures forall c :: c in SampleControls ==> c.framework in Frameworks
  {
  }

  lemma TablesKeyedByFrameworks()
    ensures Keys(DefaultScores) == Frameworks && DistinctKeys(DefaultScores)
    ensures Keys(NoImpact) == Frameworks && DistinctKeys(NoImpact)
  {
    assert Keys(DefaultScores)[0] == NcaEcc && Keys(DefaultScores)[1] == Iso27001 && Keys(DefaultScores)[2] == Nist80053;
    assert Keys(NoImpact)[0] == NcaEcc && Keys(NoImpact)[1] == Iso27001 && Keys(NoImpact)[2] == Nist80053;
  }

  /** `sampleControls.filter(c => c.framework === selectedFramework)`, or the
      whole table for "all". */
  function FilteredControls(table: seq<SampleControl>, selectedFramework: string): seq<SampleControl>
  {
    if selectedFramework == "all" then table else Filter(table, InFramework(selectedFramework))
  }

  function InFramework(framework: string): SampleControl -> bool
  {
    (c: SampleControl) => c.framework == framework
  }

  /** The listed controls are the table's controls of the chosen framework, in
      table order. */
  lemma FilteredControlsSpec(table: seq<SampleControl>, selectedFramework: string)
    requires selectedFramework != "all"
    ensures forall c :: c in FilteredControls(table, selectedFramework) <==> c in table && c.framework == selectedFramework
    ensures IsSublist(FilteredControls(table, selectedFramework), table)
  {
    FilterMembers(table, InFramework(selectedFramework));
    FilterIsSublist(table, InFramework(selectedFramework));
  }

  // ---------------------------------------------------------------------
  // Current scores (`getCurrentScores`)
  // ---------------------------------------------------------------------

  /** One result of the loop: a non-zero score replaces its framework's entry
      with the rounded score. */
  function Override(scores: seq<(string, int)>, r: ComplianceResult): seq<(string, int)>
  {
    if r.score != 0.0 then Put(scores, r.framework, Round(r.score)) else scores
  }

  function CurrentScores(results: seq<ComplianceResult>): seq<(string, int)>
    decreases |results|
  {
    if |results| == 0 then DefaultScores
    else Override(CurrentScores(results[..|results| - 1]), results[|results| - 1])
  }

  method GetCurrentScores(results: seq<ComplianceResult>) returns (scores: seq<(string, int)>)
    ensures scores == CurrentScores(results)
  {
    scores := DefaultScores;
    for i := 0 to |results|
      invariant scores == CurrentScores(results[..i])
    {
      var r := results[i];
      if r.score != 0.0 {
        scores := Put(scores, r.framework, Round(r.score));
      }
      assert results[..i + 1][..i] == results[..i];
    }
    assert results[..|results|] == results;
  }

  lemma OverrideAt(scores: seq<(string, int)>, r: ComplianceResult, framework: string)
    ensures Lookup(Override(scores, r), framework)
            == if r.score != 0.0 && r.framework == framework then Some(Round(r.score)) else Lookup(scores, framework)
  {
  }

  /** The table keeps distinct keys, and the three defaults are always there. */
  lemma {:induction false} CurrentScoresKeys(results: seq<ComplianceResult>)
    ensures DistinctKeys(CurrentScores(results))
    ensures forall framework :: framework in Frameworks ==> Lookup(CurrentScores(results), framework).Some?
    decreases |results|
  {
    if |results| == 0 {
      TablesKeyedByFrameworks();
    } else {
      var init, last := results[..|results| - 1], results[|results| - 1];
      CurrentScoresKeys(init);
      var scores := CurrentScores(init);
      if last.score != 0.0 {
        PutKeepsDistinct(scores, last.framework, Round(last.score));
      }
      forall framework | framework in Frameworks
        ensures Lookup(CurrentScores(results), framework).Some?
      {
        OverrideAt(scores, last, framework);
      }
    }
  }

  /** A framework's current score is the rounded score of its last result with
      a non-zero score. */
  lemma {:induction false} LastResultWins(results: seq<ComplianceResult>, i: nat)
    requires i < |results| && results[i].score != 0.0
    requires forall j :: i < j < |results| && results[j].framework == results[i].framework ==> results[j].score == 0.0
    ensures Lookup(CurrentScores(results), results[i].framework) == Some(Round(results[i].score))
    decreases |results|
  {
    var init, last := results[..|results| - 1], results[|results| - 1];
    OverrideAt(CurrentScores(init), last, results[i].framework);
    if i < |results| - 1 {
      assert init[i] == results[i];
      LastResultWins(init, i);
    }
  }

  /** A framework with no non-zero result keeps its default (none, for a
      framework outside the three). */
  lemma {:induction false} NoResultKeepsDefault(results: seq<ComplianceResult>, framework: string)
    requires forall j :: 0 <= j < |results| && results[j].framework == framework ==> results[j].score == 0.0
    ensures Lookup(CurrentScores(results), framework) == Lookup(DefaultScores, framework)
    decreases |results|
  {
    if |results| > 0 {
      var init, last := results[..|results| - 1], results[|results| - 1];
      OverrideAt(CurrentScores(init), last, framework);
      NoResultKeepsDefault(init, framework);
    }
  }

  /** Scores in [0, 100] give current scores in [0, 100]. */
  lemma {:induction false} CurrentScoresInRange(results: seq<ComplianceResult>)
    requires forall j :: 0 <= j < |results| ==> 0.0 <= results[j].score <= 100.0
    ensures forall framework :: Lookup(CurrentScores(results), framework).Some? ==>
              0 <= Lookup(CurrentScores(results), framework).value <= 100
    decreases |results|
  {
    if |results| > 0 {
      var init, last := results[..|results| - 1], results[|results| - 1];
      CurrentScoresInRange(init);
      RoundBetween(last.score, 0, 100);
      forall framework ensures Lookup(CurrentScores(results), framework).Some? ==>
              0 <= Lookup(CurrentScores(results), framework).value <= 100
      {
        OverrideAt(CurrentScores(init), last, framework);
      }
    } else {
      forall framework ensures Lookup(DefaultScores, framework).Some? ==>
              0 <= Lookup(DefaultScores, framework).value <= 100
      {
        if Lookup(DefaultScores, framework).Some? {
          assert (framework, Lookup(DefaultScores, framework).value) in DefaultScores;
        }
      }
    }
  }

  // ---------------------------------------------------------------------
  // Impact points per framework
  // ---------------------------------------------------------------------

  /** `sampleControls.find(c => c.id === id)`: the first control with that id. */
  function Find(table: seq<SampleControl>, id: string): (r: Option<SampleControl>)
    ensures r.Some? ==> r.value in table && r.value.id == id
    ensures r.None? <==> forall c :: c in table ==> c.id != id
    decreases |table|
  {
    if |table| == 0 then None
    else if table[0].id == id then Some(table[0])
    else
      var r := Find(table[1..], id);
      assert forall c :: c in table ==> c == table[0] || c in table[1..];
      r
  }

  /** Every control of the table belongs to one of the three frameworks. */
  predicate InKnownFrameworks(table: seq<SampleControl>)
  {
    forall c :: c in table ==> c.framework in Frameworks
  }

  /** One selected id: a known control adds its impact points to its
      framework's entry; an unknown id changes nothing. */
  function AddPoints(table: seq<SampleControl>, impact: seq<(string, int)>, id: string): (r: seq<(string, int)>)
    requires InKnownFrameworks(table) && Keys(impact) == Frameworks
    ensures Keys(r) == Frameworks
  {
    var control := Find(table, id);
    if control.None? then impact
    else Put(impact, control.value.framework, Lookup(impact, control.value.framework).value + control.value.impact)
  }

  /** `impactByFramework` after the `forEach` over the selected ids. */
  function SampleImpact(table: seq<SampleControl>, selected: seq<string>): (r: seq<(string, int)>)
    requires InKnownFrameworks(table)
    ensures Keys(r) == Frameworks
    decreases |selected|
  {
    if |selected| == 0 then
      TablesKeyedByFrameworks();
      NoImpact
    else AddPoints(table, SampleImpact(table, selected[..|selected| - 1]), selected[|selected| - 1])
  }

  method ComputeImpact(table: seq<SampleControl>, selected: seq<string>) returns (impactByFramework: seq<(string, int)>)
    requires InKnownFrameworks(table)
    ensures impactByFramework == SampleImpact(table, selected)
  {
    impactByFramework := NoImpact;
    for i := 0 to |selected|
      invariant impactByFramework == SampleImpact(table, selected[..i])
    {
      var control := Find(table, selected[i]);
      if control.Some? {
        impactByFramework := Put(impactByFramework, control.value.framework,
                                 Lookup(impactByFramework, control.value.framework).value + control.value.impact);
      }
      assert selected[..i + 1][..i] == selected[..i];
    }
    assert selected[..|selected|] == selected;
  }

  /** The points a framework earns: the impact of every selected id that names
      a control of that framework. */
  function PointsIn(table: seq<SampleControl>, selected: seq<string>, framework: string): nat
    decreases |selected|
  {
    if |selected| == 0 then 0
    else
      var control := Find(table, selected[|selected| - 1]);
      PointsIn(table, selected[..|selected| - 1], framework)
      + (if control.Some? && control.value.framework == framework then control.value.impact else 0)
  }

  /** The impact table holds, for each of the three frameworks, exactly the
      points its selected controls are worth, and nothing else. */
  lemma {:induction false} SampleImpactAt(table: seq<SampleControl>, selected: seq<string>, framework: string)
    requires InKnownFrameworks(table)
    ensures Lookup(SampleImpact(table, selected), framework)
            == if framework in Frameworks then Some(PointsIn(table, selected, framework)) else None
    decreases |selected|
  {
    if |selected| == 0 {
      TablesKeyedByFrameworks();
      LookupAt(NoImpact, 0);
      LookupAt(NoImpact, 1);
      LookupAt(NoImpact, 2);
    } else {
      var init := selected[..|selected| - 1];
      SampleImpactAt(table, init, framework);
      var control := Find(table, selected[|selected| - 1]);
      if control.Some? {
        SampleImpactAt(table, init, control.value.framework);
      }
    }
  }

  /** The page's own impact table, over its sample controls. */
  function PageImpact(selected: seq<string>): (r: seq<(string, int)>)
    ensures Keys(r) == Frameworks
  {
    SampleFrameworksKnown();
    SampleImpact(SampleControls, selected)
  }

  // ---------------------------------------------------------------------
  // Projected scores
  // ---------------------------------------------------------------------

  /** `Math.round(Math.min(100, current + impact * 1.5))` */
  function ProjectScore(current: int, points: int): int
  {
    Round(Min(100.0, current as real + points as real * 1.5))
  }

  /** For a current score in [0, 100] the projection never lowers it and never
      passes 100. */
  lemma ProjectScoreBounds(current: int, points: nat)
    requires 0 <= current <= 100
    ensures current <= ProjectScore(current, points) <= 100
    ensures points == 0 ==> ProjectScore(current, points) == current
  {
    RoundBetween(Min(100.0, current as real + points as real * 1.5), current, 100);
    if points == 0 {
      RoundOfInteger(current);
    }
  }

  /** A JavaScript number that may be NaN: `None` stands for NaN. */
  type Number = Option<int>

  /** As written: the impact of a framework outside the three is `undefined`,
      and arithmetic on it yields NaN. */
  function EntryAsWritten(impactByFramework: seq<(string, int)>): ((string, int)) -> (string, Number)
  {
    (e: (string, int)) => var impact := Lookup(impactByFramework, e.0);
                          (e.0, if impact.Some? then Some(ProjectScore(e.1, impact.value)) else None)
  }

  function ProjectedAsWritten(currentScores: seq<(string, int)>, impactByFramework: seq<(string, int)>): seq<(string, Number)>
  {
    Map(currentScores, EntryAsWritten(impactByFramework))
  }

  /** Corrected: a framework without an impact entry gains nothing. */
  function Entry(impactByFramework: seq<(string, int)>): ((string, int)) -> (string, Number)
  {
    (e: (string, int)) => var impact := Lookup(impactByFramework, e.0);
                          (e.0, Some(ProjectScore(e.1, if impact.Some? then impact.value else 0)))
  }

  function Projected(currentScores: seq<(string, int)>, impactByFramework: seq<(string, int)>): seq<(string, Number)>
  {
    Map(currentScores, Entry(impactByFramework))
  }

  /** The loop over `Object.keys(currentScores)` filling `projectedScores`,
      as written: a framework without an impact entry is projected to NaN. */
  method ProjectScores(currentScores: seq<(string, int)>, impactByFramework: seq<(string, int)>)
    returns (projectedScores: seq<(string, Number)>)
    requires DistinctKeys(currentScores)
    ensures projectedScores == ProjectedAsWritten(currentScores, impactByFramework)
  {
    projectedScores := [];
    for i := 0 to |currentScores|
      invariant projectedScores == ProjectedAsWritten(currentScores[..i], impactByFramework)
      invariant forall k :: 0 <= k < i ==> projectedScores[k].0 == currentScores[k].0
    {
      var framework := currentScores[i].0;
      var impact := Lookup(impactByFramework, framework);
      var newScore: Number := if impact.Some? then Some(ProjectScore(currentScores[i].1, impact.value)) else None;
      assert framework !in Keys(projectedScores) by {
        forall k | 0 <= k < |projectedScores| ensures Keys(projectedScores)[k] != framework {
          assert currentScores[k].0 != currentScores[i].0;
        }
      }
      PutNew(projectedScores, framework, newScore);
      projectedScores := Put(projectedScores, framework, newScore);
      assert currentScores[..i + 1][..i] == currentScores[..i];
    }
    assert currentScores[..|currentScores|] == currentScores;
  }

  /** The reduction behind `totalImpact`: the sum over the projected
      frameworks of projected minus current, NaN as soon as one term is. */
  function TotalImpact(currentScores: seq<(string, int)>, projectedScores: seq<(string, Number)>): Number
    decreases |projectedScores|
  {
    if |projectedScores| == 0 then Some(0)
    else
      var rest := TotalImpact(currentScores, projectedScores[..|projectedScores| - 1]);
      var (framework, projected) := projectedScores[|projectedScores| - 1];
      var current := Lookup(currentScores, framework);
      if rest.Some? && projected.Some? && current.Some? then Some(rest.value + projected.value - current.value)
      else None
  }

  /** Each corrected entry keeps its framework and never falls below the
      current score nor passes 100. */
  lemma ProjectedSpec(currentScores: seq<(string, int)>, impactByFramework: seq<(string, int)>)
    requires forall k :: 0 <= k < |currentScores| ==> 0 <= currentScores[k].1 <= 100
    requires forall k :: 0 <= k < |impactByFramework| ==> impactByFramework[k].1 >= 0
    ensures var p := Projected(currentScores, impactByFramework);
            && |p| == |currentScores|
            && forall k :: 0 <= k < |p| ==>
                 p[k].0 == currentScores[k].0 && p[k].1.Some?
                 && currentScores[k].1 <= p[k].1.value <= 100
  {
    var f := Entry(impactByFramework);
    MapAt(currentScores, f);
    forall k | 0 <= k < |currentScores|
      ensures currentScores[k].1 <= f(currentScores[k]).1.value <= 100
    {
      var impact := Lookup(impactByFramework, currentScores[k].0);
      if impact.Some? {
        assert (currentScores[k].0, impact.value) in impactByFramework;
        ProjectScoreBounds(currentScores[k].1, impact.value);
      } else {
        ProjectScoreBounds(currentScores[k].1, 0);
      }
    }
  }

  /** Over entries that each rise from their current score, the total is a
      number, and never negative. */
  lemma {:induction false} TotalImpactNonNegative(currentScores: seq<(string, int)>, projectedScores: seq<(string, Number)>)
    requires DistinctKeys(currentScores) && |projectedScores| <= |currentScores|
    requires forall k :: 0 <= k < |projectedScores| ==>
               projectedScores[k].0 == currentScores[k].0 && projectedScores[k].1.Some?
               && projectedScores[k].1.value >= currentScores[k].1
    ensures TotalImpact(currentScores, projectedScores).Some?
    ensures TotalImpact(currentScores, projectedScores).value >= 0
    decreases |projectedScores|
  {
    if |projectedScores| > 0 {
      var n := |projectedScores| - 1;
      TotalImpactNonNegative(currentScores, projectedScores[..n]);
      LookupAt(currentScores, n);
    }
  }

  // ---------------------------------------------------------------------
  // Selection (`toggleControl`)
  // ---------------------------------------------------------------------

  ghost predicate NoDuplicates(s: seq<string>)
  {
    forall i, j :: 0 <= i < j < |s| ==> s[i] != s[j]
  }

  function Other(id: string): string -> bool
  {
    x => x != id
  }

  /** `prev.includes(id) ? prev.filter(x => x !== id) : [...prev, id]` */
  function Toggled(prev: seq<string>, id: string): seq<string>
  {
    if id in prev then Filter(prev, Other(id)) else prev + [id]
  }

  /** Toggling flips whether `id` is selected and leaves every other id alone. */
  lemma ToggledMembers(prev: seq<string>, id: string)
    ensures id in Toggled(prev, id) <==> id !in prev
    ensures forall x :: x != id ==> (x in Toggled(prev, id) <==> x in prev)
  {
    FilterMembers(prev, Other(id));
  }

  lemma {:induction false} FilterKeepsNoDuplicates(s: seq<string>, p: string -> bool)
    requires NoDuplicates(s)
    ensures NoDuplicates(Filter(s, p))
    decreases |s|
  {
    if |s| > 0 {
      var init, last := s[..|s| - 1], s[|s| - 1];
      FilterKeepsNoDuplicates(init, p);
      FilterMembers(init, p);
      assert last !in init by {
        forall k | 0 <= k < |init| ensures init[k] != last {
          assert s[k] != s[|s| - 1];
        }
      }
    }
  }

  /** A selection without repeated ids stays without. */
  lemma ToggledKeepsNoDuplicates(prev: seq<string>, id: string)
    requires NoDuplicates(prev)
    ensures NoDuplicates(Toggled(prev, id))
  {
    if id in prev {
      FilterKeepsNoDuplicates(prev, Other(id));
    }
  }

  /** Toggling twice restores the selected ids. When `id` was not selected it
      restores the selection exactly; when it was, every copy of `id` is
      dropped and one is put back last. */
  lemma ToggleTwice(prev: seq<string>, id: string)
    ensures forall x :: x in Toggled(Toggled(prev, id), id) <==> x in prev
    ensures id !in prev ==> Toggled(Toggled(prev, id), id) == prev
    ensures id in prev ==> Toggled(Toggled(prev, id), id) == Filter(prev, Other(id)) + [id]
  {
    ToggledMembers(prev, id);
    ToggledMembers(Toggled(prev, id), id);
    if id !in prev {
      assert id in prev + [id];
      FilterSnoc(prev, id, Other(id));
      FilterKeepsAll(prev, Other(id));
    }
  }

  // ---------------------------------------------------------------------
  // The simulation outcome and the page state
  // ---------------------------------------------------------------------

  datatype SimulationResults = SimulationResults(
    currentScores: seq<(string, int)>,
    projectedScores: seq<(string, Number)>,
    controlsImplemented: nat,
    gapsResolved: nat)

  function IsOpen(g: Gap): bool
  {
    g.status == Open
  }

  /** What `runSimulation` records, given the stored results and gaps. */
  function Outcome(selected: seq<string>, results: seq<ComplianceResult>, gaps: seq<Gap>): SimulationResults
  {
    var currentScores := CurrentScores(results);
    var openGaps := Filter(gaps, IsOpen);
    SimulationResults(currentScores, ProjectedAsWritten(currentScores, PageImpact(selected)), |selected|,
                      if |selected| <= |openGaps| then |selected| else |openGaps|)
  }

  /** When every stored result either scores zero or names one of the three
      frameworks, the current scores name exactly the three frameworks. */
  lemma {:induction false} CurrentScoresKnown(results: seq<ComplianceResult>)
    requires forall j :: 0 <= j < |results| ==> results[j].score == 0.0 || results[j].framework in Frameworks
    ensures Keys(CurrentScores(results)) == Frameworks
    decreases |results|
  {
    if |results| == 0 {
      TablesKeyedByFrameworks();
    } else {
      CurrentScoresKnown(results[..|results| - 1]);
    }
  }

  /** Where every framework has an impact entry, the projection as written and
      the corrected one agree. */
  lemma AsWrittenAgrees(currentScores: seq<(string, int)>, impactByFramework: seq<(string, int)>)
    requires forall k :: 0 <= k < |currentScores| ==> Lookup(impactByFramework, currentScores[k].0).Some?
    ensures ProjectedAsWritten(currentScores, impactByFramework) == Projected(currentScores, impactByFramework)
  {
    MapAt(currentScores, EntryAsWritten(impactByFramework));
    MapAt(currentScores, Entry(impactByFramework));
  }

  /** With stored scores in [0, 100], each naming one of the three frameworks
      unless it is zero, every framework of the outcome is projected at or
      above its current score, the total impact is a number and is never
      negative, and the resolved gaps are the smaller of the selection and the
      open gaps. */
  lemma OutcomeSpec(selected: seq<string>, results: seq<ComplianceResult>, gaps: seq<Gap>)
    requires forall j :: 0 <= j < |results| ==> 0.0 <= results[j].score <= 100.0
    requires forall j :: 0 <= j < |results| ==> results[j].score == 0.0 || results[j].framework in Frameworks
    ensures var o := Outcome(selected, results, gaps);
            && |o.projectedScores| == |o.currentScores|
            && (forall k :: 0 <= k < |o.projectedScores| ==>
                  o.projectedScores[k].0 == o.currentScores[k].0 && o.projectedScores[k].1.Some?
                  && o.currentScores[k].1 <= o.projectedScores[k].1.value <= 100)
            && TotalImpact(o.currentScores, o.projectedScores).Some?
            && TotalImpact(o.currentScores, o.projectedScores).value >= 0
            && o.controlsImplemented == |selected|
            && o.gapsResolved <= |selected| && o.gapsResolved <= |Filter(gaps, IsOpen)| <= |gaps|
            && (o.gapsResolved == |selected| || o.gapsResolved == |Filter(gaps, IsOpen)|)
            && (forall g :: g in Filter(gaps, IsOpen) <==> g in gaps && g.status == Open)
  {
    var currentScores := CurrentScores(results);
    SampleFrameworksKnown();
    var impact := PageImpact(selected);
    CurrentScoresKeys(results);
    CurrentScoresInRange(results);
    forall k | 0 <= k < |currentScores| ensures 0 <= currentScores[k].1 <= 100 {
      LookupAt(currentScores, k);
    }
    forall k | 0 <= k < |impact| ensures impact[k].1 >= 0 {
      assert Keys(impact)[k] == impact[k].0;
      SampleImpactAt(SampleControls, selected, impact[k].0);
      LookupAt(impact, k) by {
        TablesKeyedByFrameworks();
        assert DistinctKeys(impact) by {
          forall a, b | 0 <= a < b < |impact| ensures impact[a].0 != impact[b].0 {
            assert Keys(impact)[a] == impact[a].0 && Keys(impact)[b] == impact[b].0;
          }
        }
      }
    }
    ProjectedSpec(currentScores, impact);
    TotalImpactNonNegative(currentScores, Projected(currentScores, impact));
    CurrentScoresKnown(results);
    forall k | 0 <= k < |currentScores| ensures Lookup(impact, currentScores[k].0).Some? {
      assert Keys(currentScores)[k] == currentScores[k].0;
    }
    AsWrittenAgrees(currentScores, impact);
    FilterMembers(gaps, IsOpen);
  }

  /** As written, a stored result with a non-zero score for a framework outside
      the three gives that framework a NaN projection, and the total impact is
      NaN. */
  lemma UnknownFrameworkGivesNaN(selected: seq<string>, results: seq<ComplianceResult>, i: nat)
    requires i < |results| && results[i].score != 0.0 && results[i].framework !in Frameworks
    ensures var currentScores := CurrentScores(results);
            var asWritten := ProjectedAsWritten(currentScores, PageImpact(selected));
            (exists k :: 0 <= k < |asWritten| && asWritten[k] == (results[i].framework, None))
            && TotalImpact(currentScores, asWritten).None?
  {
    var framework := results[i].framework;
    var currentScores := CurrentScores(results);
    SampleFrameworksKnown();
    var impact := PageImpact(selected);
    var asWritten := ProjectedAsWritten(currentScores, impact);
    var j := LastScored(results, i);
    LastResultWins(results, j);
    var k := KeyIndex(currentScores, framework);
    SampleImpactAt(SampleControls, selected, framework);
    MapAt(currentScores, EntryAsWritten(impact));
    assert asWritten[k] == (framework, None);
    NaNSpreads(currentScores, asWritten, k);
  }

  /** The last index at or after `i` whose result scores `results[i]`'s
      framework with a non-zero score. */
  lemma {:induction false} LastScored(results: seq<ComplianceResult>, i: nat) returns (j: nat)
    requires i < |results| && results[i].score != 0.0
    ensures i <= j < |results| && results[j].framework == results[i].framework && results[j].score != 0.0
    ensures forall l :: j < l < |results| && results[l].framework == results[j].framework ==> results[l].score == 0.0
    decreases |results| - i
  {
    if l :| i < l < |results| && results[l].framework == results[i].framework && results[l].score != 0.0 {
      j := LastScored(results, l);
    } else {
      j := i;
    }
  }

  lemma KeyIndex(m: seq<(string, int)>, key: string) returns (k: nat)
    requires Lookup(m, key).Some?
    ensures k < |m| && m[k].0 == key
  {
    assert key in Keys(m);
    var i :| 0 <= i < |Keys(m)| && Keys(m)[i] == key;
    k := i;
  }

  /** One NaN term makes the whole sum NaN. */
  lemma {:induction false} NaNSpreads(currentScores: seq<(string, int)>, projectedScores: seq<(string, Number)>, k: nat)
    requires k < |projectedScores| && projectedScores[k].1.None?
    ensures TotalImpact(currentScores, projectedScores).None?
    decreases |projectedScores|
  {
    var n := |projectedScores| - 1;
    if k < n {
      NaNSpreads(currentScores, projectedScores[..n], k);
    }
  }

  /** The body of `runSimulation`, computing the outcome it records. */
  method Simulate(selected: seq<string>, results: seq<ComplianceResult>, gaps: seq<Gap>) returns (outcome: SimulationResults)
    ensures outcome == Outcome(selected, results, gaps)
  {
    var currentScores := GetCurrentScores(results);
    SampleFrameworksKnown();
    var impactByFramework := ComputeImpact(SampleControls, selected);
    CurrentScoresKeys(results);
    var projectedScores := ProjectScores(currentScores, impactByFramework);
    var openGaps := Filter(gaps, IsOpen);
    var gapsResolved := if |selected| <= |openGaps| then |selected| else |openGaps|;
    outcome := SimulationResults(currentScores, projectedScores, |selected|, gapsResolved);
  }

  /** The page component's state. */
  class Page {
    var selectedFramework: string
    var selectedControls: seq<string>
    var simulationRun: bool
    var simulationResults: Option<SimulationResults>

    /** No id is selected twice, and a simulation is shown exactly when one ran. */
    ghost predicate Valid()
      reads this
    {
      NoDuplicates(selectedControls) && (simulationRun <==> simulationResults.Some?)
    }

    constructor()
      ensures Valid()
      ensures selectedFramework == "all" && selectedControls == []
      ensures !simulationRun && simulationResults == None
    {
      selectedFramework := "all";
      selectedControls := [];
      simulationRun := false;
      simulationResults := None;
    }

    function VisibleControls(): seq<SampleControl>
      reads this
    {
      FilteredControls(SampleControls, selectedFramework)
    }

    method SelectFramework(framework: string)
      requires Valid()
      modifies this
      ensures Valid()
      ensures selectedFramework == framework
      ensures selectedControls == old(selectedControls)
      ensures simulationRun == old(simulationRun) && simulationResults == old(simulationResults)
    {
      selectedFramework := framework;
    }

    /** Flips one id and discards the last outcome. */
    method ToggleControl(id: string)
      requires Valid()
      modifies this
      ensures Valid()
      ensures selectedControls == Toggled(old(selectedControls), id)
      ensures !simulationRun && simulationResults == None
      ensures selectedFramework == old(selectedFramework)
    {
      ToggledKeepsNoDuplicates(selectedControls, id);
      selectedControls := Toggled(selectedControls, id);
      simulationRun := false;
      simulationResults := None;
    }

    /** `results` are the newest stored results and `gaps` the stored gaps. */
    method RunSimulation(results: seq<ComplianceResult>, gaps: seq<Gap>)
      requires Valid()
      modifies this
      ensures Valid()
      ensures simulationRun && simulationResults == Some(Outcome(selectedControls, results, gaps))
      ensures selectedControls == old(selectedControls) && selectedFramework == old(selectedFramework)
    {
      var outcome := Simulate(selectedControls, results, gaps);
      simulationResults := Some(outcome);
      simulationRun := true;
    }

    method ResetSimulation()
      modifies this
      ensures Valid()
      ensures selectedControls == [] && !simulationRun && simulationResults == None
      ensures selectedFramework == old(selectedFramework)
    {
      selectedControls := [];
      simulationRun := false;
      simulationResults := None;
    }

    /** `totalImpact` as rendered: 0 before any simulation. */
    function ShownTotalImpact(): (t: Number)
      reads this
    {
      if simulationResults.None? then Some(0)
      else TotalImpact(simulationResults.value.currentScores, simulationResults.value.projectedScores)
    }
  }

  /** After a run on scores in [0, 100] of the three frameworks the rendered
      total impact is a number and never negative. */
  lemma ShownTotalImpactAfterRun(p: Page, results: seq<ComplianceResult>, gaps: seq<Gap>)
    requires p.simulationResults == Some(Outcome(p.selectedControls, results, gaps))
    requires forall j :: 0 <= j < |results| ==> 0.0 <= results[j].score <= 100.0
    requires forall j :: 0 <= j < |results| ==> results[j].score == 0.0 || results[j].framework in Frameworks
    ensures p.ShownTotalImpact().Some? && p.ShownTotalImpact().value >= 0
  {
    OutcomeSpec(p.selectedControls, results, gaps);
  }
}
