/**
 Where every submitted item of a map ends up. The builder says that no dropped item goes unnamed; this
 module counts what is kept, what is warned about and what passes in silence, and gives the exact
 condition under which nothing does.

 Items are components, technologies, entry points, details, interfaces, concerns, relationships, flows
 and the steps of flows. What belongs to a dropped item is dropped with it.
 */
module MapAccount {
  import opened Common
  import opened Model
  import opened Text
  import opened Maps
  import opened Clipping
  import opened Sections
  import opened MapBuild

  // Details.

  predicate Known(env: Env, names: Names, d: RawDetail) {
    NormalizedName(env, d.name) in names
  }

  function KnownDetails(env: Env, names: Names, ds: seq<RawDetail>): nat {
    if ds == [] then 0 else (if Known(env, names, ds[0]) then 1 else 0) + KnownDetails(env, names, ds[1..])
  }

  /** A detail, and its interfaces and concerns if its component is known. */
  function ItemsOfDetails(env: Env, names: Names, ds: seq<RawDetail>): nat {
    if ds == [] then 0
    else
      1 + (if Known(env, names, ds[0]) then |ds[0].interfaces| + |ds[0].concerns| else 0)
      + ItemsOfDetails(env, names, ds[1..])
  }

  function SilentInDetail(env: Env, names: Names, cs: seq<Component>, d: RawDetail): nat {
    match Target(env, names, cs, d)
    case None => 0
    case Some(i) =>
      |InterfaceAccount(env, |cs[i].interfaces|, d.interfaces, cs[i].name).silent|
      + |ConcernAccount(env, |cs[i].concerns|, d.concerns, cs[i].name).silent|
  }

  function SilentInDetails(env: Env, names: Names, cs: seq<Component>, ds: seq<RawDetail>): nat
    decreases |ds|
  {
    if ds == [] then 0
    else SilentInDetail(env, names, cs, ds[0]) + SilentInDetails(env, names, MergedOne(env, names, cs, ds[0]), ds[1..])
  }

  function WeightOf(c: Component): nat {
    |c.interfaces| + |c.concerns|
  }

  /** The interfaces and concerns of all components. */
  function Weight(cs: seq<Component>): nat {
    if cs == [] then 0 else Weight(cs[..|cs| - 1]) + WeightOf(cs[|cs| - 1])
  }

  lemma {:induction false} WeightChanges(cs: seq<Component>, i: nat, c: Component)
    requires i < |cs|
    ensures Weight(cs[i := c]) + WeightOf(cs[i]) == Weight(cs) + WeightOf(c)
  {
    var n := |cs| - 1;
    if i < n {
      WeightChanges(cs[..n], i, c);
      assert cs[i := c][..n] == cs[..n][i := c];
    } else {
      assert cs[i := c][..n] == cs[..n];
    }
  }

  lemma DetailIsAccountedFor(env: Env, names: Names, cs: seq<Component>, d: RawDetail)
    requires Resolves(env, names, cs) && SoundComponents(cs)
    ensures var t := MergedOne(env, names, cs, d);
            (if Known(env, names, d) then |d.interfaces| + |d.concerns| + Weight(cs) else 1 + Weight(cs))
            == Weight(t) + |DetailWarnings(env, names, cs, d)| + SilentInDetail(env, names, cs, d)
  {
    hide NormalizedName, Limited, Filtered, SoundComponent, Weight, Clipped, Resolves;
    if Known(env, names, d) {
      KnownNameHasTarget(env, names, cs, d);
      var i := Target(env, names, cs, d).value;
      SoundIsCapped(cs[i]);
      LimitedMeans(InterfaceOf(env), InterfaceWarning(cs[i].name), |cs[i].interfaces|, MAX_INTERFACES, d.interfaces);
      LimitedMeans(ConcernOf(env), ConcernWarning(cs[i].name), |cs[i].concerns|, MAX_CONCERNS, d.concerns);
      WeightChanges(cs, i, Merged(env, cs[i], d));
    }
  }

  lemma SoundIsCapped(c: Component)
    requires SoundComponent(c)
    ensures |c.interfaces| <= MAX_INTERFACES && |c.concerns| <= MAX_CONCERNS
  {
  }

  lemma {:induction false} DetailsAreAccountedFor(env: Env, names: Names, cs: seq<Component>, ds: seq<RawDetail>)
    requires Resolves(env, names, cs) && SoundComponents(cs)
    ensures ItemsOfDetails(env, names, ds) + Weight(cs)
         == KnownDetails(env, names, ds) + Weight(MergedAll(env, names, cs, ds))
            + |DetailsWarnings(env, names, cs, ds)| + SilentInDetails(env, names, cs, ds)
    decreases |ds|
  {
    hide NormalizedName, Resolves, SoundComponents, MergedOne, Weight, DetailWarnings, SilentInDetail, Known;
    if ds != [] {
      var next := MergedOne(env, names, cs, ds[0]);
      DetailIsAccountedFor(env, names, cs, ds[0]);
      MergedOneIsSound(env, names, cs, ds[0]);
      SameSkeletonResolves(env, names, cs, next);
      DetailsAreAccountedFor(env, names, next, ds[1..]);
    }
  }

  // When details pass in full.

  /** The interfaces that all details submit for a component, in order. */
  function InterfacesFor(env: Env, names: Names, id: string, ds: seq<RawDetail>): seq<RawInterface> {
    if ds == [] then []
    else
      (if Known(env, names, ds[0]) && names[NormalizedName(env, ds[0].name)] == id then ds[0].interfaces else [])
      + InterfacesFor(env, names, id, ds[1..])
  }

  function ConcernsFor(env: Env, names: Names, id: string, ds: seq<RawDetail>): seq<RawConcern> {
    if ds == [] then []
    else
      (if Known(env, names, ds[0]) && names[NormalizedName(env, ds[0].name)] == id then ds[0].concerns else [])
      + ConcernsFor(env, names, id, ds[1..])
  }

  /** There is room for everything that the details submit for the component. */
  predicate RoomFor(env: Env, names: Names, c: Component, ds: seq<RawDetail>) {
    && Fits(InterfaceOf(env), |c.interfaces|, MAX_INTERFACES, InterfacesFor(env, names, c.id, ds))
    && Fits(ConcernOf(env), |c.concerns|, MAX_CONCERNS, ConcernsFor(env, names, c.id, ds))
  }

  ghost predicate RoomForAll(env: Env, names: Names, cs: seq<Component>, ds: seq<RawDetail>) {
    forall id :: id in names.Values && FindById(cs, id).Some? ==> RoomFor(env, names, cs[FindById(cs, id).value], ds)
  }

  lemma FitsConcat<R, T, W>(f: Keeper<R, T>, warn: R -> W, n: nat, cap: nat, a: seq<R>, b: seq<R>)
    requires n <= cap
    ensures var kept := Limited(f, warn, n, cap, a).kept;
            && n + |kept| <= cap
            && (Fits(f, n, cap, a + b) <==> Fits(f, n, cap, a) && Fits(f, n + |kept|, cap, b))
            && (Limited(f, warn, n, cap, a).silent == [] <==> Fits(f, n, cap, a))
  {
    hide Limited, Filtered, Fits;
    LimitedMeans(f, warn, n, cap, a);
    LimitedMeans(f, warn, n, cap, a + b);
    LimitedMeans(f, warn, n + |Limited(f, warn, n, cap, a).kept|, cap, b);
    LimitedConcat(f, warn, n, cap, a, b);
  }

  lemma FindByIdSame(cs: seq<Component>, ds: seq<Component>, id: string)
    requires SameSkeleton(cs, ds)
    ensures FindById(ds, id) == FindById(cs, id)
  {
    hide FindById;
    var a, b := FindById(cs, id), FindById(ds, id);
    if a.Some? {
      assert ds[a.value].id == id;
      assert HasId(ds, id);
    }
    if b.Some? {
      assert cs[b.value].id == id;
      assert HasId(cs, id);
    }
  }

  /** What a detail does to the room of the component it is about. */
  lemma RoomAfterDetail(env: Env, names: Names, c: Component, ds: seq<RawDetail>)
    requires ds != [] && SoundComponent(c)
    requires Known(env, names, ds[0]) && names[NormalizedName(env, ds[0].name)] == c.id
    ensures RoomFor(env, names, c, ds)
            <==> && InterfaceAccount(env, |c.interfaces|, ds[0].interfaces, c.name).silent == []
                 && ConcernAccount(env, |c.concerns|, ds[0].concerns, c.name).silent == []
                 && RoomFor(env, names, Merged(env, c, ds[0]), ds[1..])
  {
    hide NormalizedName, Limited, Filtered, Fits, RelativePath;
    FitsConcat(InterfaceOf(env), InterfaceWarning(c.name), |c.interfaces|, MAX_INTERFACES, ds[0].interfaces,
               InterfacesFor(env, names, c.id, ds[1..]));
    FitsConcat(ConcernOf(env), ConcernWarning(c.name), |c.concerns|, MAX_CONCERNS, ds[0].concerns,
               ConcernsFor(env, names, c.id, ds[1..]));
  }

  /** A detail about another component leaves the room as it is. */
  lemma RoomUnchanged(env: Env, names: Names, c: Component, ds: seq<RawDetail>)
    requires ds != []
    requires Known(env, names, ds[0]) ==> names[NormalizedName(env, ds[0].name)] != c.id
    ensures RoomFor(env, names, c, ds) <==> RoomFor(env, names, c, ds[1..])
  {
    hide NormalizedName, Fits;
    assert [] + InterfacesFor(env, names, c.id, ds[1..]) == InterfacesFor(env, names, c.id, ds[1..]);
    assert [] + ConcernsFor(env, names, c.id, ds[1..]) == ConcernsFor(env, names, c.id, ds[1..]);
  }

  lemma RoomStep(env: Env, names: Names, cs: seq<Component>, ds: seq<RawDetail>, id: string)
    requires Resolves(env, names, cs) && SoundComponents(cs) && ds != []
    requires id in names.Values && FindById(cs, id).Some?
    ensures var next := MergedOne(env, names, cs, ds[0]);
            && FindById(next, id) == FindById(cs, id) && |next| == |cs|
            && (RoomFor(env, names, cs[FindById(cs, id).value], ds)
                <==> RoomFor(env, names, next[FindById(cs, id).value], ds[1..])
                     && (Known(env, names, ds[0]) && names[NormalizedName(env, ds[0].name)] == id
                         ==> SilentInDetail(env, names, cs, ds[0]) == 0))
  {
    hide NormalizedName, RoomFor, Merged, InterfaceAccount, ConcernAccount, SoundComponent, FindById, Resolves;
    var next, i := MergedOne(env, names, cs, ds[0]), FindById(cs, id).value;
    MergedOneIsSound(env, names, cs, ds[0]);
    FindByIdSame(cs, next, id);
    if Known(env, names, ds[0]) && names[NormalizedName(env, ds[0].name)] == id {
      RoomAfterDetail(env, names, cs[i], ds);
    } else {
      RoomUnchanged(env, names, cs[i], ds);
    }
  }

  /** Nothing in the details passes in silence exactly when there is room for all of it. */
  lemma {:induction false} DetailsPassIff(env: Env, names: Names, cs: seq<Component>, ds: seq<RawDetail>)
    requires Resolves(env, names, cs) && SoundComponents(cs)
    ensures SilentInDetails(env, names, cs, ds) == 0 <==> RoomForAll(env, names, cs, ds)
    decreases |ds|
  {
    hide NormalizedName, RoomFor, MergedOne, SilentInDetail, SoundComponents, Resolves, FindById;
    if ds == [] {
      forall id | id in names.Values && FindById(cs, id).Some?
        ensures RoomFor(env, names, cs[FindById(cs, id).value], [])
      {
        RoomForNothing(env, names, cs[FindById(cs, id).value]);
      }
    } else {
      var next := MergedOne(env, names, cs, ds[0]);
      MergedOneIsSound(env, names, cs, ds[0]);
      SameSkeletonResolves(env, names, cs, next);
      DetailsPassIff(env, names, next, ds[1..]);
      forall id | id in names.Values ensures FindById(next, id) == FindById(cs, id) {
        FindByIdSame(cs, next, id);
      }
      forall id | id in names.Values && FindById(cs, id).Some?
        ensures RoomFor(env, names, cs[FindById(cs, id).value], ds)
                <==> RoomFor(env, names, next[FindById(cs, id).value], ds[1..])
                     && (Known(env, names, ds[0]) && names[NormalizedName(env, ds[0].name)] == id
                         ==> SilentInDetail(env, names, cs, ds[0]) == 0)
      {
        RoomStep(env, names, cs, ds, id);
      }
      HeardOfTarget(env, names, cs, ds[0]);
    }
  }

  lemma HeardOfTarget(env: Env, names: Names, cs: seq<Component>, d: RawDetail)
    requires Resolves(env, names, cs)
    ensures !Known(env, names, d) ==> SilentInDetail(env, names, cs, d) == 0
    ensures Known(env, names, d) ==>
              && names[NormalizedName(env, d.name)] in names.Values
              && FindById(cs, names[NormalizedName(env, d.name)]).Some?
  {
    hide NormalizedName, InterfaceAccount, ConcernAccount;
    if Known(env, names, d) {
      KnownNameHasTarget(env, names, cs, d);
    }
  }

  lemma RoomForNothing(env: Env, names: Names, c: Component)
    ensures RoomFor(env, names, c, [])
  {
  }

  // Steps of flows.

  function StepCount(fs: seq<Flow>): nat {
    if fs == [] then 0 else |fs[0].steps| + StepCount(fs[1..])
  }

  /** The steps submitted with the flows that are kept. */
  function StepsOfKept(env: Env, names: Names, n: nat, raws: seq<RawFlow>): nat
    decreases |raws|
  {
    if raws == [] || n >= MAX_FLOWS then 0
    else
      match FlowOf(env, names)(n, raws[0])
      case Some(_) => |raws[0].steps| + StepsOfKept(env, names, n + 1, raws[1..])
      case None => StepsOfKept(env, names, n, raws[1..])
  }

  function KeptSteps(env: Env, names: Names, raw: RawFlow): seq<FlowStep> {
    StepsFrom(env, names, Take(raw.steps, MAX_FLOW_STEPS))
  }

  /** The steps that kept flows lost: beyond the tenth, or of unknown components. */
  function LostSteps(env: Env, names: Names, n: nat, raws: seq<RawFlow>): nat
    decreases |raws|
  {
    if raws == [] || n >= MAX_FLOWS then 0
    else
      match FlowOf(env, names)(n, raws[0])
      case Some(_) =>
        StepsAreFewer(env, names, raws[0]);
        |raws[0].steps| - |KeptSteps(env, names, raws[0])| + LostSteps(env, names, n + 1, raws[1..])
      case None => LostSteps(env, names, n, raws[1..])
  }

  lemma StepsAreFewer(env: Env, names: Names, raw: RawFlow)
    ensures |KeptSteps(env, names, raw)| <= |raw.steps|
  {
    hide StepsFrom;
    StepsAreSound(env, names, Take(raw.steps, MAX_FLOW_STEPS));
  }

  lemma {:induction false} StepsAreAccountedFor(env: Env, names: Names, n: nat, raws: seq<RawFlow>)
    ensures StepsOfKept(env, names, n, raws)
         == StepCount(Flows(env, names, n, raws).kept) + LostSteps(env, names, n, raws)
    decreases |raws|
  {
    hide StepsFrom, SomeEvidence, Clipped, Decimal, FlowOf, KeptSteps;
    if raws != [] && n < MAX_FLOWS {
      match FlowOf(env, names)(n, raws[0])
      case Some(f) =>
        StepsAreAccountedFor(env, names, n + 1, raws[1..]);
        KeptFlowHasKeptSteps(env, names, n, raws[0]);
        StepsAreFewer(env, names, raws[0]);
        var rest := Flows(env, names, n + 1, raws[1..]).kept;
        assert ([f] + rest)[1..] == rest;
      case None =>
        StepsAreAccountedFor(env, names, n, raws[1..]);
    }
  }

  lemma KeptFlowHasKeptSteps(env: Env, names: Names, n: nat, raw: RawFlow)
    requires FlowOf(env, names)(n, raw).Some?
    ensures FlowOf(env, names)(n, raw).value.steps == KeptSteps(env, names, raw)
  {
    hide StepsFrom, SomeEvidence, Clipped, Decimal;
  }

  /** At most ten steps, all of known components. */
  predicate StepsPass(env: Env, names: Names, raw: RawFlow) {
    |raw.steps| <= MAX_FLOW_STEPS
    && forall i :: 0 <= i < |raw.steps| ==> NormalizedName(env, raw.steps[i].componentName) in names
  }

  lemma {:induction false} AllStepsKeptIff(env: Env, names: Names, raws: seq<RawStep>)
    ensures |StepsFrom(env, names, raws)| <= |raws|
    ensures |StepsFrom(env, names, raws)| == |raws|
            <==> forall i :: 0 <= i < |raws| ==> NormalizedName(env, raws[i].componentName) in names
  {
    hide Clipped, NormalizedName;
    if raws != [] {
      AllStepsKeptIff(env, names, raws[1..]);
      assert forall i :: 0 <= i < |raws| - 1 ==> raws[1..][i] == raws[i + 1];
      assert forall i :: 0 < i < |raws| ==> raws[i] == raws[1..][i - 1];
    }
  }

  lemma StepsPassIff(env: Env, names: Names, raw: RawFlow)
    ensures |KeptSteps(env, names, raw)| == |raw.steps| <==> StepsPass(env, names, raw)
  {
    hide StepsFrom, NormalizedName;
    AllStepsKeptIff(env, names, Take(raw.steps, MAX_FLOW_STEPS));
  }

  /** The decision about a flow does not depend on its number. */
  lemma NumberDoesNotDecide(env: Env, names: Names, n: nat, raw: RawFlow)
    ensures FlowOf(env, names)(n, raw).Some? <==> FlowOf(env, names)(0, raw).Some?
  {
    hide StepsFrom, SomeEvidence, Clipped, Decimal;
  }

  /** Every flow that qualifies has only steps that pass. */
  ghost predicate FlowsPass(env: Env, names: Names, raws: seq<RawFlow>) {
    forall i :: 0 <= i < |raws| && FlowOf(env, names)(0, raws[i]).Some? ==> StepsPass(env, names, raws[i])
  }

  lemma FlowsPassHead(env: Env, names: Names, raws: seq<RawFlow>)
    requires raws != []
    ensures FlowsPass(env, names, raws)
            <==> (FlowOf(env, names)(0, raws[0]).Some? ==> StepsPass(env, names, raws[0]))
                 && FlowsPass(env, names, raws[1..])
  {
    hide FlowOf, StepsPass;
    assert forall i :: 0 <= i < |raws| - 1 ==> raws[1..][i] == raws[i + 1];
    assert forall i :: 0 < i < |raws| ==> raws[i] == raws[1..][i - 1];
  }

  /** If no flow is passed over, no step is lost exactly when the steps of every kept flow pass. */
  lemma {:induction false} NoStepLostIff(env: Env, names: Names, n: nat, raws: seq<RawFlow>)
    requires Flows(env, names, n, raws).silent == []
    ensures LostSteps(env, names, n, raws) == 0 <==> FlowsPass(env, names, raws)
    decreases |raws|
  {
    hide FlowOf, KeptSteps, StepsPass, FlowsPass;
    if raws == [] {
      NoFlowsPass(env, names);
    } else {
      NumberDoesNotDecide(env, names, n, raws[0]);
      FlowsPassHead(env, names, raws);
      StepsAreFewer(env, names, raws[0]);
      StepsPassIff(env, names, raws[0]);
      match FlowOf(env, names)(n, raws[0])
      case Some(_) => NoStepLostIff(env, names, n + 1, raws[1..]);
      case None => NoStepLostIff(env, names, n, raws[1..]);
    }
  }

  lemma NoFlowsPass(env: Env, names: Names)
    ensures FlowsPass(env, names, [])
  {
  }

  // The whole submission.

  function Excess(submitted: nat, cap: nat): nat {
    if submitted > cap then submitted - cap else 0
  }

  /** How many items pass in silence. */
  function Silent(env: Env, survey: RawSurvey, dives: seq<RawDeepDive>): nat {
    var s := SkeletonOf(env, survey);
    Excess(|survey.components|, MAX_COMPONENTS) + Excess(|survey.technologies|, MAX_TECHNOLOGIES)
    + Excess(|survey.entryPoints|, MAX_ENTRY_POINTS)
    + SilentInDetails(env, s.names, s.components, AllDetails(dives))
    + |Relationships(env, s.names, 0, {}, AllRelationships(dives)).silent|
    + |Flows(env, s.names, 0, AllFlows(dives)).silent| + LostSteps(env, s.names, 0, AllFlows(dives))
  }

  /** How many items are submitted. */
  function Submitted(env: Env, survey: RawSurvey, dives: seq<RawDeepDive>): nat {
    var names := SkeletonOf(env, survey).names;
    |survey.components| + |survey.technologies| + |survey.entryPoints|
    + ItemsOfDetails(env, names, AllDetails(dives)) + |AllRelationships(dives)| + |AllFlows(dives)|
    + StepsOfKept(env, names, 0, AllFlows(dives))
  }

  /** How many items the map holds. */
  function Held(m: CodebaseMap): nat {
    |m.components| + |m.technologies| + |m.entryPoints| + Weight(m.components) + |m.relationships| + |m.flows|
    + StepCount(m.flows)
  }

  lemma {:induction false} DetailsWarningsConcat(
      env: Env, names: Names, cs: seq<Component>, a: seq<RawDetail>, b: seq<RawDetail>)
    ensures |DetailsWarnings(env, names, cs, a + b)|
         == |DetailsWarnings(env, names, cs, a)| + |DetailsWarnings(env, names, MergedAll(env, names, cs, a), b)|
    decreases |a|
  {
    hide MergedOne, DetailWarnings;
    if a == [] {
      assert a + b == b;
    } else {
      assert (a + b)[1..] == a[1..] + b;
      DetailsWarningsConcat(env, names, MergedOne(env, names, cs, a[0]), a[1..], b);
    }
  }

  /** The warnings given dive by dive are as many as those of the concatenated lists. */
  lemma {:induction false} DivesWarnSeparately(env: Env, names: Names, d: Draft, dives: seq<RawDeepDive>)
    ensures |DivesWarnings(env, names, d, dives)| == WarnedByLists(env, names, d, dives)
    decreases |dives|
  {
    hide DetailsWarnings, Relationships, SeenAfter, Flows, MergedAll, AfterDive, AllDetails, AllRelationships, AllFlows,
         DiveWarnings;
    if dives == [] {
      NoDivesNoWarnings(env, names, d);
    } else {
      DivesWarnSeparately(env, names, AfterDive(env, names, d, dives[0]), dives[1..]);
      OneDiveWarns(env, names, d, dives);
    }
  }

  lemma NoDivesNoWarnings(env: Env, names: Names, d: Draft)
    ensures |DetailsWarnings(env, names, d.components, AllDetails([]))| == 0
    ensures |Relationships(env, names, d.relationships, d.seen, AllRelationships([])).warned| == 0
    ensures |Flows(env, names, d.flows, AllFlows([])).warned| == 0
  {
  }

  /** How many warnings the dives from `d` on give, taken list by list. */
  function WarnedByLists(env: Env, names: Names, d: Draft, dives: seq<RawDeepDive>): nat {
    |DetailsWarnings(env, names, d.components, AllDetails(dives))|
    + |Relationships(env, names, d.relationships, d.seen, AllRelationships(dives)).warned|
    + |Flows(env, names, d.flows, AllFlows(dives)).warned|
  }

  lemma OneDiveWarns(env: Env, names: Names, d: Draft, dives: seq<RawDeepDive>)
    requires dives != []
    ensures WarnedByLists(env, names, d, dives)
         == |DiveWarnings(env, names, d, dives[0])|
            + WarnedByLists(env, names, AfterDive(env, names, d, dives[0]), dives[1..])
  {
    hide DetailsWarnings, Relationships, SeenAfter, Limited, MergedAll;
    var dive, rest := dives[0], dives[1..];
    DetailsWarningsConcat(env, names, d.components, dive.components, AllDetails(rest));
    RelationshipsConcat(env, names, d.relationships, d.seen, dive.relationships, AllRelationships(rest));
    LimitedConcat(FlowOf(env, names), FlowWarning, d.flows, MAX_FLOWS, dive.flows, AllFlows(rest));
  }

  /** The survey's components carry nothing yet. */
  lemma {:induction false} SurveyIsBare(env: Env, raws: seq<RawComponent>)
    ensures Weight(SurveyedAll(env, raws).components) == 0
    ensures forall i :: 0 <= i < |SurveyedAll(env, raws).components| ==>
              SurveyedAll(env, raws).components[i].interfaces == [] && SurveyedAll(env, raws).components[i].concerns == []
  {
    hide Surveyed;
    if raws != [] {
      SurveyIsBare(env, raws[..|raws| - 1]);
      SurveyedAddsBare(env, SurveyedAll(env, raws[..|raws| - 1]), raws[|raws| - 1]);
    }
  }

  lemma SurveyedAddsBare(env: Env, s: Skeleton, raw: RawComponent)
    ensures var t := Surveyed(env, s, raw);
            || t.components == s.components
            || (|t.components| == |s.components| + 1 && t.components[..|s.components|] == s.components
                && t.components[|s.components|].interfaces == [] && t.components[|s.components|].concerns == [])
  {
    hide Clipped, NormalizedName, ValidRoots, Take;
  }

  /** Every submitted item is held by the map, warned about or passed over in silence. */
  lemma EveryItemIsAccountedFor(
      env: Env, header: Header, survey: RawSurvey, dives: seq<RawDeepDive>, m: CodebaseMap)
    requires Stands(env, header, survey, dives, m)
    ensures Submitted(env, survey, dives)
         == Held(m) + KnownDetails(env, SkeletonOf(env, survey).names, AllDetails(dives))
            + |Warnings(env, survey, dives)| + Silent(env, survey, dives)
  {
    var s, names := SkeletonOf(env, survey), SkeletonOf(env, survey).names;
    ComponentsAreAccountedFor(env, survey, dives, m.components);
    ListsAreAccountedFor(env, survey);
    RelationshipsMean(env, names, 0, {}, AllRelationships(dives));
    LimitedMeans(FlowOf(env, names), FlowWarning, 0, MAX_FLOWS, AllFlows(dives));
    StepsAreAccountedFor(env, names, 0, AllFlows(dives));
    DivesWarnSeparately(env, names, Draft(s.components, 0, {}, 0), dives);
    hide SurveyedAll, MergedAll, Relationships, Limited, Filtered, Refused, Weight, StepCount, DivesWarnings,
         DetailsWarnings, SilentInDetails, LostSteps, StepsOfKept, ItemsOfDetails, KnownDetails, AllDetails,
         AllRelationships, AllFlows, Fits, RelationshipsFit, NoRepeats, Take, Clipped, RelationshipsFrom;
  }

  lemma ComponentsAreAccountedFor(env: Env, survey: RawSurvey, dives: seq<RawDeepDive>, cs: seq<Component>)
    requires var s := SkeletonOf(env, survey); cs == MergedAll(env, s.names, s.components, AllDetails(dives))
    ensures var s, ds := SkeletonOf(env, survey), AllDetails(dives);
            && |cs| == |s.components|
            && |survey.components| == |s.components| + |s.warnings| + Excess(|survey.components|, MAX_COMPONENTS)
            && ItemsOfDetails(env, s.names, ds)
               == KnownDetails(env, s.names, ds) + Weight(cs) + |DetailsWarnings(env, s.names, s.components, ds)|
                  + SilentInDetails(env, s.names, s.components, ds)
  {
    var taken, s, ds := Take(survey.components, MAX_COMPONENTS), SkeletonOf(env, survey), AllDetails(dives);
    hide SurveyedAll, MergedAll, Indexed, SoundComponents, Weight, ItemsOfDetails, KnownDetails, SilentInDetails,
         DetailsWarnings, AllDetails, Resolves;
    SurveyIsIndexed(env, taken);
    SurveyIsBare(env, taken);
    IndexResolves(env, s);
    DetailsAreAccountedFor(env, s.names, s.components, ds);
    MergedKeepsSkeleton(env, s.names, s.components, ds);
  }

  lemma {:induction false} MergedKeepsSkeleton(env: Env, names: Names, cs: seq<Component>, ds: seq<RawDetail>)
    requires SoundComponents(cs)
    ensures SameSkeleton(cs, MergedAll(env, names, cs, ds)) && |MergedAll(env, names, cs, ds)| == |cs|
    decreases |ds|
  {
    hide MergedOne, SoundComponents;
    if ds != [] {
      MergedOneIsSound(env, names, cs, ds[0]);
      MergedKeepsSkeleton(env, names, MergedOne(env, names, cs, ds[0]), ds[1..]);
    }
  }

  lemma ListsAreAccountedFor(env: Env, survey: RawSurvey)
    ensures var names := SkeletonOf(env, survey).names;
            var ts, es := Take(survey.technologies, MAX_TECHNOLOGIES), Take(survey.entryPoints, MAX_ENTRY_POINTS);
            && |survey.technologies|
               == |Filtered(TechnologyOf(env), 0, ts)| + |Refused(TechnologyOf(env), TechnologyWarning, 0, ts)|
                  + Excess(|survey.technologies|, MAX_TECHNOLOGIES)
            && |survey.entryPoints|
               == |Filtered(EntryPointOf(env, names), 0, es)|
                  + |Refused(EntryPointOf(env, names), EntryPointWarning(env, names), 0, es)|
                  + Excess(|survey.entryPoints|, MAX_ENTRY_POINTS)
  {
    var names := SkeletonOf(env, survey).names;
    hide Filtered, Refused, SkeletonOf, TechnologyOf, EntryPointOf, EntryPointWarning;
    KeptOrRefused(TechnologyOf(env), TechnologyWarning, 0, Take(survey.technologies, MAX_TECHNOLOGIES));
    KeptOrRefused(EntryPointOf(env, names), EntryPointWarning(env, names), 0, Take(survey.entryPoints, MAX_ENTRY_POINTS));
  }

  /** For every component, what all details submit for it stays within the caps. */
  ghost predicate DetailsFit(env: Env, names: Names, ds: seq<RawDetail>) {
    forall id :: id in names.Values ==>
      && Fits(InterfaceOf(env), 0, MAX_INTERFACES, InterfacesFor(env, names, id, ds))
      && Fits(ConcernOf(env), 0, MAX_CONCERNS, ConcernsFor(env, names, id, ds))
  }

  /** No list runs past its cap, no resolvable relationship repeats, and no kept flow loses a step. */
  ghost predicate Unabridged(env: Env, survey: RawSurvey, dives: seq<RawDeepDive>) {
    var names, ds := SkeletonOf(env, survey).names, AllDetails(dives);
    && |survey.components| <= MAX_COMPONENTS
    && |survey.technologies| <= MAX_TECHNOLOGIES
    && |survey.entryPoints| <= MAX_ENTRY_POINTS
    && DetailsFit(env, names, ds)
    && RelationshipsFit(env, names, 0, {}, AllRelationships(dives))
    && NoRepeats(env, names, {}, AllRelationships(dives))
    && Fits(FlowOf(env, names), 0, MAX_FLOWS, AllFlows(dives))
    && FlowsPass(env, names, AllFlows(dives))
  }

  lemma BareRoom(env: Env, survey: RawSurvey, ds: seq<RawDetail>)
    ensures var s := SkeletonOf(env, survey);
            RoomForAll(env, s.names, s.components, ds) <==> DetailsFit(env, s.names, ds)
  {
    var taken, s := Take(survey.components, MAX_COMPONENTS), SkeletonOf(env, survey);
    hide SurveyedAll, RoomFor, SoundComponents, NormalizedName, Indexed, FindById, DetailsFit, RoomForAll, Fits;
    SurveyIsIndexed(env, taken);
    SurveyIsBare(env, taken);
    IndexResolves(env, s);
    BareRoomIff(env, s.names, s.components, ds);
  }

  lemma BareRoomIff(env: Env, names: Names, cs: seq<Component>, ds: seq<RawDetail>)
    requires Resolves(env, names, cs)
    requires forall i :: 0 <= i < |cs| ==> cs[i].interfaces == [] && cs[i].concerns == []
    ensures RoomForAll(env, names, cs, ds) <==> DetailsFit(env, names, ds)
  {
    hide NormalizedName, Fits, FindById, InterfacesFor, ConcernsFor;
    forall id | id in names.Values ensures FindById(cs, id).Some? {
      var n :| n in names && names[n] == id;
      assert Leads(env, cs, n, id);
      assert HasId(cs, id);
    }
  }

  /** Every dropped item is named in a warning exactly when the submission is unabridged. */
  lemma NothingIsSilentIff(env: Env, survey: RawSurvey, dives: seq<RawDeepDive>)
    ensures Silent(env, survey, dives) == 0 <==> Unabridged(env, survey, dives)
  {
    var s, names, ds := SkeletonOf(env, survey), SkeletonOf(env, survey).names, AllDetails(dives);
    SurveyIsIndexed(env, Take(survey.components, MAX_COMPONENTS));
    hide SurveyedAll, Indexed, SoundComponents, SilentInDetails, RoomForAll, Relationships, RelationshipsFit, NoRepeats,
         Limited, Fits, LostSteps, FlowsPass, AllDetails, AllRelationships, AllFlows, DetailsFit, Filtered, Resolves,
         Take, RelationshipsFrom, FlowOf;
    IndexResolves(env, s);
    DetailsPassIff(env, names, s.components, ds);
    BareRoom(env, survey, ds);
    RelationshipsMean(env, names, 0, {}, AllRelationships(dives));
    LimitedMeans(FlowOf(env, names), FlowWarning, 0, MAX_FLOWS, AllFlows(dives));
    if Flows(env, names, 0, AllFlows(dives)).silent == [] {
      NoStepLostIff(env, names, 0, AllFlows(dives));
    }
  }

  // A submission in which an item vanishes: the same relationship twice.

  const REFERENCE := EvidenceRef("r", "c", "b", "a", 1, 1, "h")

  /** Everything binds, and a component is its name. */
  const PLAIN := Env((raws: seq<RawEvidence>) => [REFERENCE], (s: string) => s, (r: string, n: string) => n, {"r"})

  const LOOP := RawRelationship("a", "a", Calls, "", [])
  const ONE := RawSurvey("", "", [], [RawComponent("a", Library, "r", ["a"], "", [])], [])
  const TWICE := [RawDeepDive([], [LOOP, LOOP], [])]

  lemma LetterIsClipped(maximum: nat)
    requires maximum > 0
    ensures Clipped("a", maximum) == "a" && Clipped("", maximum) == ""
    ensures NormalizedName(PLAIN, "a") == "a" && RelativePath("a")
  {
    assert "a"[1..] == "" && "a"[..1] == "a";
    assert WordLength("") == 0 && WordLength("a") == 1 + WordLength("a"[1..]);
    assert !IsWhitespace("a"[0]);
    assert Words("a") == ["a"[..WordLength("a")]] + Words("a"[WordLength("a")..]);
    assert Words("a") == ["a"];
    assert OneLine("a") == "a" && OneLine("") == "";
    assert TrimStart("a", IsWhitespace) == "a" && TrimEnd("a", IsWhitespace) == "a";
    assert PartLength("a") == 1 + PartLength("");
    assert Parts("a") == ["a"];
    assert |"a"| == 1 && |".."| == 2;
  }

  lemma ExampleSkeleton()
    ensures var s := SkeletonOf(PLAIN, ONE);
            |s.components| == 1 && s.names == map["a" := "a"] && s.warnings == []
  {
    LetterIsClipped(120);
    LetterIsClipped(240);
    LetterIsClipped(480);
    hide Clipped, NormalizedName, RelativePath;
    var raw := ONE.components[0];
    assert ["a"][1..] == [];
    assert ValidRoots([]) == [];
    assert ValidRoots(["a"]) == ["a"];
    var nothing := Skeleton([], map[], []);
    assert ONE.components[..0] == [];
    assert SurveyedAll(PLAIN, []) == nothing;
    assert SurveyedAll(PLAIN, ONE.components) == Surveyed(PLAIN, nothing, raw);
  }

  /** Two relationships are submitted, the map holds one, nothing is warned about: one passed in silence. */
  lemma AnItemVanishes(header: Header, m: CodebaseMap)
    requires Stands(PLAIN, header, ONE, TWICE, m)
    ensures |AllRelationships(TWICE)| == 2 && |m.relationships| == 1
    ensures Warnings(PLAIN, ONE, TWICE) == [] && Silent(PLAIN, ONE, TWICE) == 1 && !Unabridged(PLAIN, ONE, TWICE)
  {
    ExampleSkeleton();
    LetterIsClipped(60);
    LetterIsClipped(240);
    var names := SkeletonOf(PLAIN, ONE).names;
    hide SkeletonOf, Clipped, NormalizedName, Decimal;
    assert TWICE[1..] == [] && [LOOP, LOOP][1..] == [LOOP] && [LOOP][1..] == [];
    assert AllRelationships(TWICE) == [LOOP, LOOP] && AllDetails(TWICE) == [] && AllFlows(TWICE) == [];
    var key := ("a", "a", Calls);
    assert KeyFor(PLAIN, names, LOOP) == Some(key);
    assert {} + {key} == {key};
    assert Relationships(PLAIN, names, 1, {key}, []) == Account([], [], []);
    assert NextSeen(PLAIN, names, {key}, LOOP) == {key};
    assert Relationships(PLAIN, names, 1, {key}, [LOOP]) == Account([], [], [LOOP]);
    var all := Relationships(PLAIN, names, 0, {}, [LOOP, LOOP]);
    assert all == Pushed(PLAIN, names, 0, {}, LOOP, Account([], [], [LOOP]));
    assert |all.kept| == 1 && all.warned == [] && |all.silent| == 1;
    DivesWarnSeparately(PLAIN, names, Draft(SkeletonOf(PLAIN, ONE).components, 0, {}, 0), TWICE);
    NothingIsSilentIff(PLAIN, ONE, TWICE);
  }
}
