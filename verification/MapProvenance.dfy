/**
 Where everything in a map comes from: each item is tied, field by field, to the submitted item it was made
 of, and every submitted item that qualifies is there.
 */
module MapProvenance {
  import opened Common
  import opened Model
  import opened Text
  import opened Maps
  import opened Clipping
  import opened Sections
  import opened MapBuild
  import opened MapAccount

  /** The id that a submitted component name stands for. */
  predicate NameIs(env: Env, names: Names, name: string, id: string) {
    NormalizedName(env, name) in names && names[NormalizedName(env, name)] == id
  }

  /** Names are compared without surrounding whitespace and without case. */
  lemma NameIsTrimmedAndLowered(env: Env, s: string)
    ensures NormalizedName(env, s) == env.lower(TrimMatches(s, IsWhitespace))
  {
  }

  // Technologies.

  /** A technology is there exactly for every submitted one whose citations bind. */
  lemma TechnologiesComeFrom(env: Env, raws: seq<RawTechnology>)
    ensures forall t :: t in Filtered(TechnologyOf(env), 0, raws) <==>
              exists raw :: raw in raws && env.bind(raw.evidence) != []
                            && t == Technology(Clipped(raw.name, 60), Clipped(raw.role, 240), env.bind(raw.evidence))
  {
    hide Clipped, Filtered;
    var f := TechnologyOf(env);
    KeptIff(f, 0, raws);
    forall t | t in Filtered(f, 0, raws)
      ensures exists raw :: raw in raws && env.bind(raw.evidence) != []
                            && t == Technology(Clipped(raw.name, 60), Clipped(raw.role, 240), env.bind(raw.evidence))
    {
      var raw, k: nat :| raw in raws && f(k, raw) == Some(t);
    }
    forall raw | raw in raws && env.bind(raw.evidence) != []
      ensures Technology(Clipped(raw.name, 60), Clipped(raw.role, 240), env.bind(raw.evidence)) in Filtered(f, 0, raws)
    {
      assert forall k: nat :: f(k, raw).Some?;
      var k: nat :| f(k, raw).Some? && f(k, raw).value in Filtered(f, 0, raws);
    }
  }

  // Entry points.

  ghost predicate EntryFrom(env: Env, names: Names, raw: RawEntryPoint, e: EntryPoint) {
    && e.name == Clipped(raw.name, 120) && e.kind == raw.kind && NameIs(env, names, raw.componentName, e.componentId)
    && e.evidence == env.bind(raw.evidence) && e.evidence != []
  }

  lemma EntryPointComesFrom(env: Env, names: Names, n: nat, raw: RawEntryPoint)
    ensures EntryPointOf(env, names)(n, raw).Some?
            <==> NormalizedName(env, raw.componentName) in names && env.bind(raw.evidence) != []
    ensures EntryPointOf(env, names)(n, raw).Some? ==> EntryFrom(env, names, raw, EntryPointOf(env, names)(n, raw).value)
  {
    hide Clipped, NormalizedName, Decimal;
  }

  lemma EntryPointsComeFrom(env: Env, names: Names, raws: seq<RawEntryPoint>)
    ensures var es := Filtered(EntryPointOf(env, names), 0, raws);
            && (forall e :: e in es ==> exists raw :: raw in raws && EntryFrom(env, names, raw, e))
            && forall raw :: raw in raws && NormalizedName(env, raw.componentName) in names && env.bind(raw.evidence) != []
                             ==> exists e :: e in es && EntryFrom(env, names, raw, e)
  {
    hide Filtered, NormalizedName, EntryPointOf, EntryFrom;
    var f := EntryPointOf(env, names);
    var es := Filtered(f, 0, raws);
    KeptIff(f, 0, raws);
    forall n: nat, raw
      ensures f(n, raw).Some? <==> NormalizedName(env, raw.componentName) in names && env.bind(raw.evidence) != []
      ensures f(n, raw).Some? ==> EntryFrom(env, names, raw, f(n, raw).value)
    {
      EntryPointComesFrom(env, names, n, raw);
    }
    forall e | e in es ensures exists raw :: raw in raws && EntryFrom(env, names, raw, e) {
      var raw, k: nat :| raw in raws && f(k, raw) == Some(e);
      assert EntryFrom(env, names, raw, e);
    }
    forall raw | raw in raws && NormalizedName(env, raw.componentName) in names && env.bind(raw.evidence) != []
      ensures exists e :: e in es && EntryFrom(env, names, raw, e)
    {
      var k: nat :| f(k, raw).Some? && f(k, raw).value in es;
      assert EntryFrom(env, names, raw, f(k, raw).value);
    }
  }

  // Relationships.

  ghost predicate RelationshipFrom(env: Env, names: Names, raw: RawRelationship, r: Relationship) {
    && NameIs(env, names, raw.from, r.from) && NameIs(env, names, raw.to, r.to) && r.kind == raw.kind
    && r.description == Clipped(raw.description, 240) && r.evidence == env.bind(raw.evidence) && r.evidence != []
  }

  /** The key of a submitted relationship is `key`. */
  ghost predicate HasKey(env: Env, names: Names, raw: RawRelationship, key: RelationshipKey) {
    NameIs(env, names, raw.from, key.0) && NameIs(env, names, raw.to, key.1) && raw.kind == key.2
  }

  lemma KeptRelationshipComesFrom(env: Env, names: Names, n: nat, seen: set<RelationshipKey>, raw: RawRelationship)
    ensures Keeps(env, names, seen, raw) ==>
              && KeyFor(env, names, raw).Some?
              && RelationshipFrom(env, names, raw, RelationshipOf(env, n, KeyFor(env, names, raw).value, raw))
    ensures forall key :: HasKey(env, names, raw, key) ==>
              && KeyFor(env, names, raw) == Some(key)
              && (Keeps(env, names, seen, raw) <==> key !in seen && env.bind(raw.evidence) != [])
              && NextSeen(env, names, seen, raw) == seen + {key}
    ensures (forall key :: !HasKey(env, names, raw, key)) ==> NextSeen(env, names, seen, raw) == seen
  {
    hide Clipped, NormalizedName, Decimal;
    var from, to := NormalizedName(env, raw.from), NormalizedName(env, raw.to);
    if from in names && to in names {
      assert HasKey(env, names, raw, (names[from], names[to], raw.kind));
    }
  }

  /** Every kept relationship runs between the components its submission names, in that direction. */
  lemma {:induction false} RelationshipsComeFrom(
      env: Env, names: Names, n: nat, seen: set<RelationshipKey>, raws: seq<RawRelationship>)
    ensures forall r :: r in RelationshipsFrom(env, names, n, seen, raws) ==>
              exists raw :: raw in raws && RelationshipFrom(env, names, raw, r)
    decreases |raws|
  {
    hide Keeps, NextSeen, RelationshipFrom, RelationshipOf, KeyFor;
    if raws != [] {
      var rest := raws[1..];
      assert forall raw :: raw in rest ==> raw in raws;
      KeptRelationshipComesFrom(env, names, n, seen, raws[0]);
      RelationshipsComeFrom(env, names, NextCount(env, names, n, seen, raws[0]), NextSeen(env, names, seen, raws[0]), rest);
      assert raws[0] in raws;
    }
  }

  /** The first submission of a key is kept if its citations bind. */
  lemma {:induction false} FirstOfKeyIsKept(
      env: Env, names: Names, n: nat, seen: set<RelationshipKey>, raws: seq<RawRelationship>, i: nat,
      key: RelationshipKey)
    requires i < |raws| && HasKey(env, names, raws[i], key) && key !in seen && env.bind(raws[i].evidence) != []
    requires forall j :: 0 <= j < i ==> !HasKey(env, names, raws[j], key)
    ensures exists r :: r in RelationshipsFrom(env, names, n, seen, raws) && RelationshipFrom(env, names, raws[i], r)
    decreases |raws|
  {
    hide Keeps, NextSeen, RelationshipFrom, RelationshipOf, KeyFor, HasKey;
    var all := RelationshipsFrom(env, names, n, seen, raws);
    KeptRelationshipComesFrom(env, names, n, seen, raws[0]);
    if i == 0 {
      assert all[0] in all;
    } else {
      var rest, more := raws[1..], NextCount(env, names, n, seen, raws[0]);
      var taken := NextSeen(env, names, seen, raws[0]);
      assert key !in taken;
      assert forall j :: 0 <= j < i - 1 ==> rest[j] == raws[j + 1];
      FirstOfKeyIsKept(env, names, more, taken, rest, i - 1, key);
      var r :| r in RelationshipsFrom(env, names, more, taken, rest) && RelationshipFrom(env, names, rest[i - 1], r);
      assert r in all;
    }
  }

  // Flows.

  ghost predicate StepFrom(env: Env, names: Names, raw: RawStep, s: FlowStep) {
    NameIs(env, names, raw.componentName, s.componentId) && s.action == Clipped(raw.action, 200)
    && s.evidence == env.bind(raw.evidence)
  }

  /** The steps kept, in order: exactly those whose component is known. */
  ghost predicate StepsInOrder(env: Env, names: Names, raws: seq<RawStep>, steps: seq<FlowStep>, from: seq<nat>) {
    && |from| == |steps|
    && (forall i :: 0 <= i < |from| ==> from[i] < |raws| && StepFrom(env, names, raws[from[i]], steps[i]))
    && (forall i, j :: 0 <= i < j < |from| ==> from[i] < from[j])
    && forall j :: 0 <= j < |raws| && NormalizedName(env, raws[j].componentName) in names ==> j in from
  }

  function StepOf(env: Env, names: Names): Keeper<RawStep, FlowStep> {
    (n: nat, raw: RawStep) =>
      var key := NormalizedName(env, raw.componentName);
      if key !in names then None else Some(FlowStep(names[key], Clipped(raw.action, 200), env.bind(raw.evidence)))
  }

  lemma {:induction false} StepsAreFiltered(env: Env, names: Names, n: nat, raws: seq<RawStep>)
    ensures StepsFrom(env, names, raws) == Filtered(StepOf(env, names), n, raws)
    decreases |raws|
  {
    hide Clipped, NormalizedName;
    if raws != [] {
      StepsAreFiltered(env, names, n, raws[1..]);
      StepsAreFiltered(env, names, n + 1, raws[1..]);
    }
  }

  lemma StepsComeFrom(env: Env, names: Names, raws: seq<RawStep>) returns (from: seq<nat>)
    ensures StepsInOrder(env, names, raws, StepsFrom(env, names, raws), from)
  {
    hide Clipped, NormalizedName, StepsFrom, Filtered;
    from := KeptInOrder(StepOf(env, names), 0, raws);
    StepsAreFiltered(env, names, 0, raws);
  }

  ghost predicate FlowFrom(env: Env, names: Names, raw: RawFlow, f: Flow) {
    && f.name == Clipped(raw.name, 120) && f.description == Clipped(raw.description, 480)
    && exists from :: StepsInOrder(env, names, Take(raw.steps, 10), f.steps, from)
  }

  predicate KnownStep(env: Env, names: Names, raw: RawFlow, i: int) {
    0 <= i < |raw.steps| && i < 10 && NormalizedName(env, raw.steps[i].componentName) in names
  }

  /** Two of the first ten steps are of known components, and one such step has citations that bind. */
  ghost predicate Qualifies(env: Env, names: Names, raw: RawFlow) {
    && (exists i, j :: i < j && KnownStep(env, names, raw, i) && KnownStep(env, names, raw, j))
    && exists i :: KnownStep(env, names, raw, i) && env.bind(raw.steps[i].evidence) != []
  }

  lemma FlowComesFrom(env: Env, names: Names, n: nat, raw: RawFlow)
    ensures FlowOf(env, names)(n, raw).Some? <==> Qualifies(env, names, raw)
    ensures FlowOf(env, names)(n, raw).Some? ==> FlowFrom(env, names, raw, FlowOf(env, names)(n, raw).value)
  {
    hide Clipped, NormalizedName, Decimal, StepsFrom;
    var raws := Take(raw.steps, 10);
    var steps := StepsFrom(env, names, raws);
    var from := StepsComeFrom(env, names, raws);
    TwoKnownIff(env, names, raw, steps, from);
    SomeBoundIff(env, names, raw, steps, from);
  }

  lemma TwoKnownIff(env: Env, names: Names, raw: RawFlow, steps: seq<FlowStep>, from: seq<nat>)
    requires StepsInOrder(env, names, Take(raw.steps, 10), steps, from)
    ensures |steps| >= 2 <==> exists i, j :: i < j && KnownStep(env, names, raw, i) && KnownStep(env, names, raw, j)
  {
    hide Clipped, NormalizedName;
    var raws := Take(raw.steps, 10);
    if |steps| >= 2 {
      assert from[0] < from[1] && KnownStep(env, names, raw, from[0]) && KnownStep(env, names, raw, from[1]);
    }
    if i, j :| i < j && KnownStep(env, names, raw, i) && KnownStep(env, names, raw, j) {
      assert raws[i] == raw.steps[i] && raws[j] == raw.steps[j];
      assert i in from && j in from;
    }
  }

  lemma SomeBoundIff(env: Env, names: Names, raw: RawFlow, steps: seq<FlowStep>, from: seq<nat>)
    requires StepsInOrder(env, names, Take(raw.steps, 10), steps, from)
    ensures SomeEvidence(steps)
            <==> exists i :: KnownStep(env, names, raw, i) && env.bind(raw.steps[i].evidence) != []
  {
    hide Clipped, NormalizedName;
    var raws := Take(raw.steps, 10);
    if SomeEvidence(steps) {
      var i :| 0 <= i < |steps| && steps[i].evidence != [];
      assert KnownStep(env, names, raw, from[i]) && raws[from[i]] == raw.steps[from[i]];
    }
    if i :| KnownStep(env, names, raw, i) && env.bind(raw.steps[i].evidence) != [] {
      assert raws[i] == raw.steps[i] && i in from;
      var k :| 0 <= k < |from| && from[k] == i;
      assert steps[k].evidence != [];
    }
  }

  lemma FlowsComeFrom(env: Env, names: Names, raws: seq<RawFlow>)
    ensures var fs := Filtered(FlowOf(env, names), 0, raws);
            && (forall f :: f in fs ==> exists raw :: raw in raws && FlowFrom(env, names, raw, f))
            && forall raw :: raw in raws && Qualifies(env, names, raw)
                             ==> exists f :: f in fs && FlowFrom(env, names, raw, f)
  {
    hide Filtered, FlowFrom, Qualifies, FlowOf;
    var f := FlowOf(env, names);
    var fs := Filtered(f, 0, raws);
    KeptIff(f, 0, raws);
    forall n: nat, raw
      ensures f(n, raw).Some? <==> Qualifies(env, names, raw)
      ensures f(n, raw).Some? ==> FlowFrom(env, names, raw, f(n, raw).value)
    {
      FlowComesFrom(env, names, n, raw);
    }
    forall x | x in fs ensures exists raw :: raw in raws && FlowFrom(env, names, raw, x) {
      var raw, k: nat :| raw in raws && f(k, raw) == Some(x);
      assert FlowFrom(env, names, raw, x);
    }
    forall raw | raw in raws && Qualifies(env, names, raw) ensures exists x :: x in fs && FlowFrom(env, names, raw, x) {
      var k: nat :| f(k, raw).Some? && f(k, raw).value in fs;
      assert FlowFrom(env, names, raw, f(k, raw).value);
    }
  }

  // Components and their details.

  ghost predicate ComponentFrom(env: Env, raw: RawComponent, c: Component) {
    && c.name == Clipped(raw.name, 120) && c.id == env.componentId(raw.repositoryId, c.name) && c.kind == raw.kind
    && c.repositoryId == raw.repositoryId && raw.repositoryId in env.repositories
    && c.responsibility == Clipped(raw.responsibility, 480)
    && env.bind(raw.evidence) != [] && env.bind(raw.evidence) <= c.evidence
    && c.rootPaths == Take(ValidRoots(raw.rootPaths), 8)
  }

  /** The roots kept are the submitted ones that are relative, clipped and in order. */
  lemma {:induction false} RootsComeFrom(paths: seq<string>, p: string)
    ensures p in ValidRoots(paths) <==> RelativePath(p) && exists q :: q in paths && p == Clipped(q, 240)
  {
    hide Clipped, RelativePath;
    if paths != [] {
      RootsComeFrom(paths[1..], p);
      assert paths == [paths[0]] + paths[1..];
    }
  }

  /** Parts of a path lie between slashes. */
  lemma PartsMean(part: string, rest: string)
    requires '/' !in part
    ensures Parts(part) == [part] && Parts(part + "/" + rest) == [part] + Parts(rest)
  {
    PartLengthIs(part, |part|);
    var path := part + "/" + rest;
    assert path[..|part|] == part && path[|part| + 1..] == rest;
    PartLengthIs(path, |part|);
  }

  lemma {:induction false} PartLengthIs(s: string, n: nat)
    requires n <= |s| && '/' !in s[..n] && (n < |s| ==> s[n] == '/')
    ensures PartLength(s) == n
  {
    if n > 0 {
      assert s[0] == s[..n][0] && s[1..][..n - 1] == s[..n][1..];
      PartLengthIs(s[1..], n - 1);
    }
  }

  /** A surveyed component is kept exactly when it is named, known, new, cited and rooted. */
  lemma SurveyedIff(env: Env, s: Skeleton, raw: RawComponent)
    ensures var name, t := Clipped(raw.name, 120), Surveyed(env, s, raw);
            if Presentable(env, raw) && NormalizedName(env, name) !in s.names then
              && |t.components| == |s.components| + 1 && t.components[..|s.components|] == s.components
              && ComponentFrom(env, raw, t.components[|s.components|])
              && t.components[|s.components|].evidence == env.bind(raw.evidence)
              && t.components[|s.components|].interfaces == [] && t.components[|s.components|].concerns == []
              && t.names == s.names[NormalizedName(env, name) := t.components[|s.components|].id]
              && t.warnings == s.warnings
            else
              && t.components == s.components && t.names == s.names
              && t.warnings == s.warnings + [
                   if name == "" then UnnamedComponent
                   else if raw.repositoryId !in env.repositories then UnknownRepository(name)
                   else if NormalizedName(env, name) in s.names then DuplicateComponent(name)
                   else if env.bind(raw.evidence) == [] then UnboundComponent(name)
                   else NoRootPaths(name)]
  {
    hide Clipped, NormalizedName, ValidRoots;
  }

  /** The submission could be a component: named, of a known repository, cited and rooted. */
  predicate Presentable(env: Env, raw: RawComponent) {
    && Clipped(raw.name, 120) != "" && raw.repositoryId in env.repositories
    && env.bind(raw.evidence) != [] && ValidRoots(raw.rootPaths) != []
  }

  /** `from` says which submission each component comes from, in order; every presentable name is indexed. */
  ghost predicate ComponentsInOrder(env: Env, raws: seq<RawComponent>, s: Skeleton, from: seq<nat>) {
    && |from| == |s.components|
    && (forall i :: 0 <= i < |from| ==>
          && from[i] < |raws| && Presentable(env, raws[from[i]]) && ComponentFrom(env, raws[from[i]], s.components[i])
          && s.components[i].evidence == env.bind(raws[from[i]].evidence)
          && s.components[i].interfaces == [] && s.components[i].concerns == [])
    && (forall i, j :: 0 <= i < j < |from| ==> from[i] < from[j])
    && forall j :: 0 <= j < |raws| && Presentable(env, raws[j]) ==>
         NormalizedName(env, Clipped(raws[j].name, 120)) in s.names
  }

  lemma SurveyedInOrder(env: Env, raws: seq<RawComponent>, s: Skeleton, raw: RawComponent, from: seq<nat>)
      returns (more: seq<nat>)
    requires ComponentsInOrder(env, raws, s, from)
    ensures ComponentsInOrder(env, raws + [raw], Surveyed(env, s, raw), more)
  {
    hide Clipped, NormalizedName, ValidRoots, Surveyed, ComponentFrom;
    SurveyedIff(env, s, raw);
    var t := Surveyed(env, s, raw);
    more := from;
    if |t.components| == |s.components| + 1 {
      more := from + [|raws|];
      assert forall i :: 0 <= i < |s.components| ==> t.components[i] == t.components[..|s.components|][i];
    }
  }

  lemma {:induction false} ComponentsComeFrom(env: Env, raws: seq<RawComponent>) returns (from: seq<nat>)
    ensures ComponentsInOrder(env, raws, SurveyedAll(env, raws), from)
  {
    if raws == [] {
      from := [];
    } else {
      hide Surveyed, ComponentsInOrder;
      var init, last := raws[..|raws| - 1], raws[|raws| - 1];
      assert raws == init + [last];
      var before := ComponentsComeFrom(env, init);
      from := SurveyedInOrder(env, init, SurveyedAll(env, init), last, before);
    }
  }

  ghost predicate InterfaceFrom(env: Env, raw: RawInterface, x: Interface) {
    && x.name == Clipped(raw.name, 120) && x.description == Clipped(raw.description, 240)
    && x.evidence == env.bind(raw.evidence) && x.evidence != []
  }

  ghost predicate ConcernFrom(env: Env, raw: RawConcern, x: Concern) {
    x.summary == Clipped(raw.summary, 240) && x.evidence == env.bind(raw.evidence) && x.evidence != []
  }

  /** An interface or a concern is kept exactly when its citations bind and there is room. */
  lemma DetailItemsComeFrom(env: Env, n: nat, raw: RawInterface, concern: RawConcern)
    ensures InterfaceOf(env)(n, raw).Some? <==> env.bind(raw.evidence) != []
    ensures InterfaceOf(env)(n, raw).Some? ==> InterfaceFrom(env, raw, InterfaceOf(env)(n, raw).value)
    ensures ConcernOf(env)(n, concern).Some? <==> env.bind(concern.evidence) != []
    ensures ConcernOf(env)(n, concern).Some? ==> ConcernFrom(env, concern, ConcernOf(env)(n, concern).value)
  {
    hide Clipped;
  }

  /** The interface was submitted in a detail about the component. */
  ghost predicate InterfaceSubmitted(env: Env, names: Names, id: string, ds: seq<RawDetail>, x: Interface) {
    exists d, raw :: d in ds && NameIs(env, names, d.name, id) && raw in d.interfaces && InterfaceFrom(env, raw, x)
  }

  ghost predicate ConcernSubmitted(env: Env, names: Names, id: string, ds: seq<RawDetail>, x: Concern) {
    exists d, raw :: d in ds && NameIs(env, names, d.name, id) && raw in d.concerns && ConcernFrom(env, raw, x)
  }

  ghost predicate ReferenceSubmitted(env: Env, names: Names, id: string, ds: seq<RawDetail>, e: EvidenceRef) {
    exists d :: d in ds && NameIs(env, names, d.name, id) && e in env.bind(d.evidence)
  }

  /** `b` is `a` with interfaces, concerns and references added that the details submit for it. */
  ghost predicate Grown(env: Env, names: Names, ds: seq<RawDetail>, a: Component, b: Component) {
    && b == a.(interfaces := b.interfaces, concerns := b.concerns, evidence := b.evidence)
    && a.interfaces <= b.interfaces && a.concerns <= b.concerns && a.evidence <= b.evidence
    && (forall i :: |a.interfaces| <= i < |b.interfaces| ==> InterfaceSubmitted(env, names, a.id, ds, b.interfaces[i]))
    && (forall i :: |a.concerns| <= i < |b.concerns| ==> ConcernSubmitted(env, names, a.id, ds, b.concerns[i]))
    && forall i :: |a.evidence| <= i < |b.evidence| ==> ReferenceSubmitted(env, names, a.id, ds, b.evidence[i])
  }

  lemma MergedGrows(env: Env, names: Names, c: Component, d: RawDetail)
    requires NameIs(env, names, d.name, c.id)
    ensures Grown(env, names, [d], c, Merged(env, c, d))
  {
    hide Clipped, NormalizedName, Limited, InterfaceFrom, ConcernFrom, InterfaceOf, ConcernOf, WithEvidence, Fresh;
    var b := Merged(env, c, d);
    EvidenceIsMerged(c.evidence, env.bind(d.evidence));
    assert d in [d];
    LimitedIsPartly(InterfaceOf(env), InterfaceWarning(c.name), |c.interfaces|, MAX_INTERFACES, d.interfaces);
    LimitedIsPartly(ConcernOf(env), ConcernWarning(c.name), |c.concerns|, MAX_CONCERNS, d.concerns);
    var ix, cx := InterfaceAccount(env, |c.interfaces|, d.interfaces, c.name).kept,
                  ConcernAccount(env, |c.concerns|, d.concerns, c.name).kept;
    forall i | |c.interfaces| <= i < |b.interfaces| ensures InterfaceSubmitted(env, names, c.id, [d], b.interfaces[i]) {
      var x := b.interfaces[i];
      assert x == ix[i - |c.interfaces|] && x in ix;
      var raw, k: nat :| raw in d.interfaces && InterfaceOf(env)(k, raw) == Some(x);
      DetailItemsComeFrom(env, k, raw, RawConcern("", []));
    }
    forall i | |c.concerns| <= i < |b.concerns| ensures ConcernSubmitted(env, names, c.id, [d], b.concerns[i]) {
      var x := b.concerns[i];
      assert x == cx[i - |c.concerns|] && x in cx;
      var raw, k: nat :| raw in d.concerns && ConcernOf(env)(k, raw) == Some(x);
      DetailItemsComeFrom(env, k, RawInterface("", "", []), raw);
    }
  }

  lemma GrownWider(env: Env, names: Names, ds: seq<RawDetail>, more: seq<RawDetail>, a: Component, b: Component)
    requires Grown(env, names, ds, a, b) && forall d :: d in ds ==> d in more
    ensures Grown(env, names, more, a, b)
  {
    hide InterfaceFrom, ConcernFrom, NameIs;
  }

  lemma GrownOn(env: Env, names: Names, ds: seq<RawDetail>, a: Component, b: Component, c: Component)
    requires Grown(env, names, ds, a, b) && Grown(env, names, ds, b, c)
    ensures Grown(env, names, ds, a, c)
  {
    hide InterfaceSubmitted, ConcernSubmitted, ReferenceSubmitted;
  }

  lemma NotGrown(env: Env, names: Names, ds: seq<RawDetail>, c: Component)
    ensures Grown(env, names, ds, c, c)
  {
  }

  /** Details only add to the components they name, and only what they submit. */
  lemma {:induction false} DetailsComeFrom(env: Env, names: Names, cs: seq<Component>, ds: seq<RawDetail>)
    ensures |MergedAll(env, names, cs, ds)| == |cs|
    ensures forall i :: 0 <= i < |cs| ==> Grown(env, names, ds, cs[i], MergedAll(env, names, cs, ds)[i])
    decreases |ds|
  {
    hide Grown, Merged, NormalizedName;
    if ds == [] {
      forall i | 0 <= i < |cs| ensures Grown(env, names, ds, cs[i], cs[i]) { NotGrown(env, names, ds, cs[i]); }
    } else {
      var next, rest := MergedOne(env, names, cs, ds[0]), ds[1..];
      DetailsComeFrom(env, names, next, rest);
      var last := MergedAll(env, names, next, rest);
      forall i | 0 <= i < |cs| ensures Grown(env, names, ds, cs[i], last[i]) {
        if Target(env, names, cs, ds[0]) == Some(i) {
          MergedGrows(env, names, cs[i], ds[0]);
          GrownWider(env, names, [ds[0]], ds, cs[i], next[i]);
        } else {
          NotGrown(env, names, ds, cs[i]);
        }
        GrownWider(env, names, rest, ds, next[i], last[i]);
        GrownOn(env, names, ds, cs[i], next[i], last[i]);
      }
    }
  }

  // What details bring arrives, while there is room.

  ghost predicate Arrived(env: Env, c: Component, d: RawDetail) {
    && (forall raw :: raw in d.interfaces && env.bind(raw.evidence) != [] && |c.interfaces| < 6 ==>
          exists x :: x in c.interfaces && InterfaceFrom(env, raw, x))
    && (forall raw :: raw in d.concerns && env.bind(raw.evidence) != [] && |c.concerns| < 3 ==>
          exists x :: x in c.concerns && ConcernFrom(env, raw, x))
    && forall e :: e in env.bind(d.evidence) && |c.evidence| < 6 ==> e in c.evidence
  }

  lemma MergedArrives(env: Env, c: Component, d: RawDetail)
    requires SoundComponent(c)
    ensures Arrived(env, Merged(env, c, d), d)
  {
    hide InterfaceFrom, ConcernFrom, InterfaceAccount, ConcernAccount, WithEvidence, RelativePath;
    InterfacesArrive(env, c, d);
    ConcernsArrive(env, c, d);
    EvidenceIsMerged(c.evidence, env.bind(d.evidence));
  }

  lemma InterfacesArrive(env: Env, c: Component, d: RawDetail)
    requires |c.interfaces| <= 6
    ensures forall raw :: raw in d.interfaces && env.bind(raw.evidence) != [] && |Merged(env, c, d).interfaces| < 6 ==>
              exists x :: x in Merged(env, c, d).interfaces && InterfaceFrom(env, raw, x)
  {
    hide InterfaceFrom, InterfaceOf, ConcernOf, Filtered, Limited, WithEvidence;
    var f, n, b := InterfaceOf(env), |c.interfaces|, Merged(env, c, d).interfaces;
    LimitedMeans(f, InterfaceWarning(c.name), n, 6, d.interfaces);
    KeptIff(f, n, d.interfaces);
    forall raw | raw in d.interfaces && env.bind(raw.evidence) != [] && |b| < 6
      ensures exists x :: x in b && InterfaceFrom(env, raw, x)
    {
      forall k: nat ensures f(k, raw).Some? && InterfaceFrom(env, raw, f(k, raw).value) {
        DetailItemsComeFrom(env, k, raw, RawConcern("", []));
      }
      var k: nat :| f(k, raw).Some? && f(k, raw).value in Filtered(f, n, d.interfaces);
      assert f(k, raw).value in b;
    }
  }

  lemma ConcernsArrive(env: Env, c: Component, d: RawDetail)
    requires |c.concerns| <= 3
    ensures forall raw :: raw in d.concerns && env.bind(raw.evidence) != [] && |Merged(env, c, d).concerns| < 3 ==>
              exists x :: x in Merged(env, c, d).concerns && ConcernFrom(env, raw, x)
  {
    hide ConcernFrom, InterfaceOf, ConcernOf, Filtered, Limited, WithEvidence;
    var f, n, b := ConcernOf(env), |c.concerns|, Merged(env, c, d).concerns;
    LimitedMeans(f, ConcernWarning(c.name), n, 3, d.concerns);
    KeptIff(f, n, d.concerns);
    forall raw | raw in d.concerns && env.bind(raw.evidence) != [] && |b| < 3
      ensures exists x :: x in b && ConcernFrom(env, raw, x)
    {
      forall k: nat ensures f(k, raw).Some? && ConcernFrom(env, raw, f(k, raw).value) {
        DetailItemsComeFrom(env, k, RawInterface("", "", []), raw);
      }
      var k: nat :| f(k, raw).Some? && f(k, raw).value in Filtered(f, n, d.concerns);
      assert f(k, raw).value in b;
    }
  }

  lemma ArrivedStays(env: Env, names: Names, ds: seq<RawDetail>, a: Component, b: Component, d: RawDetail)
    requires Arrived(env, a, d) && Grown(env, names, ds, a, b)
    ensures Arrived(env, b, d)
  {
    hide InterfaceFrom, ConcernFrom, InterfaceSubmitted, ConcernSubmitted, ReferenceSubmitted;
    assert forall x :: x in a.interfaces ==> x in b.interfaces;
    assert forall x :: x in a.concerns ==> x in b.concerns;
  }

  /** A detail whose name is known brings all that binds to its component, until a list of it is full. */
  lemma {:induction false} DetailsArrive(
      env: Env, names: Names, cs: seq<Component>, ds: seq<RawDetail>, k: nat, i: nat)
    requires SoundComponents(cs) && k < |ds| && Target(env, names, cs, ds[k]) == Some(i)
    ensures |MergedAll(env, names, cs, ds)| == |cs| && Arrived(env, MergedAll(env, names, cs, ds)[i], ds[k])
    decreases k
  {
    hide SoundComponents, Arrived, Merged, NormalizedName, FindById;
    var next, rest := MergedOne(env, names, cs, ds[0]), ds[1..];
    MergedOneIsSound(env, names, cs, ds[0]);
    if k > 0 {
      FindByIdSame(cs, next, cs[i].id);
      assert rest[k - 1] == ds[k];
      DetailsArrive(env, names, next, rest, k - 1, i);
    } else {
      SoundAt(cs, i);
      MergedArrives(env, cs[i], ds[0]);
      DetailsComeFrom(env, names, next, rest);
      ArrivedStays(env, names, rest, next[i], MergedAll(env, names, next, rest)[i], ds[0]);
    }
  }

  lemma SoundAt(cs: seq<Component>, i: nat)
    requires SoundComponents(cs) && i < |cs|
    ensures SoundComponent(cs[i])
  {
  }

  // The whole map.

  lemma {:induction false} AllAreThere(dives: seq<RawDeepDive>)
    ensures forall d :: d in AllDetails(dives) <==> exists dive :: dive in dives && d in dive.components
    ensures forall r :: r in AllRelationships(dives) <==> exists dive :: dive in dives && r in dive.relationships
    ensures forall f :: f in AllFlows(dives) <==> exists dive :: dive in dives && f in dive.flows
  {
    if dives != [] {
      AllAreThere(dives[1..]);
      assert dives == [dives[0]] + dives[1..];
    }
  }

  /** Every technology and entry point of the survey that binds is there, and nothing else. */
  ghost predicate SurveyIsShown(env: Env, names: Names, survey: RawSurvey, m: CodebaseMap) {
    var technologies, entries := Take(survey.technologies, 16), Take(survey.entryPoints, 24);
    && m.summary == Clipped(survey.summary, 700) && m.style == Clipped(survey.style, 240)
    && (forall t :: t in m.technologies <==>
          exists raw :: raw in technologies && env.bind(raw.evidence) != []
                        && t == Technology(Clipped(raw.name, 60), Clipped(raw.role, 240), env.bind(raw.evidence)))
    && (forall e :: e in m.entryPoints ==> exists raw :: raw in entries && EntryFrom(env, names, raw, e))
    && forall raw :: raw in entries && NormalizedName(env, raw.componentName) in names && env.bind(raw.evidence) != []
                     ==> exists e :: e in m.entryPoints && EntryFrom(env, names, raw, e)
  }

  /** The component is a surveyed one, with what the details say about it. */
  ghost predicate ComponentIsShown(
      env: Env, names: Names, raws: seq<RawComponent>, details: seq<RawDetail>, shown: Component)
  {
    exists raw, c ::
      && raw in raws && ComponentFrom(env, raw, c) && Grown(env, names, details, c, shown)
      && c.evidence == env.bind(raw.evidence) && c.interfaces == [] && c.concerns == []
  }

  ghost predicate ComponentsAreShown(env: Env, names: Names, survey: RawSurvey, dives: seq<RawDeepDive>, m: CodebaseMap)
  {
    forall i :: 0 <= i < |m.components| ==>
      ComponentIsShown(env, names, Take(survey.components, 24), AllDetails(dives), m.components[i])
  }

  ghost predicate DivesAreShown(env: Env, names: Names, dives: seq<RawDeepDive>, m: CodebaseMap) {
    && (forall r :: r in m.relationships ==>
          exists dive, raw :: dive in dives && raw in dive.relationships && RelationshipFrom(env, names, raw, r))
    && forall f :: f in m.flows ==>
         exists dive, raw :: dive in dives && raw in dive.flows && Qualifies(env, names, raw) && FlowFrom(env, names, raw, f)
  }

  /** Everything the map says is in the submission, and where it says it. */
  lemma MapComesFromSubmission(env: Env, header: Header, survey: RawSurvey, dives: seq<RawDeepDive>, m: CodebaseMap)
    requires Stands(env, header, survey, dives, m)
    ensures var names := SkeletonOf(env, survey).names;
            && SurveyIsShown(env, names, survey, m)
            && ComponentsAreShown(env, names, survey, dives, m)
            && DivesAreShown(env, names, dives, m)
  {
    hide SurveyIsShown, ComponentsAreShown, DivesAreShown, Clipped, Filtered, Relationships, Flows, MergedAll,
         SkeletonOf, AllDetails, AllRelationships, AllFlows, TechnologyOf, EntryPointOf;
    var s := SkeletonOf(env, survey);
    SurveyShows(env, s.names, survey, m);
    ComponentsShow(env, survey, dives, m);
    DivesShow(env, s.names, dives, m);
  }

  lemma SurveyShows(env: Env, names: Names, survey: RawSurvey, m: CodebaseMap)
    requires m.summary == Clipped(survey.summary, 700) && m.style == Clipped(survey.style, 240)
    requires m.technologies == Filtered(TechnologyOf(env), 0, Take(survey.technologies, MAX_TECHNOLOGIES))
    requires m.entryPoints == Filtered(EntryPointOf(env, names), 0, Take(survey.entryPoints, MAX_ENTRY_POINTS))
    ensures SurveyIsShown(env, names, survey, m)
  {
    hide Clipped, NormalizedName, Filtered, EntryFrom, TechnologyOf, EntryPointOf;
    TechnologiesComeFrom(env, Take(survey.technologies, 16));
    EntryPointsComeFrom(env, names, Take(survey.entryPoints, 24));
  }

  lemma ComponentsShow(env: Env, survey: RawSurvey, dives: seq<RawDeepDive>, m: CodebaseMap)
    requires m.components
          == MergedAll(env, SkeletonOf(env, survey).names, SkeletonOf(env, survey).components, AllDetails(dives))
    ensures ComponentsAreShown(env, SkeletonOf(env, survey).names, survey, dives, m)
  {
    hide ComponentFrom, Grown, MergedAll, AllDetails, SurveyedAll, NormalizedName, Take, Presentable;
    var s, raws := SkeletonOf(env, survey), Take(survey.components, 24);
    var from := ComponentsComeFrom(env, raws);
    DetailsComeFrom(env, s.names, s.components, AllDetails(dives));
    forall i | 0 <= i < |m.components| ensures ComponentIsShown(env, s.names, raws, AllDetails(dives), m.components[i]) {
      var raw, c := raws[from[i]], s.components[i];
      assert raw in raws && ComponentFrom(env, raw, c) && Grown(env, s.names, AllDetails(dives), c, m.components[i]);
    }
  }

  lemma DivesShow(env: Env, names: Names, dives: seq<RawDeepDive>, m: CodebaseMap)
    requires m.relationships == Relationships(env, names, 0, {}, AllRelationships(dives)).kept
    requires m.flows == Flows(env, names, 0, AllFlows(dives)).kept
    ensures DivesAreShown(env, names, dives, m)
  {
    hide RelationshipFrom, FlowFrom, Qualifies, FlowOf, Limited, Relationships, RelationshipsFrom, RelationshipsFit,
         NoRepeats, AllRelationships, AllFlows;
    AllAreThere(dives);
    var rs, fs := AllRelationships(dives), AllFlows(dives);
    RelationshipsMean(env, names, 0, {}, rs);
    RelationshipsComeFrom(env, names, 0, {}, rs);
    forall r | r in m.relationships
      ensures exists dive, raw :: dive in dives && raw in dive.relationships && RelationshipFrom(env, names, raw, r)
    {
      assert r in RelationshipsFrom(env, names, 0, {}, rs);
      var raw :| raw in rs && RelationshipFrom(env, names, raw, r);
    }
    LimitedIsPartly(FlowOf(env, names), FlowWarning, 0, MAX_FLOWS, fs);
    forall f | f in m.flows
      ensures exists dive, raw ::
                dive in dives && raw in dive.flows && Qualifies(env, names, raw) && FlowFrom(env, names, raw, f)
    {
      var raw, k: nat :| raw in fs && FlowOf(env, names)(k, raw) == Some(f);
      FlowComesFrom(env, names, k, raw);
    }
  }

  /** What the deep dives submit arrives: the first of each triple that binds, and each flow that qualifies, ... */
  ghost predicate DivesArrive(env: Env, names: Names, dives: seq<RawDeepDive>, m: CodebaseMap) {
    var raws := AllRelationships(dives);
    && (forall i, key :: && 0 <= i < |raws| && HasKey(env, names, raws[i], key) && env.bind(raws[i].evidence) != []
                         && (forall j :: 0 <= j < i ==> !HasKey(env, names, raws[j], key)) && |m.relationships| < 48 ==>
          exists r :: r in m.relationships && RelationshipFrom(env, names, raws[i], r))
    && forall raw :: raw in AllFlows(dives) && Qualifies(env, names, raw) && |m.flows| < 8 ==>
         exists f :: f in m.flows && FlowFrom(env, names, raw, f)
  }

  /** ... unless there are 48 relationships, or eight flows, already. */
  lemma DivesAreComplete(env: Env, header: Header, survey: RawSurvey, dives: seq<RawDeepDive>, m: CodebaseMap)
    requires Stands(env, header, survey, dives, m)
    ensures DivesArrive(env, SkeletonOf(env, survey).names, dives, m)
  {
    hide Clipped, Filtered, MergedAll, SkeletonOf, AllDetails, AllRelationships, AllFlows, HasKey, RelationshipFrom,
         RelationshipsFrom, RelationshipsFit, NoRepeats, Relationships, Limited, Fits, FlowFrom, Qualifies;
    var names, raws, flows := SkeletonOf(env, survey).names, AllRelationships(dives), AllFlows(dives);
    RelationshipsMean(env, names, 0, {}, raws);
    forall i: int, key | && 0 <= i < |raws| && HasKey(env, names, raws[i], key) && env.bind(raws[i].evidence) != []
                         && (forall j :: 0 <= j < i ==> !HasKey(env, names, raws[j], key)) && |m.relationships| < 48
      ensures exists r :: r in m.relationships && RelationshipFrom(env, names, raws[i], r)
    {
      FirstOfKeyIsKept(env, names, 0, {}, raws, i, key);
    }
    LimitedMeans(FlowOf(env, names), FlowWarning, 0, MAX_FLOWS, flows);
    FlowsComeFrom(env, names, flows);
  }

  /** Six references are enough for a component: no detail adds beyond. */
  lemma EvidenceStopsAtSix(have: seq<EvidenceRef>, more: seq<EvidenceRef>)
    ensures |WithEvidence(have, more)| <= if |have| > 6 then |have| else 6
  {
  }

  /** The caps of a map, and what makes its parts sound. */
  lemma CapsAre(m: CodebaseMap)
    requires WellFormed(m)
    ensures 1 <= |m.components| <= 24 && |m.technologies| <= 16 && |m.relationships| <= 48 && |m.flows| <= 8
    ensures |m.entryPoints| <= 24
    ensures forall c :: c in m.components ==>
              1 <= |c.rootPaths| <= 8 && |c.interfaces| <= 6 && |c.concerns| <= 3 && c.evidence != []
    ensures forall f :: f in m.flows ==> 2 <= |f.steps| <= 10
  {
  }

  // Warnings.

  ghost predicate DueForComponent(env: Env, names: Names, raw: RawComponent, w: Warning) {
    var name := Clipped(raw.name, 120);
    || (w == UnnamedComponent && name == "")
    || (w == UnknownRepository(name) && raw.repositoryId !in env.repositories)
    || (w == DuplicateComponent(name) && NormalizedName(env, name) in names)
    || (w == UnboundComponent(name) && env.bind(raw.evidence) == [])
    || (w == NoRootPaths(name) && ValidRoots(raw.rootPaths) == [])
  }

  ghost predicate DueForEntryPoint(env: Env, names: Names, raw: RawEntryPoint, w: Warning) {
    var name := Clipped(raw.name, 120);
    || (w == UnknownEntryComponent(name) && NormalizedName(env, raw.componentName) !in names)
    || (w == UnboundEntryPoint(name) && env.bind(raw.evidence) == [])
  }

  ghost predicate DueForDetail(env: Env, names: Names, d: RawDetail, w: Warning) {
    || (w == UnknownDetail(Clipped(d.name, 80)) && NormalizedName(env, d.name) !in names)
    || (w.UnboundInterface? && exists raw ::
          raw in d.interfaces && env.bind(raw.evidence) == [] && w.name == Clipped(raw.name, 80))
    || (w.UnboundConcern? && exists raw :: raw in d.concerns && env.bind(raw.evidence) == [])
  }

  ghost predicate DueForRelationship(env: Env, names: Names, raw: RawRelationship, w: Warning) {
    var from, to := Clipped(raw.from, 60), Clipped(raw.to, 60);
    || (w == UnknownRelationship(from, to)
        && (NormalizedName(env, raw.from) !in names || NormalizedName(env, raw.to) !in names))
    || (w == UnboundRelationship(from, to) && env.bind(raw.evidence) == [])
  }

  /** Something in the submission deserves the warning. */
  ghost predicate Due(env: Env, names: Names, survey: RawSurvey, dives: seq<RawDeepDive>, w: Warning) {
    || (exists raw :: raw in Take(survey.components, 24) && DueForComponent(env, names, raw, w))
    || (exists raw :: raw in Take(survey.technologies, 16) && env.bind(raw.evidence) == []
                      && w == UnboundTechnology(Clipped(raw.name, 60)))
    || (exists raw :: raw in Take(survey.entryPoints, 24) && DueForEntryPoint(env, names, raw, w))
    || exists dive :: dive in dives && DueForDive(env, names, dive, w)
  }

  ghost predicate DueForDive(env: Env, names: Names, dive: RawDeepDive, w: Warning) {
    || (exists d :: d in dive.components && DueForDetail(env, names, d, w))
    || (exists raw :: raw in dive.relationships && DueForRelationship(env, names, raw, w))
    || exists raw :: raw in dive.flows && !Qualifies(env, names, raw) && w == DroppedFlow(Clipped(raw.name, 120))
  }

  lemma {:induction false} SurveyWarningsAreDue(env: Env, raws: seq<RawComponent>, names: Names)
    requires forall n :: n in SurveyedAll(env, raws).names ==> n in names
    ensures forall w :: w in SurveyedAll(env, raws).warnings ==>
              exists raw :: raw in raws && DueForComponent(env, names, raw, w)
  {
    if raws == [] {
      assert SurveyedAll(env, raws).warnings == [];
    } else {
      hide Surveyed, Clipped, NormalizedName, ValidRoots, ComponentFrom;
      var init, last := raws[..|raws| - 1], raws[|raws| - 1];
      var s := SurveyedAll(env, init);
      SurveyedIff(env, s, last);
      SurveyWarningsAreDue(env, init, names);
      forall w | w in SurveyedAll(env, raws).warnings ensures exists raw :: raw in raws && DueForComponent(env, names, raw, w)
      {
        if w in s.warnings {
          var raw :| raw in init && DueForComponent(env, names, raw, w);
          assert raw in raws;
        } else {
          assert last in raws && DueForComponent(env, names, last, w);
        }
      }
    }
  }

  lemma DetailWarningsAreDue(env: Env, names: Names, cs: seq<Component>, d: RawDetail)
    requires Resolves(env, names, cs)
    ensures forall w :: w in DetailWarnings(env, names, cs, d) ==> DueForDetail(env, names, d, w)
  {
    hide Clipped, NormalizedName, Limited, Resolves;
    if NormalizedName(env, d.name) in names {
      KnownNameHasTarget(env, names, cs, d);
      var c := cs[Target(env, names, cs, d).value];
      LimitedIsPartly(InterfaceOf(env), InterfaceWarning(c.name), |c.interfaces|, MAX_INTERFACES, d.interfaces);
      LimitedIsPartly(ConcernOf(env), ConcernWarning(c.name), |c.concerns|, MAX_CONCERNS, d.concerns);
    }
  }

  lemma {:induction false} DetailsWarningsAreDue(env: Env, names: Names, cs: seq<Component>, ds: seq<RawDetail>)
    requires Resolves(env, names, cs) && SoundComponents(cs)
    ensures forall w :: w in DetailsWarnings(env, names, cs, ds) ==>
              exists d :: d in ds && DueForDetail(env, names, d, w)
    decreases |ds|
  {
    hide Resolves, SoundComponents, MergedOne, DetailWarnings, DueForDetail;
    if ds != [] {
      var next, rest := MergedOne(env, names, cs, ds[0]), ds[1..];
      assert ds == [ds[0]] + rest;
      MergedOneIsSound(env, names, cs, ds[0]);
      SameSkeletonResolves(env, names, cs, next);
      DetailWarningsAreDue(env, names, cs, ds[0]);
      DetailsWarningsAreDue(env, names, next, rest);
    }
  }

  lemma {:induction false} RelationshipWarningsAreDue(
      env: Env, names: Names, n: nat, seen: set<RelationshipKey>, raws: seq<RawRelationship>)
    ensures forall w :: w in Relationships(env, names, n, seen, raws).warned ==>
              exists raw :: raw in raws && DueForRelationship(env, names, raw, w)
    decreases |raws|
  {
    hide NextCount, NextSeen, DueForRelationship, Pushed;
    if raws != [] && n < MAX_RELATIONSHIPS {
      var rest := raws[1..];
      var more, taken := NextCount(env, names, n, seen, raws[0]), NextSeen(env, names, seen, raws[0]);
      assert raws == [raws[0]] + rest;
      RelationshipWarningsAreDue(env, names, more, taken, rest);
      PushedIsDue(env, names, n, seen, raws[0], Relationships(env, names, more, taken, rest));
    }
  }

  lemma PushedIsDue(
      env: Env, names: Names, n: nat, seen: set<RelationshipKey>, raw: RawRelationship, x: RelationshipAccount)
    ensures forall w :: w in Pushed(env, names, n, seen, raw, x).warned ==>
              w in x.warned || DueForRelationship(env, names, raw, w)
  {
    hide Clipped, NormalizedName, RelationshipOf;
  }

  lemma FlowWarningsAreDue(env: Env, names: Names, n: nat, raws: seq<RawFlow>)
    ensures forall w :: w in Flows(env, names, n, raws).warned ==>
              exists raw :: raw in raws && !Qualifies(env, names, raw) && w == DroppedFlow(Clipped(raw.name, 120))
  {
    hide Clipped, Qualifies, FlowOf, FlowFrom, Limited;
    LimitedIsPartly(FlowOf(env, names), FlowWarning, n, MAX_FLOWS, raws);
    forall w | w in Flows(env, names, n, raws).warned
      ensures exists raw :: raw in raws && !Qualifies(env, names, raw) && w == DroppedFlow(Clipped(raw.name, 120))
    {
      var raw, k: nat :| raw in raws && FlowOf(env, names)(k, raw).None? && w == FlowWarning(raw);
      FlowComesFrom(env, names, k, raw);
    }
  }

  lemma DiveWarningsAreDue(env: Env, names: Names, d: Draft, dive: RawDeepDive)
    requires Resolves(env, names, d.components) && SoundComponents(d.components)
    ensures forall w :: w in DiveWarnings(env, names, d, dive) ==> DueForDive(env, names, dive, w)
  {
    hide Resolves, SoundComponents, DetailsWarnings, Relationships, Flows, DueForDetail, DueForRelationship, Qualifies;
    DetailsWarningsAreDue(env, names, d.components, dive.components);
    RelationshipWarningsAreDue(env, names, d.relationships, d.seen, dive.relationships);
    FlowWarningsAreDue(env, names, d.flows, dive.flows);
  }

  lemma {:induction false} DivesWarningsAreDue(env: Env, names: Names, d: Draft, dives: seq<RawDeepDive>)
    requires Resolves(env, names, d.components) && SoundComponents(d.components)
    ensures forall w :: w in DivesWarnings(env, names, d, dives) ==>
              exists dive :: dive in dives && DueForDive(env, names, dive, w)
    decreases |dives|
  {
    hide Resolves, SoundComponents, DiveWarnings, DueForDive, MergedAll, Relationships, SeenAfter, Flows;
    if dives != [] {
      var rest := dives[1..];
      assert dives == [dives[0]] + rest;
      DiveWarningsAreDue(env, names, d, dives[0]);
      StaysSound(env, names, d.components, dives[0].components);
      DivesWarningsAreDue(env, names, AfterDive(env, names, d, dives[0]), rest);
    }
  }

  lemma {:induction false} StaysSound(env: Env, names: Names, cs: seq<Component>, ds: seq<RawDetail>)
    requires Resolves(env, names, cs) && SoundComponents(cs)
    ensures Resolves(env, names, MergedAll(env, names, cs, ds)) && SoundComponents(MergedAll(env, names, cs, ds))
    decreases |ds|
  {
    hide Resolves, SoundComponents, MergedOne;
    if ds != [] {
      var next := MergedOne(env, names, cs, ds[0]);
      MergedOneIsSound(env, names, cs, ds[0]);
      SameSkeletonResolves(env, names, cs, next);
      StaysSound(env, names, next, ds[1..]);
    }
  }

  /** No warning is given without cause. */
  lemma WarningsAreDue(env: Env, survey: RawSurvey, dives: seq<RawDeepDive>)
    ensures forall w :: w in Warnings(env, survey, dives) ==>
              Due(env, SkeletonOf(env, survey).names, survey, dives, w)
  {
    hide DivesWarnings, Refused, SurveyedAll, Indexed, SoundComponents, Resolves, Take, DueForComponent, DueForEntryPoint,
         DueForDive, TechnologyOf, EntryPointOf, EntryPointWarning;
    var s := SkeletonOf(env, survey);
    SurveyIsIndexed(env, Take(survey.components, 24));
    IndexResolves(env, s);
    SurveyWarningsAreDue(env, Take(survey.components, 24), s.names);
    TechnologyWarningsAreDue(env, Take(survey.technologies, 16));
    EntryPointWarningsAreDue(env, s.names, Take(survey.entryPoints, 24));
    DivesWarningsAreDue(env, s.names, Draft(s.components, 0, {}, 0), dives);
  }

  lemma TechnologyWarningsAreDue(env: Env, raws: seq<RawTechnology>)
    ensures forall w :: w in Refused(TechnologyOf(env), TechnologyWarning, 0, raws) ==>
              exists raw :: raw in raws && env.bind(raw.evidence) == [] && w == UnboundTechnology(Clipped(raw.name, 60))
  {
    hide Clipped, Refused;
    RefusedAreNamed(TechnologyOf(env), TechnologyWarning, 0, raws);
  }

  lemma EntryPointWarningsAreDue(env: Env, names: Names, raws: seq<RawEntryPoint>)
    ensures forall w :: w in Refused(EntryPointOf(env, names), EntryPointWarning(env, names), 0, raws) ==>
              exists raw :: raw in raws && DueForEntryPoint(env, names, raw, w)
  {
    hide Clipped, NormalizedName, Refused, Decimal;
    RefusedAreNamed(EntryPointOf(env, names), EntryPointWarning(env, names), 0, raws);
  }
}
