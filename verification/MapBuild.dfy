/**
 Building a codebase map from a survey and deep dives: names are resolved to component ids, evidence is
 bound, duplicates are dropped and every list is capped.

 Evidence binding, lower-casing and component ids are parameters. Each section of the map has a
 declarative meaning, filter then truncate, that its loop with an early exit is proved against.
 */
module MapBuild {
  import opened Common
  import opened Model
  import opened Text
  import opened Maps
  import opened Clipping
  import opened Sections

  const MAX_COMPONENTS := 24
  const MAX_RELATIONSHIPS := 48
  const MAX_FLOWS := 8
  const MAX_FLOW_STEPS := 10
  const MAX_ENTRY_POINTS := 24
  const MAX_INTERFACES := 6
  const MAX_CONCERNS := 3
  const MAX_EVIDENCE := 6
  const MAX_TECHNOLOGIES := 16
  const MAX_ROOT_PATHS := 8

  // What the provider submits.

  datatype RawEvidence = RawEvidence(repositoryId: string, path: string, startLine: nat, endLine: nat)

  datatype RawTechnology = RawTechnology(name: string, role: string, evidence: seq<RawEvidence>)

  datatype RawComponent = RawComponent(
    name: string, kind: ComponentKind, repositoryId: string, rootPaths: seq<string>, responsibility: string,
    evidence: seq<RawEvidence>)

  datatype RawEntryPoint = RawEntryPoint(
    name: string, kind: EntryPointKind, componentName: string, evidence: seq<RawEvidence>)

  datatype RawSurvey = RawSurvey(
    summary: string, style: string, technologies: seq<RawTechnology>, components: seq<RawComponent>,
    entryPoints: seq<RawEntryPoint>)

  datatype RawInterface = RawInterface(name: string, description: string, evidence: seq<RawEvidence>)

  datatype RawConcern = RawConcern(summary: string, evidence: seq<RawEvidence>)

  datatype RawDetail = RawDetail(
    name: string, interfaces: seq<RawInterface>, concerns: seq<RawConcern>, evidence: seq<RawEvidence>)

  datatype RawRelationship = RawRelationship(
    from: string, to: string, kind: RelationshipKind, description: string, evidence: seq<RawEvidence>)

  datatype RawStep = RawStep(componentName: string, action: string, evidence: seq<RawEvidence>)

  datatype RawFlow = RawFlow(name: string, description: string, steps: seq<RawStep>)

  datatype RawDeepDive = RawDeepDive(
    components: seq<RawDetail>, relationships: seq<RawRelationship>, flows: seq<RawFlow>)

  datatype Env = Env(
    bind: seq<RawEvidence> -> seq<EvidenceRef>,
    lower: string -> string,
    componentId: (string, string) -> string,
    repositories: set<string>)

  function NormalizedName(env: Env, s: string): string {
    env.lower(TrimMatches(s, IsWhitespace))
  }

  // Path parts.

  function PartLength(s: string): (n: nat)
    ensures n <= |s|
  {
    if s == "" || s[0] == '/' then 0 else 1 + PartLength(s[1..])
  }

  function Parts(path: string): seq<string>
    decreases |path|
  {
    var n := PartLength(path);
    if n == |path| then [path] else [path[..n]] + Parts(path[n + 1..])
  }

  /** Relative, and never upwards. */
  predicate RelativePath(path: string) {
    path != "" && path[0] != '/' && ".." !in Parts(path)
  }

  function ValidRoots(paths: seq<string>): (r: seq<string>)
    ensures forall i :: 0 <= i < |r| ==> RelativePath(r[i])
  {
    if paths == [] then []
    else
      var path := Clipped(paths[0], 240);
      (if RelativePath(path) then [path] else []) + ValidRoots(paths[1..])
  }

  // Components.

  datatype Warning =
    | UnnamedComponent
    | UnknownRepository(name: string)
    | DuplicateComponent(name: string)
    | UnboundComponent(name: string)
    | NoRootPaths(name: string)
    | UnboundTechnology(name: string)
    | UnknownEntryComponent(name: string)
    | UnboundEntryPoint(name: string)
    | UnknownDetail(name: string)
    | UnboundInterface(name: string, component: string)
    | UnboundConcern(component: string)
    | UnknownRelationship(from: string, to: string)
    | UnboundRelationship(from: string, to: string)
    | DroppedFlow(name: string)
    | NarrativeReplaced(fields: nat)

  type Names = map<string, string>

  datatype Skeleton = Skeleton(components: seq<Component>, names: Names, warnings: seq<Warning>)

  /** One surveyed component: added and indexed by its name, or dropped with a warning. */
  function Surveyed(env: Env, s: Skeleton, raw: RawComponent): Skeleton {
    var name := Clipped(raw.name, 120);
    if name == "" then s.(warnings := s.warnings + [UnnamedComponent])
    else if raw.repositoryId !in env.repositories then s.(warnings := s.warnings + [UnknownRepository(name)])
    else if NormalizedName(env, name) in s.names then s.(warnings := s.warnings + [DuplicateComponent(name)])
    else
      var evidence := env.bind(raw.evidence);
      var roots := Take(ValidRoots(raw.rootPaths), MAX_ROOT_PATHS);
      if evidence == [] then s.(warnings := s.warnings + [UnboundComponent(name)])
      else if roots == [] then s.(warnings := s.warnings + [NoRootPaths(name)])
      else
        var id := env.componentId(raw.repositoryId, name);
        Added(env, s, Component(id, name, raw.kind, raw.repositoryId, roots, Clipped(raw.responsibility, 480),
                                [], [], evidence))
  }

  function Added(env: Env, s: Skeleton, c: Component): Skeleton {
    Skeleton(s.components + [c], s.names[NormalizedName(env, c.name) := c.id], s.warnings)
  }

  function SurveyedAll(env: Env, raws: seq<RawComponent>): Skeleton {
    if raws == [] then Skeleton([], map[], [])
    else Surveyed(env, SurveyedAll(env, raws[..|raws| - 1]), raws[|raws| - 1])
  }

  ghost predicate HasId(components: seq<Component>, id: string) {
    exists i :: 0 <= i < |components| && components[i].id == id
  }

  /** The name leads to a component of that name and id. */
  ghost predicate Leads(env: Env, components: seq<Component>, name: string, id: string) {
    exists i :: 0 <= i < |components| && components[i].id == id && NormalizedName(env, components[i].name) == name
  }

  /** The index holds exactly the surveyed components, under names that differ after normalization. */
  ghost predicate Indexed(env: Env, s: Skeleton) {
    && (forall i :: 0 <= i < |s.components| ==>
          NormalizedName(env, s.components[i].name) in s.names
          && s.names[NormalizedName(env, s.components[i].name)] == s.components[i].id)
    && (forall i, j :: 0 <= i < j < |s.components| ==>
          NormalizedName(env, s.components[i].name) != NormalizedName(env, s.components[j].name))
    && (forall n :: n in s.names ==> Leads(env, s.components, n, s.names[n]))
    && forall i :: 0 <= i < |s.components| ==>
         s.components[i].id == env.componentId(s.components[i].repositoryId, s.components[i].name)
  }

  predicate SoundComponent(c: Component) {
    && c.evidence != [] && 1 <= |c.rootPaths| <= MAX_ROOT_PATHS
    && (forall i :: 0 <= i < |c.rootPaths| ==> RelativePath(c.rootPaths[i]))
    && |c.interfaces| <= MAX_INTERFACES && |c.concerns| <= MAX_CONCERNS
    && (forall i :: 0 <= i < |c.interfaces| ==> c.interfaces[i].evidence != [])
    && (forall i :: 0 <= i < |c.concerns| ==> c.concerns[i].evidence != [])
  }

  predicate SoundComponents(cs: seq<Component>) {
    forall i :: 0 <= i < |cs| ==> SoundComponent(cs[i])
  }

  lemma AddedIsIndexed(env: Env, s: Skeleton, c: Component)
    requires Indexed(env, s) && NormalizedName(env, c.name) !in s.names
    requires c.id == env.componentId(c.repositoryId, c.name)
    ensures Indexed(env, Added(env, s, c))
  {
    hide NormalizedName;
    var t := Added(env, s, c);
    assert t.components[|s.components|] == c;
    assert forall i :: 0 <= i < |s.components| ==> t.components[i] == s.components[i];
    forall n | n in t.names ensures Leads(env, t.components, n, t.names[n]) {
      if n in s.names {
        LeadsOn(env, s.components, c, n, s.names[n]);
      }
    }
  }

  lemma LeadsOn(env: Env, components: seq<Component>, c: Component, name: string, id: string)
    requires Leads(env, components, name, id)
    ensures Leads(env, components + [c], name, id)
  {
    hide NormalizedName;
    var i :| 0 <= i < |components| && components[i].id == id && NormalizedName(env, components[i].name) == name;
    assert (components + [c])[i] == components[i];
  }

  lemma SurveyedStep(env: Env, s: Skeleton, raw: RawComponent)
    requires Indexed(env, s) && SoundComponents(s.components)
    ensures var t := Surveyed(env, s, raw);
            && Indexed(env, t) && SoundComponents(t.components)
            && |t.components| + |t.warnings| == |s.components| + |s.warnings| + 1
  {
    hide Clipped, RelativePath, Indexed, NormalizedName;
    var t := Surveyed(env, s, raw);
    if t.components == s.components {
      SameIndex(env, s, t.warnings);
    } else {
      AddedIsIndexed(env, s, t.components[|s.components|]);
    }
  }

  lemma SameIndex(env: Env, s: Skeleton, warnings: seq<Warning>)
    requires Indexed(env, s)
    ensures Indexed(env, s.(warnings := warnings))
  {
  }

  /** Every surveyed component is kept and indexed, or named in a warning. */
  lemma {:induction false} SurveyIsIndexed(env: Env, raws: seq<RawComponent>)
    ensures Indexed(env, SurveyedAll(env, raws)) && SoundComponents(SurveyedAll(env, raws).components)
    ensures |SurveyedAll(env, raws).components| + |SurveyedAll(env, raws).warnings| == |raws|
  {
    if raws != [] {
      hide Indexed, SoundComponents, Surveyed;
      SurveyIsIndexed(env, raws[..|raws| - 1]);
      SurveyedStep(env, SurveyedAll(env, raws[..|raws| - 1]), raws[|raws| - 1]);
    }
  }

  method SurveyComponents(env: Env, raws: seq<RawComponent>) returns (s: Skeleton)
    ensures s == SurveyedAll(env, Take(raws, MAX_COMPONENTS))
    ensures Indexed(env, s) && SoundComponents(s.components) && |s.components| <= MAX_COMPONENTS
  {
    var taken := Take(raws, MAX_COMPONENTS);
    s := Skeleton([], map[], []);
    for k := 0 to |taken|
      invariant s == SurveyedAll(env, taken[..k])
    {
      assert taken[..k + 1][..k] == taken[..k];
      s := Surveyed(env, s, taken[k]);
    }
    assert taken[..|taken|] == taken;
    SurveyIsIndexed(env, taken);
  }

  // Technologies and entry points.

  function TechnologyOf(env: Env): Keeper<RawTechnology, Technology> {
    (n: nat, raw: RawTechnology) =>
      var evidence := env.bind(raw.evidence);
      if evidence == [] then None else Some(Technology(Clipped(raw.name, 60), Clipped(raw.role, 240), evidence))
  }

  function TechnologyWarning(raw: RawTechnology): Warning {
    UnboundTechnology(Clipped(raw.name, 60))
  }

  /** At most 16 are looked at; each is kept, or named in a warning. */
  method KeepTechnologies(env: Env, raws: seq<RawTechnology>, before: seq<Warning>)
      returns (out: seq<Technology>, warnings: seq<Warning>)
    ensures out == Filtered(TechnologyOf(env), 0, Take(raws, MAX_TECHNOLOGIES))
    ensures warnings == before + Refused(TechnologyOf(env), TechnologyWarning, 0, Take(raws, MAX_TECHNOLOGIES))
  {
    hide Clipped, Take, Filtered, Refused;
    var taken, f := Take(raws, MAX_TECHNOLOGIES), TechnologyOf(env);
    out, warnings := [], before;
    assert taken[0..] == taken;
    for k := 0 to |taken|
      invariant out + Filtered(f, |out|, taken[k..]) == Filtered(f, 0, taken)
      invariant warnings + Refused(f, TechnologyWarning, |out|, taken[k..])
             == before + Refused(f, TechnologyWarning, 0, taken)
    {
      FirstKept(f, TechnologyWarning, |out|, taken, k);
      var evidence := env.bind(taken[k].evidence);
      if evidence == [] {
        warnings := warnings + [TechnologyWarning(taken[k])];
      } else {
        out := out + [Technology(Clipped(taken[k].name, 60), Clipped(taken[k].role, 240), evidence)];
      }
    }
    NothingKept(f, TechnologyWarning, |out|, taken);
  }

  function EntryPointOf(env: Env, names: Names): Keeper<RawEntryPoint, EntryPoint> {
    (n: nat, raw: RawEntryPoint) =>
      var key, evidence := NormalizedName(env, raw.componentName), env.bind(raw.evidence);
      if key !in names || evidence == [] then None
      else Some(EntryPoint("entry-" + Decimal(n + 1), Clipped(raw.name, 120), raw.kind, names[key], evidence))
  }

  function EntryPointWarning(env: Env, names: Names): RawEntryPoint -> Warning {
    (raw: RawEntryPoint) =>
      if NormalizedName(env, raw.componentName) !in names then UnknownEntryComponent(Clipped(raw.name, 120))
      else UnboundEntryPoint(Clipped(raw.name, 120))
  }

  /** At most 24 are looked at; each is kept and numbered, or named in a warning. */
  method KeepEntryPoints(env: Env, names: Names, raws: seq<RawEntryPoint>, before: seq<Warning>)
      returns (out: seq<EntryPoint>, warnings: seq<Warning>)
    ensures out == Filtered(EntryPointOf(env, names), 0, Take(raws, MAX_ENTRY_POINTS))
    ensures warnings
         == before + Refused(EntryPointOf(env, names), EntryPointWarning(env, names), 0, Take(raws, MAX_ENTRY_POINTS))
  {
    hide Clipped, NormalizedName, Decimal, Take, Filtered, Refused;
    var taken, f, warn := Take(raws, MAX_ENTRY_POINTS), EntryPointOf(env, names), EntryPointWarning(env, names);
    out, warnings := [], before;
    assert taken[0..] == taken;
    for k := 0 to |taken|
      invariant out + Filtered(f, |out|, taken[k..]) == Filtered(f, 0, taken)
      invariant warnings + Refused(f, warn, |out|, taken[k..]) == before + Refused(f, warn, 0, taken)
    {
      FirstKept(f, warn, |out|, taken, k);
      var raw := taken[k];
      var name, key := Clipped(raw.name, 120), NormalizedName(env, raw.componentName);
      if key !in names {
        warnings := warnings + [UnknownEntryComponent(name)];
        continue;
      }
      var evidence := env.bind(raw.evidence);
      if evidence == [] {
        warnings := warnings + [UnboundEntryPoint(name)];
        continue;
      }
      out := out + [EntryPoint("entry-" + Decimal(|out| + 1), name, raw.kind, names[key], evidence)];
    }
    NothingKept(f, warn, |out|, taken);
  }

  /** Every entry point names an indexed component, carries evidence and has its number. */
  lemma EntryPointsAreSound(env: Env, names: Names, raws: seq<RawEntryPoint>)
    ensures var es := Filtered(EntryPointOf(env, names), 0, raws);
            |es| <= |raws| && SoundEntryPoints(names.Values, es)
  {
    hide Clipped, NormalizedName, Decimal;
    KeptSatisfy(EntryPointOf(env, names), 0, raws, (n: nat, e: EntryPoint) =>
      e.componentId in names.Values && e.evidence != [] && e.id == "entry-" + Decimal(n + 1));
  }

  ghost predicate SoundEntryPoints(ids: set<string>, es: seq<EntryPoint>) {
    forall i :: 0 <= i < |es| ==>
      es[i].componentId in ids && es[i].evidence != [] && es[i].id == "entry-" + Decimal(i + 1)
  }

  lemma TechnologiesAreSound(env: Env, raws: seq<RawTechnology>)
    ensures var ts := Filtered(TechnologyOf(env), 0, raws);
            |ts| <= |raws| && forall i :: 0 <= i < |ts| ==> ts[i].evidence != []
  {
    hide Clipped;
    KeptSatisfy(TechnologyOf(env), 0, raws, (n: nat, t: Technology) => t.evidence != []);
  }

  // Details of a component.

  function InterfaceOf(env: Env): Keeper<RawInterface, Interface> {
    (n: nat, raw: RawInterface) =>
      var evidence := env.bind(raw.evidence);
      if evidence == [] then None else Some(Interface(Clipped(raw.name, 120), Clipped(raw.description, 240), evidence))
  }

  function InterfaceWarning(owner: string): RawInterface -> Warning {
    (raw: RawInterface) => UnboundInterface(Clipped(raw.name, 80), owner)
  }

  function InterfaceAccount(env: Env, n: nat, raws: seq<RawInterface>, owner: string)
      : Account<Interface, Warning, RawInterface>
  {
    Limited(InterfaceOf(env), InterfaceWarning(owner), n, MAX_INTERFACES, raws)
  }

  function ConcernOf(env: Env): Keeper<RawConcern, Concern> {
    (n: nat, raw: RawConcern) =>
      var evidence := env.bind(raw.evidence);
      if evidence == [] then None else Some(Concern(Clipped(raw.summary, 240), evidence))
  }

  function ConcernWarning(owner: string): RawConcern -> Warning {
    (raw: RawConcern) => UnboundConcern(owner)
  }

  function ConcernAccount(env: Env, n: nat, raws: seq<RawConcern>, owner: string): Account<Concern, Warning, RawConcern> {
    Limited(ConcernOf(env), ConcernWarning(owner), n, MAX_CONCERNS, raws)
  }

  /** The loop that stops at the cap does what the account says. */
  method AddInterfaces(env: Env, have: seq<Interface>, raws: seq<RawInterface>, owner: string, before: seq<Warning>)
      returns (out: seq<Interface>, warnings: seq<Warning>)
    ensures out == have + InterfaceAccount(env, |have|, raws, owner).kept
    ensures warnings == before + InterfaceAccount(env, |have|, raws, owner).warned
  {
    hide Clipped, Limited;
    var f, warn := InterfaceOf(env), InterfaceWarning(owner);
    out, warnings := have, before;
    var k := 0;
    assert raws[0..] == raws;
    while k < |raws| && |out| < MAX_INTERFACES
      invariant k <= |raws|
      invariant out + Limited(f, warn, |out|, MAX_INTERFACES, raws[k..]).kept
             == have + Limited(f, warn, |have|, MAX_INTERFACES, raws).kept
      invariant warnings + Limited(f, warn, |out|, MAX_INTERFACES, raws[k..]).warned
             == before + Limited(f, warn, |have|, MAX_INTERFACES, raws).warned
    {
      FirstLimited(f, warn, |out|, MAX_INTERFACES, raws, k);
      var evidence := env.bind(raws[k].evidence);
      if evidence == [] {
        warnings := warnings + [UnboundInterface(Clipped(raws[k].name, 80), owner)];
      } else {
        out := out + [Interface(Clipped(raws[k].name, 120), Clipped(raws[k].description, 240), evidence)];
      }
      k := k + 1;
    }
    LimitReached(f, warn, |out|, MAX_INTERFACES, raws[k..]);
  }

  method AddConcerns(env: Env, have: seq<Concern>, raws: seq<RawConcern>, owner: string, before: seq<Warning>)
      returns (out: seq<Concern>, warnings: seq<Warning>)
    ensures out == have + ConcernAccount(env, |have|, raws, owner).kept
    ensures warnings == before + ConcernAccount(env, |have|, raws, owner).warned
  {
    hide Clipped, Limited;
    var f, warn := ConcernOf(env), ConcernWarning(owner);
    out, warnings := have, before;
    var k := 0;
    assert raws[0..] == raws;
    while k < |raws| && |out| < MAX_CONCERNS
      invariant k <= |raws|
      invariant out + Limited(f, warn, |out|, MAX_CONCERNS, raws[k..]).kept
             == have + Limited(f, warn, |have|, MAX_CONCERNS, raws).kept
      invariant warnings + Limited(f, warn, |out|, MAX_CONCERNS, raws[k..]).warned
             == before + Limited(f, warn, |have|, MAX_CONCERNS, raws).warned
    {
      FirstLimited(f, warn, |out|, MAX_CONCERNS, raws, k);
      var evidence := env.bind(raws[k].evidence);
      if evidence == [] {
        warnings := warnings + [UnboundConcern(owner)];
      } else {
        out := out + [Concern(Clipped(raws[k].summary, 240), evidence)];
      }
      k := k + 1;
    }
    LimitReached(f, warn, |out|, MAX_CONCERNS, raws[k..]);
  }

  /** The references of `more` that are not there yet, each once, in the order of their first mention. */
  function Fresh(have: seq<EvidenceRef>, more: seq<EvidenceRef>): seq<EvidenceRef>
    decreases |more|
  {
    if more == [] then []
    else if more[0] in have then Fresh(have, more[1..])
    else [more[0]] + Fresh(have + [more[0]], more[1..])
  }

  function Room(have: seq<EvidenceRef>): nat {
    if |have| >= MAX_EVIDENCE then 0 else MAX_EVIDENCE - |have|
  }

  /** As many new references as there is room for; so one is left out exactly when the room is used up before it. */
  function WithEvidence(have: seq<EvidenceRef>, more: seq<EvidenceRef>): (r: seq<EvidenceRef>)
    ensures have <= r && |r| <= if |have| > MAX_EVIDENCE then |have| else MAX_EVIDENCE
  {
    have + Take(Fresh(have, more), Room(have))
  }

  lemma {:induction false} FreshMeans(have: seq<EvidenceRef>, more: seq<EvidenceRef>)
    ensures forall x :: x in Fresh(have, more) <==> x in more && x !in have
    ensures forall i, j :: 0 <= i < j < |Fresh(have, more)| ==> Fresh(have, more)[i] != Fresh(have, more)[j]
    decreases |more|
  {
    if more != [] {
      assert more == [more[0]] + more[1..];
      FreshMeans(have, more[1..]);
      FreshMeans(have + [more[0]], more[1..]);
    }
  }

  /** What is added comes from `more`, is new and never repeats; all of it is added, or the room is used up. */
  lemma EvidenceIsMerged(have: seq<EvidenceRef>, more: seq<EvidenceRef>)
    ensures var r := WithEvidence(have, more);
            && (forall i :: |have| <= i < |r| ==> r[i] in more && r[i] !in have)
            && (forall i, j :: |have| <= i < j < |r| ==> r[i] != r[j])
            && ((forall x :: x in more ==> x in r) <==> |Fresh(have, more)| <= Room(have))
            && (|Fresh(have, more)| > Room(have) ==> |r| >= MAX_EVIDENCE)
  {
    hide Fresh;
    FreshMeans(have, more);
    var added, r := Fresh(have, more), WithEvidence(have, more);
    assert forall i :: |have| <= i < |r| ==> r[i] == added[i - |have|];
    if |added| > Room(have) {
      var x := added[Room(have)];
      assert x in added && x !in r;
    }
  }

  /** One turn of the loop: the reference joins those that are there, or is one of them. */
  lemma EvidenceTurn(have: seq<EvidenceRef>, more: seq<EvidenceRef>, k: nat)
    requires k < |more| && |have| < MAX_EVIDENCE
    ensures WithEvidence(have, more[k..])
         == WithEvidence(if more[k] in have then have else have + [more[k]], more[k + 1..])
  {
    assert more[k..][1..] == more[k + 1..];
    if more[k] !in have {
      var rest := Fresh(have + [more[k]], more[k + 1..]);
      TakeFirst(more[k], rest, Room(have));
      assert have + ([more[k]] + Take(rest, Room(have) - 1)) == have + [more[k]] + Take(rest, Room(have) - 1);
    }
  }

  lemma NoMoreEvidence(have: seq<EvidenceRef>, more: seq<EvidenceRef>)
    requires more == [] || |have| >= MAX_EVIDENCE
    ensures WithEvidence(have, more) == have
  {
    TakeNothing(Fresh(have, more), Room(have));
  }

  method AddEvidence(have: seq<EvidenceRef>, more: seq<EvidenceRef>) returns (out: seq<EvidenceRef>)
    ensures out == WithEvidence(have, more)
  {
    hide WithEvidence;
    out := have;
    var k := 0;
    assert more[0..] == more;
    while k < |more| && |out| < MAX_EVIDENCE
      invariant k <= |more| && WithEvidence(out, more[k..]) == WithEvidence(have, more)
    {
      EvidenceTurn(out, more, k);
      if more[k] !in out {
        out := out + [more[k]];
      }
      k := k + 1;
    }
    NoMoreEvidence(out, more[k..]);
  }

  function Merged(env: Env, c: Component, d: RawDetail): Component {
    c.(interfaces := c.interfaces + InterfaceAccount(env, |c.interfaces|, d.interfaces, c.name).kept,
       concerns := c.concerns + ConcernAccount(env, |c.concerns|, d.concerns, c.name).kept,
       evidence := WithEvidence(c.evidence, env.bind(d.evidence)))
  }

  function FindById(cs: seq<Component>, id: string): (r: Option<nat>)
    ensures r.Some? ==> r.value < |cs| && cs[r.value].id == id && forall i :: 0 <= i < r.value ==> cs[i].id != id
    ensures r.None? ==> !HasId(cs, id)
  {
    if cs == [] then None
    else if cs[0].id == id then Some(0)
    else
      var r := FindById(cs[1..], id);
      assert HasId(cs, id) ==> HasId(cs[1..], id) by {
        if i :| 0 <= i < |cs| && cs[i].id == id {
          assert cs[1..][i - 1].id == id;
        }
      }
      if r.Some? then Some(r.value + 1) else None
  }

  /** The component a detail is about, if its name is known. */
  function Target(env: Env, names: Names, cs: seq<Component>, d: RawDetail): (r: Option<nat>)
    ensures r.Some? ==> r.value < |cs| && NormalizedName(env, d.name) in names
                        && cs[r.value].id == names[NormalizedName(env, d.name)]
  {
    var key := NormalizedName(env, d.name);
    if key in names then FindById(cs, names[key]) else None
  }

  function MergedOne(env: Env, names: Names, cs: seq<Component>, d: RawDetail): seq<Component> {
    match Target(env, names, cs, d)
    case None => cs
    case Some(i) => cs[i := Merged(env, cs[i], d)]
  }

  function MergedAll(env: Env, names: Names, cs: seq<Component>, ds: seq<RawDetail>): seq<Component>
    decreases |ds|
  {
    if ds == [] then cs else MergedAll(env, names, MergedOne(env, names, cs, ds[0]), ds[1..])
  }

  /** The warnings for one detail: it is unknown, or some of its interfaces and concerns do not bind. */
  function DetailWarnings(env: Env, names: Names, cs: seq<Component>, d: RawDetail): seq<Warning> {
    match Target(env, names, cs, d)
    case None => [UnknownDetail(Clipped(d.name, 80))]
    case Some(i) =>
      InterfaceAccount(env, |cs[i].interfaces|, d.interfaces, cs[i].name).warned
      + ConcernAccount(env, |cs[i].concerns|, d.concerns, cs[i].name).warned
  }

  function DetailsWarnings(env: Env, names: Names, cs: seq<Component>, ds: seq<RawDetail>): seq<Warning>
    decreases |ds|
  {
    if ds == [] then []
    else DetailWarnings(env, names, cs, ds[0]) + DetailsWarnings(env, names, MergedOne(env, names, cs, ds[0]), ds[1..])
  }

  /** The index resolves: every name in it leads to a component of that name. */
  ghost predicate Resolves(env: Env, names: Names, cs: seq<Component>) {
    forall n :: n in names ==> Leads(env, cs, n, names[n])
  }

  /** Same components in the same order: ids, names and repositories are as they were. */
  predicate SameSkeleton(cs: seq<Component>, ds: seq<Component>) {
    |cs| == |ds| && forall i :: 0 <= i < |cs| ==>
      ds[i].id == cs[i].id && ds[i].name == cs[i].name && ds[i].repositoryId == cs[i].repositoryId
  }

  lemma SameSkeletonResolves(env: Env, names: Names, cs: seq<Component>, ds: seq<Component>)
    requires Resolves(env, names, cs) && SameSkeleton(cs, ds)
    ensures Resolves(env, names, ds)
  {
    hide NormalizedName;
    forall n | n in names ensures Leads(env, ds, n, names[n]) {
      var i :| 0 <= i < |cs| && cs[i].id == names[n] && NormalizedName(env, cs[i].name) == n;
      assert ds[i].id == names[n] && NormalizedName(env, ds[i].name) == n;
    }
  }

  lemma BoundInterfacesKept(env: Env, n: nat, raws: seq<RawInterface>, owner: string)
    requires n <= MAX_INTERFACES
    ensures var kept := InterfaceAccount(env, n, raws, owner).kept;
            n + |kept| <= MAX_INTERFACES && forall i :: 0 <= i < |kept| ==> kept[i].evidence != []
  {
    hide Clipped, Filtered, Limited;
    LimitedMeans(InterfaceOf(env), InterfaceWarning(owner), n, MAX_INTERFACES, raws);
    KeptSatisfy(InterfaceOf(env), n, raws, (k: nat, x: Interface) => x.evidence != []);
  }

  lemma BoundConcernsKept(env: Env, n: nat, raws: seq<RawConcern>, owner: string)
    requires n <= MAX_CONCERNS
    ensures var kept := ConcernAccount(env, n, raws, owner).kept;
            n + |kept| <= MAX_CONCERNS && forall i :: 0 <= i < |kept| ==> kept[i].evidence != []
  {
    hide Clipped, Filtered, Limited;
    LimitedMeans(ConcernOf(env), ConcernWarning(owner), n, MAX_CONCERNS, raws);
    KeptSatisfy(ConcernOf(env), n, raws, (k: nat, x: Concern) => x.evidence != []);
  }

  lemma MergedIsSound(env: Env, c: Component, d: RawDetail)
    requires SoundComponent(c)
    ensures SoundComponent(Merged(env, c, d))
  {
    hide RelativePath, InterfaceAccount, ConcernAccount;
    BoundInterfacesKept(env, |c.interfaces|, d.interfaces, c.name);
    BoundConcernsKept(env, |c.concerns|, d.concerns, c.name);
  }

  lemma MergedOneIsSound(env: Env, names: Names, cs: seq<Component>, d: RawDetail)
    requires SoundComponents(cs)
    ensures SoundComponents(MergedOne(env, names, cs, d)) && SameSkeleton(cs, MergedOne(env, names, cs, d))
  {
    hide SoundComponent, NormalizedName, InterfaceAccount, ConcernAccount, Target;
    forall i | 0 <= i < |cs| ensures SoundComponent(Merged(env, cs[i], d)) {
      MergedIsSound(env, cs[i], d);
    }
  }

  lemma KnownNameHasTarget(env: Env, names: Names, cs: seq<Component>, d: RawDetail)
    requires Resolves(env, names, cs) && NormalizedName(env, d.name) in names
    ensures Target(env, names, cs, d).Some?
  {
    hide NormalizedName;
    var n := NormalizedName(env, d.name);
    assert Leads(env, cs, n, names[n]);
    assert HasId(cs, names[n]);
  }

  /** Merges one detail. The component that the name index leads to is always there. */
  method MergeDetail(env: Env, names: Names, cs: seq<Component>, d: RawDetail, before: seq<Warning>)
      returns (out: seq<Component>, warnings: seq<Warning>)
    requires Resolves(env, names, cs) && SoundComponents(cs)
    ensures out == MergedOne(env, names, cs, d)
    ensures warnings == before + DetailWarnings(env, names, cs, d)
    ensures Resolves(env, names, out) && SoundComponents(out) && SameSkeleton(cs, out)
  {
    hide Clipped, NormalizedName, Resolves, SoundComponents, InterfaceAccount, ConcernAccount, SameSkeleton;
    MergedOneIsSound(env, names, cs, d);
    SameSkeletonResolves(env, names, cs, MergedOne(env, names, cs, d));
    out, warnings := cs, before;
    var key := NormalizedName(env, d.name);
    if key !in names {
      warnings := warnings + [UnknownDetail(Clipped(d.name, 80))];
      return;
    }
    var found := FindById(cs, names[key]);
    assert found.Some? by { KnownNameHasTarget(env, names, cs, d); }
    var c := cs[found.value];
    var interfaces, concerns;
    interfaces, warnings := AddInterfaces(env, c.interfaces, d.interfaces, c.name, warnings);
    concerns, warnings := AddConcerns(env, c.concerns, d.concerns, c.name, warnings);
    var evidence := AddEvidence(c.evidence, env.bind(d.evidence));
    out := cs[found.value := c.(interfaces := interfaces, concerns := concerns, evidence := evidence)];
  }

  method MergeDetails(env: Env, names: Names, cs: seq<Component>, ds: seq<RawDetail>, before: seq<Warning>)
      returns (out: seq<Component>, warnings: seq<Warning>)
    requires Resolves(env, names, cs) && SoundComponents(cs)
    ensures out == MergedAll(env, names, cs, ds)
    ensures warnings == before + DetailsWarnings(env, names, cs, ds)
    ensures Resolves(env, names, out) && SoundComponents(out) && SameSkeleton(cs, out)
  {
    hide Resolves, SoundComponents, MergedOne, DetailWarnings;
    out, warnings := cs, before;
    assert ds[0..] == ds;
    for k := 0 to |ds|
      invariant MergedAll(env, names, out, ds[k..]) == MergedAll(env, names, cs, ds)
      invariant warnings + DetailsWarnings(env, names, out, ds[k..]) == before + DetailsWarnings(env, names, cs, ds)
      invariant Resolves(env, names, out) && SoundComponents(out) && SameSkeleton(cs, out)
    {
      assert ds[k..][1..] == ds[k + 1..];
      out, warnings := MergeDetail(env, names, out, ds[k], warnings);
    }
  }

  lemma {:induction false} MergedConcat(
      env: Env, names: Names, cs: seq<Component>, a: seq<RawDetail>, b: seq<RawDetail>)
    ensures MergedAll(env, names, cs, a + b) == MergedAll(env, names, MergedAll(env, names, cs, a), b)
    decreases |a|
  {
    hide MergedOne;
    if a == [] {
      assert a + b == b;
    } else {
      assert (a + b)[1..] == a[1..] + b;
      MergedConcat(env, names, MergedOne(env, names, cs, a[0]), a[1..], b);
    }
  }

  // Relationships.

  type RelationshipKey = (string, string, RelationshipKind)

  function KeyOf(r: Relationship): RelationshipKey {
    (r.from, r.to, r.kind)
  }

  /** The key of a submitted relationship, if both its ends are known. */
  function KeyFor(env: Env, names: Names, raw: RawRelationship): Option<RelationshipKey> {
    var from, to := NormalizedName(env, raw.from), NormalizedName(env, raw.to);
    if from in names && to in names then Some((names[from], names[to], raw.kind)) else None
  }

  function RelationshipOf(env: Env, n: nat, key: RelationshipKey, raw: RawRelationship): Relationship {
    Relationship("relationship-" + Decimal(n + 1), key.0, key.1, key.2, Clipped(raw.description, 240),
                 env.bind(raw.evidence))
  }

  function UnknownEnds(raw: RawRelationship): Warning {
    UnknownRelationship(Clipped(raw.from, 60), Clipped(raw.to, 60))
  }

  function UnboundEnds(raw: RawRelationship): Warning {
    UnboundRelationship(Clipped(raw.from, 60), Clipped(raw.to, 60))
  }

  /** It resolves, its key is free and its evidence binds. */
  predicate Keeps(env: Env, names: Names, seen: set<RelationshipKey>, raw: RawRelationship) {
    var key := KeyFor(env, names, raw);
    key.Some? && key.value !in seen && env.bind(raw.evidence) != []
  }

  function NextCount(env: Env, names: Names, n: nat, seen: set<RelationshipKey>, raw: RawRelationship): nat {
    if Keeps(env, names, seen, raw) then n + 1 else n
  }

  /** A resolvable relationship takes its key, whether or not its evidence binds. */
  function NextSeen(env: Env, names: Names, seen: set<RelationshipKey>, raw: RawRelationship): set<RelationshipKey> {
    var key := KeyFor(env, names, raw);
    if key.Some? then seen + {key.value} else seen
  }

  /** The relationships that survive when `n` are kept and the keys in `seen` are taken, uncapped. */
  function RelationshipsFrom(env: Env, names: Names, n: nat, seen: set<RelationshipKey>, raws: seq<RawRelationship>)
      : seq<Relationship>
    decreases |raws|
  {
    if raws == [] then []
    else
      (if Keeps(env, names, seen, raws[0])
       then [RelationshipOf(env, n, KeyFor(env, names, raws[0]).value, raws[0])] else [])
      + RelationshipsFrom(env, names, NextCount(env, names, n, seen, raws[0]), NextSeen(env, names, seen, raws[0]),
                          raws[1..])
  }

  type RelationshipAccount = Account<Relationship, Warning, RawRelationship>

  /** What one relationship adds to the account: a repeated key passes in silence. */
  function Pushed(
      env: Env, names: Names, n: nat, seen: set<RelationshipKey>, raw: RawRelationship, rest: RelationshipAccount)
      : RelationshipAccount
  {
    match KeyFor(env, names, raw)
    case None => Warned(UnknownEnds(raw), rest)
    case Some(key) =>
      if key in seen then Passing(raw, rest)
      else if env.bind(raw.evidence) == [] then Warned(UnboundEnds(raw), rest)
      else Keeping(RelationshipOf(env, n, key, raw), rest)
  }

  /** The account of the relationships; at the cap the rest passes in silence. */
  function Relationships(env: Env, names: Names, n: nat, seen: set<RelationshipKey>, raws: seq<RawRelationship>)
      : RelationshipAccount
    decreases |raws|
  {
    if raws == [] then Account([], [], [])
    else if n >= MAX_RELATIONSHIPS then Account([], [], raws)
    else
      Pushed(env, names, n, seen, raws[0],
             Relationships(env, names, NextCount(env, names, n, seen, raws[0]), NextSeen(env, names, seen, raws[0]),
                           raws[1..]))
  }

  /** The keys taken after the list. */
  function SeenAfter(env: Env, names: Names, n: nat, seen: set<RelationshipKey>, raws: seq<RawRelationship>)
      : set<RelationshipKey>
    decreases |raws|
  {
    if raws == [] || n >= MAX_RELATIONSHIPS then seen
    else
      SeenAfter(env, names, NextCount(env, names, n, seen, raws[0]), NextSeen(env, names, seen, raws[0]), raws[1..])
  }

  lemma RelationshipTurn(
      env: Env, names: Names, n: nat, seen: set<RelationshipKey>, raws: seq<RawRelationship>, k: nat)
    requires k < |raws| && n < MAX_RELATIONSHIPS
    ensures var more, taken := NextCount(env, names, n, seen, raws[k]), NextSeen(env, names, seen, raws[k]);
            && Relationships(env, names, n, seen, raws[k..])
               == Pushed(env, names, n, seen, raws[k], Relationships(env, names, more, taken, raws[k + 1..]))
            && SeenAfter(env, names, n, seen, raws[k..]) == SeenAfter(env, names, more, taken, raws[k + 1..])
  {
    hide KeyFor, Pushed, NextCount, NextSeen;
    assert raws[k..][1..] == raws[k + 1..];
  }

  lemma RelationshipsDone(env: Env, names: Names, n: nat, seen: set<RelationshipKey>, raws: seq<RawRelationship>)
    requires raws == [] || n >= MAX_RELATIONSHIPS
    ensures Relationships(env, names, n, seen, raws) == Account([], [], raws)
    ensures SeenAfter(env, names, n, seen, raws) == seen
  {
  }

  /** The loop with its early exit does what the account says. */
  method AddRelationships(
      env: Env, names: Names, have: seq<Relationship>, seenBefore: set<RelationshipKey>, raws: seq<RawRelationship>,
      before: seq<Warning>)
      returns (out: seq<Relationship>, seen: set<RelationshipKey>, warnings: seq<Warning>)
    ensures out == have + Relationships(env, names, |have|, seenBefore, raws).kept
    ensures seen == SeenAfter(env, names, |have|, seenBefore, raws)
    ensures warnings == before + Relationships(env, names, |have|, seenBefore, raws).warned
  {
    hide Clipped, NormalizedName, Decimal, Relationships, SeenAfter;
    ghost var all := Relationships(env, names, |have|, seenBefore, raws);
    out, seen, warnings := have, seenBefore, before;
    var k := 0;
    assert raws[0..] == raws;
    while k < |raws| && |out| < MAX_RELATIONSHIPS
      invariant k <= |raws|
      invariant out + Relationships(env, names, |out|, seen, raws[k..]).kept == have + all.kept
      invariant SeenAfter(env, names, |out|, seen, raws[k..]) == SeenAfter(env, names, |have|, seenBefore, raws)
      invariant warnings + Relationships(env, names, |out|, seen, raws[k..]).warned == before + all.warned
    {
      RelationshipTurn(env, names, |out|, seen, raws, k);
      var raw := raws[k];
      k := k + 1;
      var from, to := NormalizedName(env, raw.from), NormalizedName(env, raw.to);
      if from !in names || to !in names {
        warnings := warnings + [UnknownRelationship(Clipped(raw.from, 60), Clipped(raw.to, 60))];
        continue;
      }
      var key := (names[from], names[to], raw.kind);
      if key in seen {
        assert seen + {key} == seen;
        continue;
      }
      seen := seen + {key};
      var evidence := env.bind(raw.evidence);
      if evidence == [] {
        warnings := warnings + [UnboundRelationship(Clipped(raw.from, 60), Clipped(raw.to, 60))];
        continue;
      }
      out := out + [Relationship("relationship-" + Decimal(|out| + 1), names[from], names[to], raw.kind,
                                 Clipped(raw.description, 240), evidence)];
    }
    RelationshipsDone(env, names, |out|, seen, raws[k..]);
  }

  lemma JoinedPushed(
      env: Env, names: Names, n: nat, seen: set<RelationshipKey>, raw: RawRelationship, x: RelationshipAccount,
      y: RelationshipAccount)
    ensures Joined(Pushed(env, names, n, seen, raw, x), y) == Pushed(env, names, n, seen, raw, Joined(x, y))
    ensures n + |Pushed(env, names, n, seen, raw, x).kept| == NextCount(env, names, n, seen, raw) + |x.kept|
  {
    hide KeyFor, RelationshipOf, UnknownEnds, UnboundEnds;
  }

  lemma {:induction false} RelationshipsConcat(
      env: Env, names: Names, n: nat, seen: set<RelationshipKey>, a: seq<RawRelationship>, b: seq<RawRelationship>)
    ensures var x := Relationships(env, names, n, seen, a);
            var after := SeenAfter(env, names, n, seen, a);
            && Relationships(env, names, n, seen, a + b)
               == Joined(x, Relationships(env, names, n + |x.kept|, after, b))
            && SeenAfter(env, names, n, seen, a + b) == SeenAfter(env, names, n + |x.kept|, after, b)
    decreases |a|
  {
    hide Pushed, NextCount, NextSeen, Joined, Relationships, SeenAfter;
    if a == [] || n >= MAX_RELATIONSHIPS {
      RelationshipsConcatDone(env, names, n, seen, a, b);
    } else {
      var rest := a[1..];
      RelationshipHead(env, names, n, seen, a, []);
      RelationshipHead(env, names, n, seen, a, b);
      assert a + [] == a && rest + [] == rest;
      var more, taken := NextCount(env, names, n, seen, a[0]), NextSeen(env, names, seen, a[0]);
      RelationshipsConcat(env, names, more, taken, rest, b);
      var x := Relationships(env, names, more, taken, rest);
      JoinedPushed(env, names, n, seen, a[0], x,
                   Relationships(env, names, more + |x.kept|, SeenAfter(env, names, more, taken, rest), b));
    }
  }

  lemma RelationshipsConcatDone(
      env: Env, names: Names, n: nat, seen: set<RelationshipKey>, a: seq<RawRelationship>, b: seq<RawRelationship>)
    requires a == [] || n >= MAX_RELATIONSHIPS
    ensures Relationships(env, names, n, seen, a).kept == [] && SeenAfter(env, names, n, seen, a) == seen
    ensures Relationships(env, names, n, seen, a + b)
         == Joined(Relationships(env, names, n, seen, a), Relationships(env, names, n, seen, b))
    ensures SeenAfter(env, names, n, seen, a + b) == SeenAfter(env, names, n, seen, b)
  {
    hide Relationships, SeenAfter;
    RelationshipsDone(env, names, n, seen, a);
    if a == [] {
      assert a + b == b;
      JoinedNothing(Relationships(env, names, n, seen, b));
    } else {
      RelationshipsDone(env, names, n, seen, b);
      RelationshipsDone(env, names, n, seen, a + b);
    }
  }

  lemma RelationshipHead(
      env: Env, names: Names, n: nat, seen: set<RelationshipKey>, a: seq<RawRelationship>, b: seq<RawRelationship>)
    requires a != [] && n < MAX_RELATIONSHIPS
    ensures var more, taken := NextCount(env, names, n, seen, a[0]), NextSeen(env, names, seen, a[0]);
            && Relationships(env, names, n, seen, a + b)
               == Pushed(env, names, n, seen, a[0], Relationships(env, names, more, taken, a[1..] + b))
            && SeenAfter(env, names, n, seen, a + b) == SeenAfter(env, names, more, taken, a[1..] + b)
  {
    hide Pushed, NextCount, NextSeen, Relationships, SeenAfter;
    var all := a + b;
    RelationshipTurn(env, names, n, seen, all, 0);
    assert all[0..] == all && all[1..] == a[1..] + b && all[0] == a[0];
  }

  /** The cap is not reached before the last relationship. */
  predicate RelationshipsFit(env: Env, names: Names, n: nat, seen: set<RelationshipKey>, raws: seq<RawRelationship>) {
    raws == [] || n + |RelationshipsFrom(env, names, n, seen, raws[..|raws| - 1])| < MAX_RELATIONSHIPS
  }

  /** No resolvable relationship repeats a key, or uses one that is taken. */
  ghost predicate NoRepeats(env: Env, names: Names, seen: set<RelationshipKey>, raws: seq<RawRelationship>) {
    && (forall i :: 0 <= i < |raws| && KeyFor(env, names, raws[i]).Some? ==> KeyFor(env, names, raws[i]).value !in seen)
    && forall i, j :: 0 <= i < j < |raws| && KeyFor(env, names, raws[i]).Some? ==>
         KeyFor(env, names, raws[i]) != KeyFor(env, names, raws[j])
  }

  lemma NoRepeatsHead(env: Env, names: Names, seen: set<RelationshipKey>, raws: seq<RawRelationship>)
    requires raws != []
    ensures var head := KeyFor(env, names, raws[0]);
            NoRepeats(env, names, seen, raws)
            <==> (head.Some? ==> head.value !in seen)
                 && NoRepeats(env, names, NextSeen(env, names, seen, raws[0]), raws[1..])
  {
    hide KeyFor;
    var rest := raws[1..];
    assert forall i :: 0 <= i < |rest| ==> rest[i] == raws[i + 1];
    assert forall i :: 0 < i < |raws| ==> raws[i] == rest[i - 1];
  }

  lemma {:induction false} RelationshipsKept(
      env: Env, names: Names, n: nat, seen: set<RelationshipKey>, raws: seq<RawRelationship>)
    requires n <= MAX_RELATIONSHIPS
    ensures var a := Relationships(env, names, n, seen, raws);
            && a.kept == Take(RelationshipsFrom(env, names, n, seen, raws), MAX_RELATIONSHIPS - n)
            && |a.kept| + |a.warned| + |a.silent| == |raws|
    decreases |raws|
  {
    hide KeyFor, RelationshipOf, NextSeen, Pushed, Keeps, Take;
    if raws == [] || n == MAX_RELATIONSHIPS {
      TakeNothing(RelationshipsFrom(env, names, n, seen, raws), MAX_RELATIONSHIPS - n);
    } else {
      var rest := raws[1..];
      var more, taken := NextCount(env, names, n, seen, raws[0]), NextSeen(env, names, seen, raws[0]);
      RelationshipsKept(env, names, more, taken, rest);
      PushedMeans(env, names, n, seen, raws[0], Relationships(env, names, more, taken, rest));
      if Keeps(env, names, seen, raws[0]) {
        TakeFirst(RelationshipOf(env, n, KeyFor(env, names, raws[0]).value, raws[0]),
                  RelationshipsFrom(env, names, more, taken, rest), MAX_RELATIONSHIPS - n);
      } else {
        assert RelationshipsFrom(env, names, n, seen, raws) == RelationshipsFrom(env, names, more, taken, rest);
      }
    }
  }

  lemma {:induction false} RelationshipsPassIff(
      env: Env, names: Names, n: nat, seen: set<RelationshipKey>, raws: seq<RawRelationship>)
    requires n <= MAX_RELATIONSHIPS
    ensures Relationships(env, names, n, seen, raws).silent == []
            <==> RelationshipsFit(env, names, n, seen, raws) && NoRepeats(env, names, seen, raws)
    decreases |raws|
  {
    hide KeyFor, RelationshipOf, NoRepeats, NextSeen, Pushed, Keeps;
    if raws == [] {
      NothingRepeats(env, names, seen);
    } else if n < MAX_RELATIONSHIPS {
      var rest := raws[1..];
      var more, taken := NextCount(env, names, n, seen, raws[0]), NextSeen(env, names, seen, raws[0]);
      assert rest != [] ==> raws[..|raws| - 1][1..] == rest[..|rest| - 1];
      NoRepeatsHead(env, names, seen, raws);
      RelationshipsPassIff(env, names, more, taken, rest);
      PushedMeans(env, names, n, seen, raws[0], Relationships(env, names, more, taken, rest));
    }
  }

  /**
   Leaving at the cap is filtering and truncating; every relationship is kept, warned about or passed over
   in silence; and none is passed over exactly when the list fits and no key repeats.
   */
  lemma RelationshipsMean(env: Env, names: Names, n: nat, seen: set<RelationshipKey>, raws: seq<RawRelationship>)
    requires n <= MAX_RELATIONSHIPS
    ensures var a := Relationships(env, names, n, seen, raws);
            && a.kept == Take(RelationshipsFrom(env, names, n, seen, raws), MAX_RELATIONSHIPS - n)
            && |a.kept| + |a.warned| + |a.silent| == |raws|
            && (a.silent == [] <==> RelationshipsFit(env, names, n, seen, raws) && NoRepeats(env, names, seen, raws))
  {
    hide Relationships, RelationshipsFrom, RelationshipsFit, NoRepeats, Take;
    RelationshipsKept(env, names, n, seen, raws);
    RelationshipsPassIff(env, names, n, seen, raws);
  }

  lemma PushedMeans(
      env: Env, names: Names, n: nat, seen: set<RelationshipKey>, raw: RawRelationship, x: RelationshipAccount)
    ensures var key, y := KeyFor(env, names, raw), Pushed(env, names, n, seen, raw, x);
            && |y.kept| + |y.warned| + |y.silent| == |x.kept| + |x.warned| + |x.silent| + 1
            && (Keeps(env, names, seen, raw) ==> key.Some?)
            && y.kept == (if Keeps(env, names, seen, raw) then [RelationshipOf(env, n, key.value, raw)] else []) + x.kept
            && (y.silent == [] <==> x.silent == [] && (key.Some? ==> key.value !in seen))
  {
    hide KeyFor, RelationshipOf, UnknownEnds, UnboundEnds;
  }

  lemma NothingRepeats(env: Env, names: Names, seen: set<RelationshipKey>)
    ensures NoRepeats(env, names, seen, [])
  {
  }

  /** Both ends are indexed, keys are distinct, evidence is bound and numbers run on. */
  ghost predicate Connected(ids: set<string>, rs: seq<Relationship>, n: nat) {
    && (forall i :: 0 <= i < |rs| ==>
          && rs[i].from in ids && rs[i].to in ids && rs[i].evidence != []
          && rs[i].id == "relationship-" + Decimal(n + i + 1))
    && forall i, j :: 0 <= i < j < |rs| ==> KeyOf(rs[i]) != KeyOf(rs[j])
  }

  lemma {:induction false} RelationshipsAreSound(
      env: Env, names: Names, n: nat, seen: set<RelationshipKey>, raws: seq<RawRelationship>)
    ensures var rs := RelationshipsFrom(env, names, n, seen, raws);
            Connected(names.Values, rs, n) && forall i :: 0 <= i < |rs| ==> KeyOf(rs[i]) !in seen
    decreases |raws|
  {
    hide KeyFor, RelationshipOf, Decimal, NextSeen, Keeps;
    if raws != [] {
      var raw, taken := raws[0], NextSeen(env, names, seen, raws[0]);
      RelationshipsAreSound(env, names, NextCount(env, names, n, seen, raw), taken, raws[1..]);
      KeptRelationship(env, names, n, seen, raw);
    }
  }

  lemma KeptRelationship(env: Env, names: Names, n: nat, seen: set<RelationshipKey>, raw: RawRelationship)
    ensures seen <= NextSeen(env, names, seen, raw)
    ensures Keeps(env, names, seen, raw) ==>
              && KeyFor(env, names, raw).Some?
              && var r := RelationshipOf(env, n, KeyFor(env, names, raw).value, raw);
                 && r.from in names.Values && r.to in names.Values && r.evidence != []
                 && r.id == "relationship-" + Decimal(n + 1)
                 && KeyOf(r) !in seen && KeyOf(r) in NextSeen(env, names, seen, raw)
  {
    hide Clipped, NormalizedName, Decimal;
  }

  // Data flows.

  function StepsFrom(env: Env, names: Names, raws: seq<RawStep>): seq<FlowStep> {
    if raws == [] then []
    else
      var key := NormalizedName(env, raws[0].componentName);
      (if key in names then [FlowStep(names[key], Clipped(raws[0].action, 200), env.bind(raws[0].evidence))] else [])
      + StepsFrom(env, names, raws[1..])
  }

  /** Some step carries bound evidence. */
  predicate SomeEvidence(steps: seq<FlowStep>) {
    exists i :: 0 <= i < |steps| && steps[i].evidence != []
  }

  method KeepSteps(env: Env, names: Names, raws: seq<RawStep>) returns (out: seq<FlowStep>, bound: nat)
    ensures out == StepsFrom(env, names, Take(raws, MAX_FLOW_STEPS))
    ensures bound == 0 <==> !SomeEvidence(out)
  {
    hide Clipped, NormalizedName, Take, SomeEvidence, StepsFrom;
    var taken := Take(raws, MAX_FLOW_STEPS);
    assert taken[0..] == taken;
    out, bound := [], 0;
    NoEvidence();
    for k := 0 to |taken|
      invariant out + StepsFrom(env, names, taken[k..]) == StepsFrom(env, names, taken)
      invariant bound == 0 <==> !SomeEvidence(out)
    {
      FirstStep(env, names, taken, k);
      var key := NormalizedName(env, taken[k].componentName);
      if key in names {
        var step := FlowStep(names[key], Clipped(taken[k].action, 200), env.bind(taken[k].evidence));
        SomeEvidenceExtends(out, step);
        bound := bound + |step.evidence|;
        out := out + [step];
      }
    }
    NoSteps(env, names);
    assert taken[|taken|..] == [];
  }

  lemma NoSteps(env: Env, names: Names)
    ensures StepsFrom(env, names, []) == []
  {
  }

  lemma FirstStep(env: Env, names: Names, raws: seq<RawStep>, k: nat)
    requires k < |raws|
    ensures var key, rest := NormalizedName(env, raws[k].componentName), StepsFrom(env, names, raws[k + 1..]);
            StepsFrom(env, names, raws[k..])
            == if key !in names then rest
               else [FlowStep(names[key], Clipped(raws[k].action, 200), env.bind(raws[k].evidence))] + rest
  {
    hide Clipped, NormalizedName;
    assert raws[k..][1..] == raws[k + 1..];
  }

  lemma NoEvidence()
    ensures !SomeEvidence([])
  {
  }

  lemma SomeEvidenceExtends(steps: seq<FlowStep>, step: FlowStep)
    ensures SomeEvidence(steps + [step]) <==> SomeEvidence(steps) || step.evidence != []
  {
    var more := steps + [step];
    assert more[|steps|] == step;
    assert forall i :: 0 <= i < |steps| ==> more[i] == steps[i];
  }

  function FlowOf(env: Env, names: Names): Keeper<RawFlow, Flow> {
    (n: nat, raw: RawFlow) =>
      var steps := StepsFrom(env, names, Take(raw.steps, MAX_FLOW_STEPS));
      if |steps| < 2 || !SomeEvidence(steps) then None
      else Some(Flow("flow-" + Decimal(n + 1), Clipped(raw.name, 120), Clipped(raw.description, 480), steps))
  }

  function FlowWarning(raw: RawFlow): Warning {
    DroppedFlow(Clipped(raw.name, 120))
  }

  function Flows(env: Env, names: Names, n: nat, raws: seq<RawFlow>): Account<Flow, Warning, RawFlow> {
    Limited(FlowOf(env, names), FlowWarning, n, MAX_FLOWS, raws)
  }

  /** The loop with its early exit does what the account says. */
  method AddFlows(env: Env, names: Names, have: seq<Flow>, raws: seq<RawFlow>, before: seq<Warning>)
      returns (out: seq<Flow>, warnings: seq<Warning>)
    ensures out == have + Flows(env, names, |have|, raws).kept
    ensures warnings == before + Flows(env, names, |have|, raws).warned
  {
    hide Clipped, Decimal, Take, SomeEvidence, StepsFrom, Limited;
    var f := FlowOf(env, names);
    out, warnings := have, before;
    var k := 0;
    assert raws[0..] == raws;
    while k < |raws| && |out| < MAX_FLOWS
      invariant k <= |raws|
      invariant out + Limited(f, FlowWarning, |out|, MAX_FLOWS, raws[k..]).kept
             == have + Limited(f, FlowWarning, |have|, MAX_FLOWS, raws).kept
      invariant warnings + Limited(f, FlowWarning, |out|, MAX_FLOWS, raws[k..]).warned
             == before + Limited(f, FlowWarning, |have|, MAX_FLOWS, raws).warned
    {
      FirstLimited(f, FlowWarning, |out|, MAX_FLOWS, raws, k);
      var raw := raws[k];
      k := k + 1;
      var name := Clipped(raw.name, 120);
      var steps, bound := KeepSteps(env, names, raw.steps);
      if |steps| < 2 || bound == 0 {
        warnings := warnings + [DroppedFlow(name)];
        continue;
      }
      out := out + [Flow("flow-" + Decimal(|out| + 1), name, Clipped(raw.description, 480), steps)];
    }
    LimitReached(f, FlowWarning, |out|, MAX_FLOWS, raws[k..]);
  }

  ghost predicate SoundFlow(ids: set<string>, f: Flow) {
    && 2 <= |f.steps| <= MAX_FLOW_STEPS && SomeEvidence(f.steps)
    && forall i :: 0 <= i < |f.steps| ==> f.steps[i].componentId in ids
  }

  ghost predicate SoundFlows(ids: set<string>, fs: seq<Flow>) {
    forall i :: 0 <= i < |fs| ==> SoundFlow(ids, fs[i]) && fs[i].id == "flow-" + Decimal(i + 1)
  }

  lemma {:induction false} StepsAreSound(env: Env, names: Names, raws: seq<RawStep>)
    ensures var steps := StepsFrom(env, names, raws);
            |steps| <= |raws| && forall i :: 0 <= i < |steps| ==> steps[i].componentId in names.Values
  {
    hide Clipped, NormalizedName;
    if raws != [] {
      StepsAreSound(env, names, raws[1..]);
    }
  }

  lemma FlowIsSound(env: Env, names: Names, n: nat, raw: RawFlow)
    requires FlowOf(env, names)(n, raw).Some?
    ensures var f := FlowOf(env, names)(n, raw).value;
            && SoundFlow(names.Values, f) && f.id == "flow-" + Decimal(n + 1)
            && f.steps == StepsFrom(env, names, Take(raw.steps, MAX_FLOW_STEPS))
  {
    hide StepsFrom, SomeEvidence, Clipped, Decimal;
    StepsAreSound(env, names, Take(raw.steps, MAX_FLOW_STEPS));
  }

  /** Flows keep two to ten steps, all of indexed components, with some bound evidence. */
  lemma FlowsAreSound(env: Env, names: Names, raws: seq<RawFlow>)
    ensures SoundFlows(names.Values, Filtered(FlowOf(env, names), 0, raws))
  {
    hide StepsFrom, SomeEvidence, Clipped, Decimal, SoundFlow, Filtered;
    forall n: nat, raw: RawFlow | FlowOf(env, names)(n, raw).Some?
      ensures var f := FlowOf(env, names)(n, raw).value;
              SoundFlow(names.Values, f) && f.id == "flow-" + Decimal(n + 1)
    {
      FlowIsSound(env, names, n, raw);
    }
    ghost var good := (n: nat, f: Flow) => SoundFlow(names.Values, f) && f.id == "flow-" + Decimal(n + 1);
    KeptSatisfy(FlowOf(env, names), 0, raws, good);
    var kept := Filtered(FlowOf(env, names), 0, raws);
    forall i | 0 <= i < |kept| ensures SoundFlow(names.Values, kept[i]) && kept[i].id == "flow-" + Decimal(i + 1) {
      assert good(0 + i, kept[i]);
    }
  }

  // The whole map.

  function AllDetails(dives: seq<RawDeepDive>): seq<RawDetail> {
    if dives == [] then [] else dives[0].components + AllDetails(dives[1..])
  }

  function AllRelationships(dives: seq<RawDeepDive>): seq<RawRelationship> {
    if dives == [] then [] else dives[0].relationships + AllRelationships(dives[1..])
  }

  function AllFlows(dives: seq<RawDeepDive>): seq<RawFlow> {
    if dives == [] then [] else dives[0].flows + AllFlows(dives[1..])
  }

  /** What the deep dives have made so far. */
  datatype Draft = Draft(
    components: seq<Component>, relationships: nat, seen: set<RelationshipKey>, flows: nat)

  function AfterDive(env: Env, names: Names, d: Draft, dive: RawDeepDive): Draft {
    Draft(MergedAll(env, names, d.components, dive.components),
          d.relationships + |Relationships(env, names, d.relationships, d.seen, dive.relationships).kept|,
          SeenAfter(env, names, d.relationships, d.seen, dive.relationships),
          d.flows + |Flows(env, names, d.flows, dive.flows).kept|)
  }

  function DiveWarnings(env: Env, names: Names, d: Draft, dive: RawDeepDive): seq<Warning> {
    DetailsWarnings(env, names, d.components, dive.components)
    + Relationships(env, names, d.relationships, d.seen, dive.relationships).warned
    + Flows(env, names, d.flows, dive.flows).warned
  }

  /** The warnings of the deep dives, in the order in which they are given. */
  function DivesWarnings(env: Env, names: Names, d: Draft, dives: seq<RawDeepDive>): seq<Warning>
    decreases |dives|
  {
    if dives == [] then []
    else DiveWarnings(env, names, d, dives[0]) + DivesWarnings(env, names, AfterDive(env, names, d, dives[0]), dives[1..])
  }

  /** The lists the draft and the remaining dives will come to. */
  ghost predicate Comes(
      env: Env, names: Names, d: Draft, rs: seq<Relationship>, fs: seq<Flow>, dives: seq<RawDeepDive>,
      cs: seq<Component>, allRelationships: seq<Relationship>, allFlows: seq<Flow>)
  {
    && MergedAll(env, names, d.components, AllDetails(dives)) == cs
    && rs + Relationships(env, names, d.relationships, d.seen, AllRelationships(dives)).kept == allRelationships
    && fs + Flows(env, names, d.flows, AllFlows(dives)).kept == allFlows
  }

  lemma ComesOn(
      env: Env, names: Names, d: Draft, rs: seq<Relationship>, fs: seq<Flow>, dives: seq<RawDeepDive>,
      cs: seq<Component>, allRelationships: seq<Relationship>, allFlows: seq<Flow>)
    requires dives != [] && Comes(env, names, d, rs, fs, dives, cs, allRelationships, allFlows)
    ensures Comes(env, names, AfterDive(env, names, d, dives[0]),
                  rs + Relationships(env, names, d.relationships, d.seen, dives[0].relationships).kept,
                  fs + Flows(env, names, d.flows, dives[0].flows).kept, dives[1..], cs, allRelationships, allFlows)
  {
    hide MergedAll, Relationships, SeenAfter, Limited;
    var dive, rest := dives[0], dives[1..];
    MergedConcat(env, names, d.components, dive.components, AllDetails(rest));
    RelationshipsConcat(env, names, d.relationships, d.seen, dive.relationships, AllRelationships(rest));
    LimitedConcat(FlowOf(env, names), FlowWarning, d.flows, MAX_FLOWS, dive.flows, AllFlows(rest));
  }

  lemma ComesToNothingMore(
      env: Env, names: Names, d: Draft, rs: seq<Relationship>, fs: seq<Flow>, cs: seq<Component>,
      allRelationships: seq<Relationship>, allFlows: seq<Flow>)
    requires Comes(env, names, d, rs, fs, [], cs, allRelationships, allFlows)
    ensures d.components == cs && rs == allRelationships && fs == allFlows
  {
  }

  /** The nested loops over all deep dives equal one pass over their concatenated lists. */
  method MergeDives(env: Env, names: Names, start: seq<Component>, dives: seq<RawDeepDive>, before: seq<Warning>)
      returns (cs: seq<Component>, rs: seq<Relationship>, fs: seq<Flow>, warnings: seq<Warning>)
    requires Resolves(env, names, start) && SoundComponents(start)
    ensures cs == MergedAll(env, names, start, AllDetails(dives))
    ensures rs == Relationships(env, names, 0, {}, AllRelationships(dives)).kept
    ensures fs == Flows(env, names, 0, AllFlows(dives)).kept
    ensures warnings == before + DivesWarnings(env, names, Draft(start, 0, {}, 0), dives)
    ensures SoundComponents(cs) && SameSkeleton(start, cs)
  {
    hide Resolves, SoundComponents, Relationships, SeenAfter, Flows, MergedAll, DetailsWarnings, AllDetails,
         AllRelationships, AllFlows, Comes;
    cs, rs, fs, warnings := start, [], [], before;
    var seen: set<RelationshipKey> := {};
    ghost var finalCs := MergedAll(env, names, start, AllDetails(dives));
    ghost var finalRs := Relationships(env, names, 0, {}, AllRelationships(dives)).kept;
    ghost var finalFs := Flows(env, names, 0, AllFlows(dives)).kept;
    ghost var d := Draft(start, 0, {}, 0);
    ComesFromStart(env, names, start, dives);
    assert dives[0..] == dives;
    for k := 0 to |dives|
      invariant d == Draft(cs, |rs|, seen, |fs|)
      invariant Comes(env, names, d, rs, fs, dives[k..], finalCs, finalRs, finalFs)
      invariant warnings + DivesWarnings(env, names, d, dives[k..])
             == before + DivesWarnings(env, names, Draft(start, 0, {}, 0), dives)
      invariant Resolves(env, names, cs) && SoundComponents(cs) && SameSkeleton(start, cs)
    {
      assert dives[k..][1..] == dives[k + 1..];
      ComesOn(env, names, d, rs, fs, dives[k..], finalCs, finalRs, finalFs);
      d := AfterDive(env, names, d, dives[k]);
      cs, warnings := MergeDetails(env, names, cs, dives[k].components, warnings);
      rs, seen, warnings := AddRelationships(env, names, rs, seen, dives[k].relationships, warnings);
      fs, warnings := AddFlows(env, names, fs, dives[k].flows, warnings);
    }
    assert dives[|dives|..] == [];
    ComesToNothingMore(env, names, d, rs, fs, finalCs, finalRs, finalFs);
  }

  lemma ComesFromStart(env: Env, names: Names, start: seq<Component>, dives: seq<RawDeepDive>)
    ensures Comes(env, names, Draft(start, 0, {}, 0), [], [], dives,
                  MergedAll(env, names, start, AllDetails(dives)),
                  Relationships(env, names, 0, {}, AllRelationships(dives)).kept,
                  Flows(env, names, 0, AllFlows(dives)).kept)
  {
    hide MergedAll, Relationships, Flows;
  }

  predicate WithinCaps(m: CodebaseMap) {
    && 1 <= |m.components| <= MAX_COMPONENTS && |m.technologies| <= MAX_TECHNOLOGIES
    && |m.relationships| <= MAX_RELATIONSHIPS && |m.flows| <= MAX_FLOWS && |m.entryPoints| <= MAX_ENTRY_POINTS
  }

  function Ids(cs: seq<Component>): set<string> {
    set i | 0 <= i < |cs| :: cs[i].id
  }

  /** Referential integrity, uniqueness, evidence and caps. */
  ghost predicate WellFormed(m: CodebaseMap) {
    && WithinCaps(m)
    && SoundComponents(m.components)
    && (forall i :: 0 <= i < |m.technologies| ==> m.technologies[i].evidence != [])
    && SoundEntryPoints(Ids(m.components), m.entryPoints)
    && Connected(Ids(m.components), m.relationships, 0)
    && SoundFlows(Ids(m.components), m.flows)
  }

  lemma NamesAreIds(env: Env, names: Names, cs: seq<Component>, ds: seq<Component>)
    requires Resolves(env, names, cs) && SameSkeleton(cs, ds)
    ensures names.Values <= Ids(ds)
  {
    hide NormalizedName;
    forall id | id in names.Values ensures id in Ids(ds) {
      var n :| n in names && names[n] == id;
      var i :| 0 <= i < |cs| && cs[i].id == id && NormalizedName(env, cs[i].name) == n;
      assert ds[i].id == id;
    }
  }

  lemma KeptAreConnected(env: Env, names: Names, ids: set<string>, raws: seq<RawRelationship>)
    requires names.Values <= ids
    ensures var rs := Relationships(env, names, 0, {}, raws).kept;
            Connected(ids, rs, 0) && |rs| <= MAX_RELATIONSHIPS
  {
    hide Decimal, Relationships, RelationshipsFrom, RelationshipsFit, NoRepeats;
    RelationshipsMean(env, names, 0, {}, raws);
    RelationshipsAreSound(env, names, 0, {}, raws);
  }

  lemma KeptFlowsAreSound(env: Env, names: Names, ids: set<string>, raws: seq<RawFlow>)
    requires names.Values <= ids
    ensures var fs := Flows(env, names, 0, raws).kept;
            SoundFlows(ids, fs) && |fs| <= MAX_FLOWS
  {
    hide Decimal, SomeEvidence, Limited, Filtered, FlowOf, Fits;
    LimitedMeans(FlowOf(env, names), FlowWarning, 0, MAX_FLOWS, raws);
    FlowsAreSound(env, names, raws);
  }

  lemma EntryPointsStaySound(ids: set<string>, env: Env, names: Names, raws: seq<RawEntryPoint>)
    requires names.Values <= ids
    ensures SoundEntryPoints(ids, Filtered(EntryPointOf(env, names), 0, raws))
    ensures |Filtered(EntryPointOf(env, names), 0, raws)| <= |raws|
  {
    hide Decimal, Filtered;
    EntryPointsAreSound(env, names, raws);
  }

  datatype Header = Header(id: string, repositories: seq<FrozenRepository>, provider: string)

  /** The components that the survey keeps, with their index and the warnings for the others. */
  function SkeletonOf(env: Env, survey: RawSurvey): Skeleton {
    SurveyedAll(env, Take(survey.components, MAX_COMPONENTS))
  }

  /** The map a survey and its deep dives stand for. */
  ghost predicate Stands(env: Env, header: Header, survey: RawSurvey, dives: seq<RawDeepDive>, m: CodebaseMap) {
    var skeleton := SkeletonOf(env, survey);
    var names := skeleton.names;
    && m.id == header.id && m.repositories == header.repositories && m.provider == header.provider
    && m.summary == Clipped(survey.summary, 700) && m.style == Clipped(survey.style, 240)
    && m.technologies == Filtered(TechnologyOf(env), 0, Take(survey.technologies, MAX_TECHNOLOGIES))
    && m.components == MergedAll(env, names, skeleton.components, AllDetails(dives))
    && m.relationships == Relationships(env, names, 0, {}, AllRelationships(dives)).kept
    && m.flows == Flows(env, names, 0, AllFlows(dives)).kept
    && m.entryPoints == Filtered(EntryPointOf(env, names), 0, Take(survey.entryPoints, MAX_ENTRY_POINTS))
  }

  /** Every warning, in the order in which it is given. */
  function Warnings(env: Env, survey: RawSurvey, dives: seq<RawDeepDive>): seq<Warning> {
    var skeleton := SkeletonOf(env, survey);
    var names := skeleton.names;
    skeleton.warnings
    + Refused(TechnologyOf(env), TechnologyWarning, 0, Take(survey.technologies, MAX_TECHNOLOGIES))
    + Refused(EntryPointOf(env, names), EntryPointWarning(env, names), 0, Take(survey.entryPoints, MAX_ENTRY_POINTS))
    + DivesWarnings(env, names, Draft(skeleton.components, 0, {}, 0), dives)
  }

  /**
   Builds the map before screening: exactly what the submission stands for, well formed, with exactly the
   warnings due. Nothing is built exactly when no surveyed component is kept.
   */
  method Build(env: Env, header: Header, survey: RawSurvey, dives: seq<RawDeepDive>, before: seq<Warning>)
      returns (r: Option<CodebaseMap>, warnings: seq<Warning>)
    ensures r.None? <==> SkeletonOf(env, survey).components == []
    ensures r.Some? ==> Stands(env, header, survey, dives, r.value) && WellFormed(r.value)
    ensures r.Some? ==> warnings == before + Warnings(env, survey, dives)
    ensures r.Some? && IdsIdentify(env) ==> DistinctIds(r.value.components)
  {
    hide Clipped, SurveyedAll, Indexed, SoundComponents, MergedAll, Relationships, Flows, EntryPointOf, TechnologyOf,
         AllDetails, AllRelationships, AllFlows, Connected, SoundFlows, SoundEntryPoints, DivesWarnings, Filtered,
         Refused, IdsIdentify, DistinctIds, SameSkeleton, Resolves, Ids;
    var skeleton := SurveyComponents(env, survey.components);
    warnings := before + skeleton.warnings;
    if skeleton.components == [] { return None, warnings; }
    IndexResolves(env, skeleton);
    var names := skeleton.names;
    var technologies, entryPoints, components, relationships, flows;
    technologies, warnings := KeepTechnologies(env, survey.technologies, warnings);
    entryPoints, warnings := KeepEntryPoints(env, names, survey.entryPoints, warnings);
    components, relationships, flows, warnings := MergeDives(env, names, skeleton.components, dives, warnings);
    r := Some(CodebaseMap(
      header.id, header.repositories, header.provider, Clipped(survey.summary, 700), Clipped(survey.style, 240),
      technologies, components, relationships, flows, entryPoints));
    var ids := Ids(components);
    NamesAreIds(env, names, skeleton.components, components);
    TechnologiesAreSound(env, Take(survey.technologies, MAX_TECHNOLOGIES));
    EntryPointsStaySound(ids, env, names, Take(survey.entryPoints, MAX_ENTRY_POINTS));
    KeptAreConnected(env, names, ids, AllRelationships(dives));
    KeptFlowsAreSound(env, names, ids, AllFlows(dives));
    SameLength(skeleton.components, components);
    if IdsIdentify(env) {
      SurveyedIdsAreDistinct(env, skeleton);
      DistinctIdsStay(skeleton.components, components);
    }
  }

  lemma SameLength(cs: seq<Component>, ds: seq<Component>)
    requires SameSkeleton(cs, ds)
    ensures |ds| == |cs|
  {
  }

  lemma IndexResolves(env: Env, s: Skeleton)
    requires Indexed(env, s)
    ensures Resolves(env, s.names, s.components)
  {
    hide NormalizedName;
  }

  // Component ids.

  /** Ids of components in different repositories, or with names that differ after normalization, differ. */
  ghost predicate IdsIdentify(env: Env) {
    forall r, n, q, m :: env.componentId(r, n) == env.componentId(q, m) ==>
      r == q && NormalizedName(env, n) == NormalizedName(env, m)
  }

  predicate DistinctIds(cs: seq<Component>) {
    forall i, j :: 0 <= i < j < |cs| ==> cs[i].id != cs[j].id
  }

  lemma SurveyedIdsAreDistinct(env: Env, s: Skeleton)
    requires Indexed(env, s) && IdsIdentify(env)
    ensures DistinctIds(s.components)
  {
    hide NormalizedName;
  }

  lemma DistinctIdsStay(cs: seq<Component>, ds: seq<Component>)
    requires DistinctIds(cs) && SameSkeleton(cs, ds)
    ensures DistinctIds(ds)
  {
  }

  /** With distinct ids, a detail is merged into the component of the name it gives. */
  lemma DetailReachesItsComponent(env: Env, names: Names, cs: seq<Component>, d: RawDetail)
    requires Resolves(env, names, cs) && DistinctIds(cs) && NormalizedName(env, d.name) in names
    ensures Target(env, names, cs, d).Some?
    ensures NormalizedName(env, cs[Target(env, names, cs, d).value].name) == NormalizedName(env, d.name)
  {
    hide NormalizedName;
    KnownNameHasTarget(env, names, cs, d);
    var n := NormalizedName(env, d.name);
    assert Leads(env, cs, n, names[n]);
    var i :| 0 <= i < |cs| && cs[i].id == names[n] && NormalizedName(env, cs[i].name) == n;
  }
}
