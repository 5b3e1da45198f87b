/**
 Screening of a map's narrative: fields that repeat credentials or repository source are refused or
 replaced. Three traversals of the map, written separately, have to agree on one flattened field index.
 */
module Screening {
  import opened Common
  import opened Model
  import opened Text
  import opened Maps
  import opened Fingerprints

  // Replacing one field by running a cursor over the map.

  /** Index update, with an index out of range changing nothing. */
  function Updated(s: seq<string>, i: int, text: string): (r: seq<string>)
    ensures |r| == |s|
  {
    if 0 <= i < |s| then s[i := text] else s
  }

  lemma UpdatedConcat(a: seq<string>, b: seq<string>, i: int, text: string)
    ensures Updated(a + b, i, text) == Updated(a, i, text) + Updated(b, i - |a|, text)
  {
  }

  /** `y` is `x` with its flattened field `i` replaced, its structure untouched. */
  ghost predicate Rewritten<T>(x: seq<T>, y: seq<T>, f: T -> seq<string>, frame: T -> T, i: int, text: string) {
    Each(y, frame) == Each(x, frame) && Flat(y, f) == Updated(Flat(x, f), i, text)
  }

  lemma RewrittenExtends<T>(
      x: seq<T>, k: nat, y: seq<T>, item: T, f: T -> seq<string>, frame: T -> T, i: int, text: string)
    requires k < |x| && Rewritten(x[..k], y, f, frame, i, text)
    requires frame(item) == frame(x[k])
    requires f(item) == Updated(f(x[k]), i - |Flat(x[..k], f)|, text)
    ensures Rewritten(x[..k + 1], y + [item], f, frame, i, text)
    ensures |Flat(x[..k + 1], f)| == |Flat(x[..k], f)| + |f(x[k])|
  {
    assert x[..k + 1][..k] == x[..k] && (y + [item])[..|y|] == y;
    UpdatedConcat(Flat(x[..k], f), f(x[k]), i, text);
    assert |Each(y, frame)| == k;
    assert Each(x[..k + 1], frame) == Each(x[..k], frame) + [frame(x[k])];
    assert Each(y + [item], frame) == Each(y, frame) + [frame(item)];
  }

  lemma NothingRewritten<T>(x: seq<T>, f: T -> seq<string>, frame: T -> T, i: int, text: string)
    ensures Rewritten(x[..0], [], f, frame, i, text) && Flat(x[..0], f) == []
  {
    assert x[..0] == [];
  }

  /** What the cursor does to one field. */
  function Applied(field: string, cursor: nat, index: nat, text: string): string {
    if cursor == index then text else field
  }

  method ReplaceInTechnologies(items: seq<Technology>, start: nat, index: nat, text: string)
      returns (out: seq<Technology>, cursor: nat)
    ensures Rewritten(items, out, TechnologyFields, TechnologyFrame, index - start, text)
    ensures cursor == start + |Flat(items, TechnologyFields)|
  {
    hide Flat, Each, Rewritten;
    out, cursor := [], start;
    NothingRewritten(items, TechnologyFields, TechnologyFrame, index - start, text);
    for k := 0 to |items|
      invariant Rewritten(items[..k], out, TechnologyFields, TechnologyFrame, index - start, text)
      invariant cursor == start + |Flat(items[..k], TechnologyFields)|
    {
      var name := Applied(items[k].name, cursor, index, text);
      cursor := cursor + 1;
      var role := Applied(items[k].role, cursor, index, text);
      cursor := cursor + 1;
      var item := items[k].(name := name, role := role);
      RewrittenExtends(items, k, out, item, TechnologyFields, TechnologyFrame, index - start, text);
      out := out + [item];
    }
    assert items[..|items|] == items;
  }

  method ReplaceInInterfaces(items: seq<Interface>, start: nat, index: nat, text: string)
      returns (out: seq<Interface>, cursor: nat)
    ensures Rewritten(items, out, InterfaceFields, InterfaceFrame, index - start, text)
    ensures cursor == start + |Flat(items, InterfaceFields)|
  {
    hide Flat, Each, Rewritten;
    out, cursor := [], start;
    NothingRewritten(items, InterfaceFields, InterfaceFrame, index - start, text);
    for k := 0 to |items|
      invariant Rewritten(items[..k], out, InterfaceFields, InterfaceFrame, index - start, text)
      invariant cursor == start + |Flat(items[..k], InterfaceFields)|
    {
      var name := Applied(items[k].name, cursor, index, text);
      cursor := cursor + 1;
      var description := Applied(items[k].description, cursor, index, text);
      cursor := cursor + 1;
      var item := items[k].(name := name, description := description);
      RewrittenExtends(items, k, out, item, InterfaceFields, InterfaceFrame, index - start, text);
      out := out + [item];
    }
    assert items[..|items|] == items;
  }

  method ReplaceInConcerns(items: seq<Concern>, start: nat, index: nat, text: string)
      returns (out: seq<Concern>, cursor: nat)
    ensures Rewritten(items, out, ConcernFields, ConcernFrame, index - start, text)
    ensures cursor == start + |Flat(items, ConcernFields)|
  {
    hide Flat, Each, Rewritten;
    out, cursor := [], start;
    NothingRewritten(items, ConcernFields, ConcernFrame, index - start, text);
    for k := 0 to |items|
      invariant Rewritten(items[..k], out, ConcernFields, ConcernFrame, index - start, text)
      invariant cursor == start + |Flat(items[..k], ConcernFields)|
    {
      var item := items[k].(summary := Applied(items[k].summary, cursor, index, text));
      cursor := cursor + 1;
      RewrittenExtends(items, k, out, item, ConcernFields, ConcernFrame, index - start, text);
      out := out + [item];
    }
    assert items[..|items|] == items;
  }

  method ReplaceInComponent(c: Component, start: nat, index: nat, text: string)
      returns (out: Component, cursor: nat)
    ensures ComponentFrame(out) == ComponentFrame(c)
    ensures ComponentFields(out) == Updated(ComponentFields(c), index - start, text)
    ensures cursor == start + |ComponentFields(c)|
  {
    hide Flat, Each;
    cursor := start;
    var name := Applied(c.name, cursor, index, text);
    cursor := cursor + 1;
    var responsibility := Applied(c.responsibility, cursor, index, text);
    cursor := cursor + 1;
    var interfaces, concerns;
    interfaces, cursor := ReplaceInInterfaces(c.interfaces, cursor, index, text);
    concerns, cursor := ReplaceInConcerns(c.concerns, cursor, index, text);
    out := c.(name := name, responsibility := responsibility, interfaces := interfaces, concerns := concerns);
    var head, middle := [c.name, c.responsibility], Flat(c.interfaces, InterfaceFields);
    UpdatedConcat(head, middle, index - start, text);
    UpdatedConcat(head + middle, Flat(c.concerns, ConcernFields), index - start, text);
    assert [name, responsibility] == Updated(head, index - start, text);
  }

  method ReplaceInComponents(items: seq<Component>, start: nat, index: nat, text: string)
      returns (out: seq<Component>, cursor: nat)
    ensures Rewritten(items, out, ComponentFields, ComponentFrame, index - start, text)
    ensures cursor == start + |Flat(items, ComponentFields)|
  {
    hide Flat, Each, Rewritten, ComponentFields, ComponentFrame;
    out, cursor := [], start;
    NothingRewritten(items, ComponentFields, ComponentFrame, index - start, text);
    for k := 0 to |items|
      invariant Rewritten(items[..k], out, ComponentFields, ComponentFrame, index - start, text)
      invariant cursor == start + |Flat(items[..k], ComponentFields)|
    {
      var item;
      item, cursor := ReplaceInComponent(items[k], cursor, index, text);
      RewrittenExtends(items, k, out, item, ComponentFields, ComponentFrame, index - start, text);
      out := out + [item];
    }
    assert items[..|items|] == items;
  }

  method ReplaceInRelationships(items: seq<Relationship>, start: nat, index: nat, text: string)
      returns (out: seq<Relationship>, cursor: nat)
    ensures Rewritten(items, out, RelationshipFields, RelationshipFrame, index - start, text)
    ensures cursor == start + |Flat(items, RelationshipFields)|
  {
    hide Flat, Each, Rewritten;
    out, cursor := [], start;
    NothingRewritten(items, RelationshipFields, RelationshipFrame, index - start, text);
    for k := 0 to |items|
      invariant Rewritten(items[..k], out, RelationshipFields, RelationshipFrame, index - start, text)
      invariant cursor == start + |Flat(items[..k], RelationshipFields)|
    {
      var item := items[k].(description := Applied(items[k].description, cursor, index, text));
      cursor := cursor + 1;
      RewrittenExtends(items, k, out, item, RelationshipFields, RelationshipFrame, index - start, text);
      out := out + [item];
    }
    assert items[..|items|] == items;
  }

  method ReplaceInSteps(items: seq<FlowStep>, start: nat, index: nat, text: string)
      returns (out: seq<FlowStep>, cursor: nat)
    ensures Rewritten(items, out, StepFields, StepFrame, index - start, text)
    ensures cursor == start + |Flat(items, StepFields)|
  {
    hide Flat, Each, Rewritten;
    out, cursor := [], start;
    NothingRewritten(items, StepFields, StepFrame, index - start, text);
    for k := 0 to |items|
      invariant Rewritten(items[..k], out, StepFields, StepFrame, index - start, text)
      invariant cursor == start + |Flat(items[..k], StepFields)|
    {
      var item := items[k].(action := Applied(items[k].action, cursor, index, text));
      cursor := cursor + 1;
      RewrittenExtends(items, k, out, item, StepFields, StepFrame, index - start, text);
      out := out + [item];
    }
    assert items[..|items|] == items;
  }

  method ReplaceInFlow(f: Flow, start: nat, index: nat, text: string) returns (out: Flow, cursor: nat)
    ensures FlowFrame(out) == FlowFrame(f)
    ensures FlowFields(out) == Updated(FlowFields(f), index - start, text)
    ensures cursor == start + |FlowFields(f)|
  {
    hide Flat, Each;
    cursor := start;
    var name := Applied(f.name, cursor, index, text);
    cursor := cursor + 1;
    var description := Applied(f.description, cursor, index, text);
    cursor := cursor + 1;
    var steps;
    steps, cursor := ReplaceInSteps(f.steps, cursor, index, text);
    out := f.(name := name, description := description, steps := steps);
    UpdatedConcat([f.name, f.description], Flat(f.steps, StepFields), index - start, text);
    assert [name, description] == Updated([f.name, f.description], index - start, text);
  }

  method ReplaceInFlows(items: seq<Flow>, start: nat, index: nat, text: string)
      returns (out: seq<Flow>, cursor: nat)
    ensures Rewritten(items, out, FlowFields, FlowFrame, index - start, text)
    ensures cursor == start + |Flat(items, FlowFields)|
  {
    hide Flat, Each, Rewritten, FlowFields, FlowFrame;
    out, cursor := [], start;
    NothingRewritten(items, FlowFields, FlowFrame, index - start, text);
    for k := 0 to |items|
      invariant Rewritten(items[..k], out, FlowFields, FlowFrame, index - start, text)
      invariant cursor == start + |Flat(items[..k], FlowFields)|
    {
      var item;
      item, cursor := ReplaceInFlow(items[k], cursor, index, text);
      RewrittenExtends(items, k, out, item, FlowFields, FlowFrame, index - start, text);
      out := out + [item];
    }
    assert items[..|items|] == items;
  }

  method ReplaceInEntryPoints(items: seq<EntryPoint>, start: nat, index: nat, text: string)
      returns (out: seq<EntryPoint>, cursor: nat)
    ensures Rewritten(items, out, EntryPointFields, EntryPointFrame, index - start, text)
    ensures cursor == start + |Flat(items, EntryPointFields)|
  {
    hide Flat, Each, Rewritten;
    out, cursor := [], start;
    NothingRewritten(items, EntryPointFields, EntryPointFrame, index - start, text);
    for k := 0 to |items|
      invariant Rewritten(items[..k], out, EntryPointFields, EntryPointFrame, index - start, text)
      invariant cursor == start + |Flat(items[..k], EntryPointFields)|
    {
      var item := items[k].(name := Applied(items[k].name, cursor, index, text));
      cursor := cursor + 1;
      RewrittenExtends(items, k, out, item, EntryPointFields, EntryPointFrame, index - start, text);
      out := out + [item];
    }
    assert items[..|items|] == items;
  }

  lemma UpdatedSplit(
      a: seq<string>, b: seq<string>, c: seq<string>, d: seq<string>, e: seq<string>, f: seq<string>, i: int, text: string)
    ensures Updated(a + b + c + d + e + f, i, text)
         == Updated(a, i, text) + Updated(b, i - |a|, text) + Updated(c, i - |a| - |b|, text)
            + Updated(d, i - |a| - |b| - |c|, text) + Updated(e, i - |a| - |b| - |c| - |d|, text)
            + Updated(f, i - |a| - |b| - |c| - |d| - |e|, text)
  {
    hide Updated;
    UpdatedConcat(a + b + c + d + e, f, i, text);
    UpdatedConcat(a + b + c + d, e, i, text);
    UpdatedConcat(a + b + c, d, i, text);
    UpdatedConcat(a + b, c, i, text);
    UpdatedConcat(a, b, i, text);
  }

  /**
   The cursor refines index update on the flattened fields and leaves the structure alone. By
   `StructureAndFieldsDetermineMap` this determines the new map.
   */
  method ReplaceNarrativeField(m: CodebaseMap, index: nat, text: string) returns (out: CodebaseMap)
    ensures Frame(out) == Frame(m)
    ensures Fields(out) == Updated(Fields(m), index, text)
  {
    hide Flat, Each;
    var cursor := 0;
    var summary := Applied(m.summary, cursor, index, text);
    cursor := cursor + 1;
    var style := Applied(m.style, cursor, index, text);
    cursor := cursor + 1;
    var technologies, components, relationships, flows, entryPoints;
    technologies, cursor := ReplaceInTechnologies(m.technologies, cursor, index, text);
    components, cursor := ReplaceInComponents(m.components, cursor, index, text);
    relationships, cursor := ReplaceInRelationships(m.relationships, cursor, index, text);
    flows, cursor := ReplaceInFlows(m.flows, cursor, index, text);
    entryPoints, cursor := ReplaceInEntryPoints(m.entryPoints, cursor, index, text);
    out := m.(summary := summary, style := style, technologies := technologies, components := components,
              relationships := relationships, flows := flows, entryPoints := entryPoints);
    UpdatedSplit(
      [m.summary, m.style], Flat(m.technologies, TechnologyFields), Flat(m.components, ComponentFields),
      Flat(m.relationships, RelationshipFields), Flat(m.flows, FlowFields), Flat(m.entryPoints, EntryPointFields),
      index, text);
    assert [summary, style] == Updated([m.summary, m.style], index, text);
  }

  // Neutral wording, the third traversal.

  function KindWord(k: ComponentKind): string {
    match k
    case Service => "service"
    case Library => "library"
    case UiSurface => "UI surface"
    case DataStore => "data store"
    case Pipeline => "pipeline"
    case Infrastructure => "infrastructure"
    case ExternalInterface => "external interface"
    case TestSuite => "test suite"
    case BuildTooling => "build tooling"
  }

  function RelationshipWord(k: RelationshipKind): string {
    match k
    case Calls => "Calls"
    case Spawns => "Spawns"
    case Reads => "Reads"
    case Writes => "Writes"
    case Validates => "Validates"
    case DependsOn => "DependsOn"
    case Builds => "Builds"
    case SerializesTo => "SerializesTo"
  }

  function Withheld(): string {
    "Text withheld \U{2014} it matched repository source."
  }

  function NeutralTechnology(t: Technology): seq<string> { ["(name withheld)", Withheld()] }

  function NeutralInterface(i: Interface): seq<string> { ["(interface name withheld)", Withheld()] }

  function NeutralConcern(c: Concern): seq<string> { [ConcernText(|c.evidence|)] }

  function ConcernText(references: nat): string {
    "Concern text withheld (matched repository source); " + Decimal(references) + " verified reference(s) locate it."
  }

  function NeutralComponent(c: Component): seq<string> {
    ["(component name withheld)", ComponentText(c.kind, c.rootPaths, |c.evidence|)]
    + Flat(c.interfaces, NeutralInterface)
    + Flat(c.concerns, NeutralConcern)
  }

  function ComponentText(kind: ComponentKind, rootPaths: seq<string>, references: nat): string {
    "Description withheld (matched repository source). Validated: a " + KindWord(kind) + " rooted at "
    + (if rootPaths == [] then "the repository root" else Join(rootPaths, ", "))
    + " with " + Decimal(references) + " verified reference(s)."
  }

  function NeutralRelationship(r: Relationship): seq<string> { [RelationshipText(r.kind)] }

  function RelationshipText(kind: RelationshipKind): string {
    "Description withheld (matched repository source); the " + RelationshipWord(kind)
    + " connection itself is validated."
  }

  function NeutralStep(s: FlowStep): seq<string> {
    ["(step text withheld \U{2014} matched repository source)"]
  }

  function NeutralFlow(f: Flow): seq<string> {
    ["(flow name withheld)", Withheld()] + Flat(f.steps, NeutralStep)
  }

  function NeutralEntryPoint(e: EntryPoint): seq<string> { ["(entry point name withheld)"] }

  function NeutralSummary(components: nat, relationships: nat, flows: nat, entryPoints: nat): string {
    "Narrative withheld because it matched repository source. The validated structure remains: "
    + Decimal(components) + " components, " + Decimal(relationships) + " relationships, " + Decimal(flows)
    + " data flows, and " + Decimal(entryPoints) + " entry points, each backed by verified references below."
  }

  function NeutralStyle(): string {
    "Withheld \U{2014} see the component groups and relationships below."
  }

  function NeutralReplacements(m: CodebaseMap): seq<string> {
    [NeutralSummary(|m.components|, |m.relationships|, |m.flows|, |m.entryPoints|), NeutralStyle()]
    + Flat(m.technologies, NeutralTechnology)
    + Flat(m.components, NeutralComponent)
    + Flat(m.relationships, NeutralRelationship)
    + Flat(m.flows, NeutralFlow)
    + Flat(m.entryPoints, NeutralEntryPoint)
  }

  /** Item by item as long as the fields, and the same for the bare structure. */
  ghost predicate Mirrors<T(!new)>(neutral: T -> seq<string>, f: T -> seq<string>, frame: T -> T) {
    forall x :: |neutral(x)| == |f(x)| && neutral(frame(x)) == neutral(x)
  }

  lemma {:induction false} FlatMirrors<T(!new)>(
      items: seq<T>, neutral: T -> seq<string>, f: T -> seq<string>, frame: T -> T)
    requires Mirrors(neutral, f, frame)
    ensures |Flat(items, neutral)| == |Flat(items, f)|
    ensures Flat(Each(items, frame), neutral) == Flat(items, neutral)
  {
    if items != [] {
      var n := |items| - 1;
      FlatMirrors(items[..n], neutral, f, frame);
      assert Each(items, frame)[..n] == Each(items[..n], frame);
      assert Each(items, frame)[n] == frame(items[n]);
    }
  }

  lemma ItemsMirror()
    ensures Mirrors(NeutralTechnology, TechnologyFields, TechnologyFrame)
    ensures Mirrors(NeutralInterface, InterfaceFields, InterfaceFrame)
    ensures Mirrors(NeutralConcern, ConcernFields, ConcernFrame)
  {
    hide ConcernText, Withheld;
  }

  lemma MoreItemsMirror()
    ensures Mirrors(NeutralRelationship, RelationshipFields, RelationshipFrame)
    ensures Mirrors(NeutralStep, StepFields, StepFrame)
    ensures Mirrors(NeutralEntryPoint, EntryPointFields, EntryPointFrame)
  {
    hide RelationshipText;
  }

  lemma OneComponentMirrors(c: Component)
    ensures |NeutralComponent(c)| == |ComponentFields(c)|
    ensures NeutralComponent(ComponentFrame(c)) == NeutralComponent(c)
  {
    hide ComponentText, Flat, Each, Mirrors;
    ItemsMirror();
    FlatMirrors(c.interfaces, NeutralInterface, InterfaceFields, InterfaceFrame);
    FlatMirrors(c.concerns, NeutralConcern, ConcernFields, ConcernFrame);
  }

  lemma ComponentMirrors()
    ensures Mirrors(NeutralComponent, ComponentFields, ComponentFrame)
  {
    hide NeutralComponent, ComponentFields, ComponentFrame;
    forall c: Component
      ensures |NeutralComponent(c)| == |ComponentFields(c)| && NeutralComponent(ComponentFrame(c)) == NeutralComponent(c)
    {
      OneComponentMirrors(c);
    }
  }

  lemma FlowMirrors()
    ensures Mirrors(NeutralFlow, FlowFields, FlowFrame)
  {
    forall f: Flow ensures |NeutralFlow(f)| == |FlowFields(f)| && NeutralFlow(FlowFrame(f)) == NeutralFlow(f) {
      hide Flat, Each;
      MoreItemsMirror();
      FlatMirrors(f.steps, NeutralStep, StepFields, StepFrame);
    }
  }

  /** The neutral list has one text per field and depends on the structure alone. */
  lemma NeutralMirrorsFields(m: CodebaseMap)
    ensures |NeutralReplacements(m)| == |Fields(m)|
    ensures NeutralReplacements(Frame(m)) == NeutralReplacements(m)
  {
    hide Flat, NeutralSummary, NeutralStyle, Mirrors;
    ItemsMirror();
    MoreItemsMirror();
    ComponentMirrors();
    FlowMirrors();
    FlatMirrors(m.technologies, NeutralTechnology, TechnologyFields, TechnologyFrame);
    FlatMirrors(m.components, NeutralComponent, ComponentFields, ComponentFrame);
    FlatMirrors(m.relationships, NeutralRelationship, RelationshipFields, RelationshipFrame);
    FlatMirrors(m.flows, NeutralFlow, FlowFields, FlowFrame);
    FlatMirrors(m.entryPoints, NeutralEntryPoint, EntryPointFields, EntryPointFrame);
  }

  /** Redaction at `violations`: the neutral text there, the original elsewhere, and the same structure. */
  ghost predicate Redacted(m: CodebaseMap, out: CodebaseMap, violations: set<nat>) {
    && Frame(out) == Frame(m)
    && |Fields(out)| == |Fields(m)| == |NeutralReplacements(m)|
    && forall i :: 0 <= i < |Fields(m)| ==>
         Fields(out)[i] == if i in violations then NeutralReplacements(m)[i] else Fields(m)[i]
  }

  /** Replaces the violating fields in ascending order and reports what they held. */
  method RedactFields(m: CodebaseMap, violations: set<nat>)
      returns (out: CodebaseMap, screened: seq<(nat, string)>)
    requires forall i :: i in violations ==> i < |Fields(m)|
    ensures Redacted(m, out, violations)
    ensures Reported(m, violations, screened)
  {
    hide Fields, NeutralReplacements, Frame;
    var fields, replacements := Fields(m), NeutralReplacements(m);
    NeutralMirrorsFields(m);
    out, screened := m, [];
    for i := 0 to |fields|
      invariant Redacted(m, out, set j | j in violations && j < i)
      invariant forall j, text :: (j, text) in screened <==> j in violations && j < i && text == fields[j]
      invariant forall a, b :: 0 <= a < b < |screened| ==> screened[a].0 < screened[b].0
      invariant forall a :: 0 <= a < |screened| ==> screened[a].0 < i
    {
      if i in violations {
        screened := screened + [(i, fields[i])];
        out := ReplaceNarrativeField(out, i, replacements[i]);
      }
    }
    assert (set j | j in violations && j < |fields|) == violations;
  }

  // Deciding which fields violate.

  function CredentialMarkers(): seq<string> {
    ["begin private key", "begin rsa private key", "begin openssh private key", "github_pat_", "ghp_", "glpat-",
     "akia", "asia", "aiza", "ya29.", "xoxb-", "xoxp-", "xapp-", "sk-live-", "sk-proj-", "sk-ant-", "rk_live_",
     "whsec_", "npm_", "pypi-"]
  }

  /** `lower` is Unicode lower-casing. */
  predicate ContainsCredentialMarker(lower: string -> string, text: string) {
    exists marker :: marker in CredentialMarkers() && Contains(lower(text), marker)
  }

  /**
   A frozen repository: its text, whether listing that text ends well, whether an evidence reference
   verifies against it, and the lines a verified reference stands for, which its blob and line range
   determine.
   */
  datatype Repository = Repository(
    id: string, lines: seq<SourceLine>, listed: bool, verifies: EvidenceRef -> bool,
    excerpt: (string, nat, nat) -> string)

  function Find(repositories: seq<Repository>, id: string): (r: Option<Repository>)
    ensures r.Some? ==> r.value in repositories && r.value.id == id
    ensures r.None? ==> forall x :: x in repositories ==> x.id != id
  {
    if repositories == [] then None
    else if repositories[0].id == id then Some(repositories[0])
    else Find(repositories[1..], id)
  }

  function Trimmed(s: string): string {
    TrimMatches(s, IsWhitespace)
  }

  /** The field repeats the excerpt, or one of its longer lines. */
  predicate Quotes(excerpt: string, field: string) {
    var text := Trimmed(excerpt);
    || (Utf8Length(text) >= 16 && Contains(field, text))
    || exists line :: line in Lines(text) && Utf8Length(Trimmed(line)) >= 24 && Contains(field, Trimmed(line))
  }

  predicate QuotedBy(repositories: seq<Repository>, e: EvidenceRef, field: string) {
    match Find(repositories, e.repositoryId)
    case None => false
    case Some(r) => r.verifies(e) && Quotes(r.excerpt(e.blobOid, e.startLine, e.endLine), field)
  }

  type Coordinate = (string, string, nat, nat)

  function CoordinateOf(e: EvidenceRef): Coordinate {
    (e.repositoryId, e.blobOid, e.startLine, e.endLine)
  }

  /** The indices of the fields that some reference of `evidence` is quoted by. */
  ghost predicate QuotingIndices(
      repositories: seq<Repository>, evidence: seq<EvidenceRef>, fields: seq<string>, v: set<nat>)
  {
    forall i: nat :: i in v <==>
      i < |fields| && exists e :: e in evidence && QuotedBy(repositories, e, fields[i])
  }

  method QuotingFields(excerpt: string, fields: seq<string>) returns (v: set<nat>)
    ensures forall i: nat :: i in v <==> i < |fields| && Quotes(excerpt, fields[i])
  {
    hide Quotes;
    v := {};
    for k := 0 to |fields|
      invariant forall i: nat :: i in v <==> i < k && Quotes(excerpt, fields[i])
    {
      if Quotes(excerpt, fields[k]) {
        v := v + {k};
      }
    }
  }

  /** The coordinates already looked at, each through a reference that verified if its repository is known. */
  ghost predicate Looked(repositories: seq<Repository>, evidence: seq<EvidenceRef>, checked: set<Coordinate>) {
    && (forall c :: c in checked ==>
          exists e :: e in evidence && CoordinateOf(e) == c && Readable(repositories, e))
    && forall e :: e in evidence ==> CoordinateOf(e) in checked
  }

  predicate Readable(repositories: seq<Repository>, e: EvidenceRef) {
    var r := Find(repositories, e.repositoryId);
    r.Some? ==> r.value.verifies(e)
  }

  lemma SameCoordinateSameQuotes(repositories: seq<Repository>, e: EvidenceRef, before: EvidenceRef, field: string)
    requires CoordinateOf(e) == CoordinateOf(before) && Readable(repositories, before)
    ensures QuotedBy(repositories, e, field) ==> QuotedBy(repositories, before, field)
  {
  }

  lemma QuotingExtends(
      repositories: seq<Repository>, evidence: seq<EvidenceRef>, e: EvidenceRef, fields: seq<string>,
      v: set<nat>, w: set<nat>)
    requires QuotingIndices(repositories, evidence, fields, v)
    requires forall i: nat :: i in w <==> i < |fields| && QuotedBy(repositories, e, fields[i])
    ensures QuotingIndices(repositories, evidence + [e], fields, v + w)
  {
    hide QuotedBy;
  }

  lemma QuotingSkips(
      repositories: seq<Repository>, evidence: seq<EvidenceRef>, e: EvidenceRef, fields: seq<string>, v: set<nat>,
      checked: set<Coordinate>)
    requires QuotingIndices(repositories, evidence, fields, v)
    requires Looked(repositories, evidence, checked) && CoordinateOf(e) in checked
    ensures QuotingIndices(repositories, evidence + [e], fields, v)
    ensures Looked(repositories, evidence + [e], checked)
  {
    hide QuotedBy, Readable;
    var before :| before in evidence && CoordinateOf(before) == CoordinateOf(e) && Readable(repositories, before);
    forall i: nat | i < |fields|
      ensures QuotedBy(repositories, e, fields[i]) ==> QuotedBy(repositories, before, fields[i])
    {
      SameCoordinateSameQuotes(repositories, e, before, fields[i]);
    }
  }

  lemma LookedExtends(
      repositories: seq<Repository>, evidence: seq<EvidenceRef>, e: EvidenceRef, checked: set<Coordinate>)
    requires Looked(repositories, evidence, checked) && Readable(repositories, e)
    ensures Looked(repositories, evidence + [e], checked + {CoordinateOf(e)})
  {
    hide Readable;
  }

  /** Reads each coordinate once and marks the fields that quote it. Fails on a reference that does not verify. */
  method CheckExcerpts(repositories: seq<Repository>, evidence: seq<EvidenceRef>, fields: seq<string>)
      returns (ok: bool, v: set<nat>)
    ensures ok ==> QuotingIndices(repositories, evidence, fields, v)
    ensures ok <==> AllReadable(repositories, evidence)
  {
    hide QuotingIndices, Looked, Quotes, Readable;
    v := {};
    var checked: set<Coordinate> := {};
    NothingLookedAt(repositories, fields);
    for k := 0 to |evidence|
      invariant QuotingIndices(repositories, evidence[..k], fields, v)
      invariant Looked(repositories, evidence[..k], checked)
      invariant forall j :: 0 <= j < k ==> !FailsAt(repositories, evidence, j)
    {
      hide FailsAt;
      var e := evidence[k];
      assert evidence[..k + 1] == evidence[..k] + [e];
      FailsAtIff(repositories, evidence, k, checked);
      if CoordinateOf(e) in checked {
        QuotingSkips(repositories, evidence[..k], e, fields, v, checked);
        continue;
      }
      var found, quoting := Find(repositories, e.repositoryId), {};
      if found.Some? {
        if !found.value.verifies(e) {
          ReadableIff(repositories, e);
          return false, v;
        }
        quoting := QuotingFields(found.value.excerpt(e.blobOid, e.startLine, e.endLine), fields);
      }
      ReadableIff(repositories, e);
      LookedExtends(repositories, evidence[..k], e, checked);
      QuotingExtends(repositories, evidence[..k], e, fields, v, quoting);
      checked, v := checked + {CoordinateOf(e)}, v + quoting;
    }
    assert evidence[..|evidence|] == evidence;
    ok := true;
  }

  /** Reading stops at a reference that does not verify and is the first with its coordinate. */
  ghost predicate FailsAt(repositories: seq<Repository>, evidence: seq<EvidenceRef>, k: nat)
    requires k < |evidence|
  {
    !Readable(repositories, evidence[k])
    && forall j :: 0 <= j < k ==> CoordinateOf(evidence[j]) != CoordinateOf(evidence[k])
  }

  ghost predicate AllReadable(repositories: seq<Repository>, evidence: seq<EvidenceRef>) {
    forall k :: 0 <= k < |evidence| ==> !FailsAt(repositories, evidence, k)
  }

  lemma FailsAtIff(repositories: seq<Repository>, evidence: seq<EvidenceRef>, k: nat, checked: set<Coordinate>)
    requires k < |evidence| && Looked(repositories, evidence[..k], checked)
    ensures FailsAt(repositories, evidence, k)
            <==> !Readable(repositories, evidence[k]) && CoordinateOf(evidence[k]) !in checked
  {
    hide Readable;
    var c := CoordinateOf(evidence[k]);
    if c in checked {
      var e :| e in evidence[..k] && CoordinateOf(e) == c && Readable(repositories, e);
      var j :| 0 <= j < k && evidence[..k][j] == e;
      assert CoordinateOf(evidence[j]) == c;
    } else {
      forall j | 0 <= j < k ensures CoordinateOf(evidence[j]) != c {
        assert evidence[j] in evidence[..k];
      }
    }
  }

  lemma ReadableIff(repositories: seq<Repository>, e: EvidenceRef)
    ensures var found := Find(repositories, e.repositoryId);
            Readable(repositories, e) <==> found.None? || found.value.verifies(e)
  {
  }

  lemma NothingLookedAt(repositories: seq<Repository>, fields: seq<string>)
    ensures QuotingIndices(repositories, [], fields, {}) && Looked(repositories, [], {})
  {
  }

  ghost predicate Copied<H(!new)>(p: Printer<H>, repositories: seq<Repository>, field: string) {
    exists r :: r in repositories && Hits(p, field, r.lines)
  }

  ghost predicate CopyingIndices<H(!new)>(
      p: Printer<H>, repositories: seq<Repository>, fields: seq<string>, v: set<nat>)
  {
    forall i: nat :: i in v <==> i < |fields| && Copied(p, repositories, fields[i])
  }

  ghost predicate AllScannable<H(!new)>(p: Printer<H>, repositories: seq<Repository>, fields: seq<string>) {
    forall r :: r in repositories ==> Scannable(p, fields, r.lines, r.listed)
  }

  method ScanRepositories<H(==, !new)>(p: Printer<H>, repositories: seq<Repository>, fields: seq<string>)
      returns (ok: bool, v: set<nat>)
    ensures ok <==> AllScannable(p, repositories, fields)
    ensures ok ==> CopyingIndices(p, repositories, fields, v)
  {
    hide Hits, Scannable;
    v := {};
    for k := 0 to |repositories|
      invariant AllScannable(p, repositories[..k], fields)
      invariant CopyingIndices(p, repositories[..k], fields, v)
    {
      assert repositories[..k + 1] == repositories[..k] + [repositories[k]];
      var outcome := NarrativeFieldsMatchingSource(p, fields, repositories[k].lines, repositories[k].listed);
      if !outcome.Matched? {
        assert repositories[k] in repositories;
        return false, v;
      }
      v := v + outcome.fields;
    }
    assert repositories[..|repositories|] == repositories;
    ok := true;
  }

  // Screening.

  datatype Policy = Redact | Reject

  datatype Screened =
    | Kept(result: CodebaseMap, partial: bool, violations: set<nat>, screened: seq<(nat, string)>)
    | CredentialText
    | SourceText
    | ScanRefused
    | EvidenceUnreadable

  /** A field violates when a repository contains a fragment of it, or it quotes cited lines. */
  ghost predicate Violates<H(!new)>(p: Printer<H>, repositories: seq<Repository>, m: CodebaseMap, field: string) {
    Copied(p, repositories, field) || exists e :: e in Evidence(m) && QuotedBy(repositories, e, field)
  }

  ghost predicate Violations<H(!new)>(p: Printer<H>, repositories: seq<Repository>, m: CodebaseMap, v: set<nat>) {
    forall i: nat :: i in v <==> i < |Fields(m)| && Violates(p, repositories, m, Fields(m)[i])
  }

  /** What a kept map is, against the one that was screened. */
  ghost predicate KeptFaithfully(m: CodebaseMap, policy: Policy, partial: bool, r: Screened)
    requires r.Kept?
  {
    && Redacted(m, r.result, r.violations)
    && r.partial == (partial || r.violations != {})
    && (policy.Reject? ==> r.result == m && r.violations == {})
    && Reported(m, r.violations, r.screened)
  }

  /** The fields replaced, each once and in ascending order, with the text they held. */
  ghost predicate Reported(m: CodebaseMap, violations: set<nat>, screened: seq<(nat, string)>) {
    && (forall i, text :: (i, text) in screened <==> i in violations && i < |Fields(m)| && text == Fields(m)[i])
    && forall a, b :: 0 <= a < b < |screened| ==> screened[a].0 < screened[b].0
  }

  ghost predicate SomeViolation<H(!new)>(p: Printer<H>, repositories: seq<Repository>, m: CodebaseMap) {
    exists i :: 0 <= i < |Fields(m)| && Violates(p, repositories, m, Fields(m)[i])
  }

  predicate HoldsCredential(lower: string -> string, m: CodebaseMap) {
    ContainsCredentialMarker(lower, Join(Fields(m), "\n"))
  }

  /** No credential, and every repository can be scanned. */
  ghost predicate CanDecide<H(!new)>(
      p: Printer<H>, lower: string -> string, repositories: seq<Repository>, m: CodebaseMap)
  {
    !HoldsCredential(lower, m) && AllScannable(p, repositories, Fields(m))
  }

  /**
   Screens a map. When it is kept, exactly the violating fields hold their neutral text and nothing else
   changed; a map kept under `Reject` is untouched. Every refusal is exact.
   */
  method Screen<H(==, !new)>(
      p: Printer<H>, lower: string -> string, m: CodebaseMap, repositories: seq<Repository>, policy: Policy,
      partial: bool)
      returns (r: Screened)
    ensures r.CredentialText? <==> HoldsCredential(lower, m)
    ensures r.Kept? ==> Violations(p, repositories, m, r.violations) && KeptFaithfully(m, policy, partial, r)
    ensures r.ScanRefused? <==> !HoldsCredential(lower, m) && !AllScannable(p, repositories, Fields(m))
    ensures r.EvidenceUnreadable? <==> CanDecide(p, lower, repositories, m) && !AllReadable(repositories, Evidence(m))
    ensures r.SourceText? <==> CanDecide(p, lower, repositories, m) && AllReadable(repositories, Evidence(m))
                               && policy.Reject? && SomeViolation(p, repositories, m)
  {
    hide Fields, Evidence, ContainsCredentialMarker, Copied, QuotedBy, Redacted, Reported, AllScannable, AllReadable;
    var fields := Fields(m);
    if ContainsCredentialMarker(lower, Join(fields, "\n")) { return CredentialText; }
    var ok, copied := ScanRepositories(p, repositories, fields);
    if !ok { return ScanRefused; }
    var readable, quoted := CheckExcerpts(repositories, Evidence(m), fields);
    if !readable { return EvidenceUnreadable; }
    var violations := copied + quoted;
    assert Violations(p, repositories, m, violations);
    if violations == {} {
      NothingRedacted(m);
      return Kept(m, partial, {}, []);
    }
    if policy.Reject? {
      return SourceText;
    }
    var out, screened := RedactFields(m, violations);
    r := Kept(out, true, violations, screened);
  }

  lemma NothingRedacted(m: CodebaseMap)
    ensures Redacted(m, m, {}) && Reported(m, {}, [])
  {
    hide Frame, Fields, NeutralReplacements;
    NeutralMirrorsFields(m);
  }
}
