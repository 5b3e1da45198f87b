/** The codebase map, its narrative fields in their one flattened order, and the structure beneath them. */
module Maps {
  import opened Model

  datatype ComponentKind =
    Service | Library | UiSurface | DataStore | Pipeline | Infrastructure | ExternalInterface | TestSuite | BuildTooling

  datatype RelationshipKind = Calls | Spawns | Reads | Writes | Validates | DependsOn | Builds | SerializesTo

  datatype EntryPointKind = Cli | IpcMethod | HttpRoute | UiScreen | McpTool | Scheduled | BuildTarget

  datatype Technology = Technology(name: string, role: string, evidence: seq<EvidenceRef>)

  datatype Interface = Interface(name: string, description: string, evidence: seq<EvidenceRef>)

  datatype Concern = Concern(summary: string, evidence: seq<EvidenceRef>)

  datatype Component = Component(
    id: string, name: string, kind: ComponentKind, repositoryId: string, rootPaths: seq<string>,
    responsibility: string, interfaces: seq<Interface>, concerns: seq<Concern>, evidence: seq<EvidenceRef>)

  datatype Relationship = Relationship(
    id: string, from: string, to: string, kind: RelationshipKind, description: string, evidence: seq<EvidenceRef>)

  datatype FlowStep = FlowStep(componentId: string, action: string, evidence: seq<EvidenceRef>)

  datatype Flow = Flow(id: string, name: string, description: string, steps: seq<FlowStep>)

  datatype EntryPoint = EntryPoint(
    id: string, name: string, kind: EntryPointKind, componentId: string, evidence: seq<EvidenceRef>)

  datatype CodebaseMap = CodebaseMap(
    id: string, repositories: seq<FrozenRepository>, provider: string, summary: string, style: string,
    technologies: seq<Technology>, components: seq<Component>, relationships: seq<Relationship>,
    flows: seq<Flow>, entryPoints: seq<EntryPoint>)

  // Lists of items, flattened and transformed.

  function Flat<T, U>(items: seq<T>, f: T -> seq<U>): seq<U> {
    if items == [] then [] else Flat(items[..|items| - 1], f) + f(items[|items| - 1])
  }

  function Each<T>(items: seq<T>, f: T -> T): seq<T> {
    seq(|items|, i requires 0 <= i < |items| => f(items[i]))
  }

  // The narrative fields, in the order that every traversal shares.

  function TechnologyFields(t: Technology): seq<string> { [t.name, t.role] }

  function InterfaceFields(i: Interface): seq<string> { [i.name, i.description] }

  function ConcernFields(c: Concern): seq<string> { [c.summary] }

  function ComponentFields(c: Component): seq<string> {
    [c.name, c.responsibility] + Flat(c.interfaces, InterfaceFields) + Flat(c.concerns, ConcernFields)
  }

  function RelationshipFields(r: Relationship): seq<string> { [r.description] }

  function StepFields(s: FlowStep): seq<string> { [s.action] }

  function FlowFields(f: Flow): seq<string> {
    [f.name, f.description] + Flat(f.steps, StepFields)
  }

  function EntryPointFields(e: EntryPoint): seq<string> { [e.name] }

  function Fields(m: CodebaseMap): seq<string> {
    [m.summary, m.style]
    + Flat(m.technologies, TechnologyFields)
    + Flat(m.components, ComponentFields)
    + Flat(m.relationships, RelationshipFields)
    + Flat(m.flows, FlowFields)
    + Flat(m.entryPoints, EntryPointFields)
  }

  /** Every evidence reference of the map. */
  function Evidence(m: CodebaseMap): seq<EvidenceRef> {
    Flat(m.components, ComponentEvidence)
    + Flat(m.technologies, (t: Technology) => t.evidence)
    + Flat(m.relationships, (r: Relationship) => r.evidence)
    + Flat(m.flows, (f: Flow) => Flat(f.steps, (s: FlowStep) => s.evidence))
    + Flat(m.entryPoints, (e: EntryPoint) => e.evidence)
  }

  function ComponentEvidence(c: Component): seq<EvidenceRef> {
    c.evidence + Flat(c.interfaces, (i: Interface) => i.evidence) + Flat(c.concerns, (k: Concern) => k.evidence)
  }

  // The structure: everything but the narrative.

  function TechnologyFrame(t: Technology): Technology { t.(name := "", role := "") }

  function InterfaceFrame(i: Interface): Interface { i.(name := "", description := "") }

  function ConcernFrame(c: Concern): Concern { c.(summary := "") }

  function ComponentFrame(c: Component): Component {
    c.(name := "", responsibility := "", interfaces := Each(c.interfaces, InterfaceFrame),
       concerns := Each(c.concerns, ConcernFrame))
  }

  function RelationshipFrame(r: Relationship): Relationship { r.(description := "") }

  function StepFrame(s: FlowStep): FlowStep { s.(action := "") }

  function FlowFrame(f: Flow): Flow { f.(name := "", description := "", steps := Each(f.steps, StepFrame)) }

  function EntryPointFrame(e: EntryPoint): EntryPoint { e.(name := "") }

  function Frame(m: CodebaseMap): CodebaseMap {
    m.(summary := "", style := "",
       technologies := Each(m.technologies, TechnologyFrame),
       components := Each(m.components, ComponentFrame),
       relationships := Each(m.relationships, RelationshipFrame),
       flows := Each(m.flows, FlowFrame),
       entryPoints := Each(m.entryPoints, EntryPointFrame))
  }

  /** Items with equal structure have equally many fields, and equal fields as well make them equal. */
  ghost predicate Determined<T(!new)>(f: T -> seq<string>, frame: T -> T) {
    forall x, y :: frame(x) == frame(y) ==> |f(x)| == |f(y)| && (f(x) == f(y) ==> x == y)
  }

  lemma {:induction false} FlatDetermines<T(!new)>(x: seq<T>, y: seq<T>, f: T -> seq<string>, frame: T -> T)
    requires Determined(f, frame) && Each(x, frame) == Each(y, frame)
    ensures |x| == |y| && |Flat(x, f)| == |Flat(y, f)|
    ensures Flat(x, f) == Flat(y, f) ==> x == y
  {
    assert |Each(x, frame)| == |Each(y, frame)|;
    if x != [] {
      var n := |x| - 1;
      assert Each(x, frame)[n] == frame(x[n]) && Each(y, frame)[n] == frame(y[n]);
      forall i | 0 <= i < n ensures Each(x[..n], frame)[i] == Each(y[..n], frame)[i] {
        assert Each(x, frame)[i] == frame(x[i]) && Each(y, frame)[i] == frame(y[i]);
      }
      FlatDetermines(x[..n], y[..n], f, frame);
      if Flat(x, f) == Flat(y, f) {
        SplitEqual(Flat(x[..n], f), f(x[n]), Flat(y[..n], f), f(y[n]));
        assert x == x[..n] + [x[n]] && y == y[..n] + [y[n]];
      }
    }
  }

  lemma SplitEqual<T>(a: seq<T>, b: seq<T>, c: seq<T>, d: seq<T>)
    requires a + b == c + d && |a| == |c|
    ensures a == c && b == d
  {
    assert a == (a + b)[..|a|] && c == (c + d)[..|c|];
    assert b == (a + b)[|a|..] && d == (c + d)[|c|..];
  }

  lemma ItemsAreDetermined()
    ensures Determined(TechnologyFields, TechnologyFrame)
    ensures Determined(InterfaceFields, InterfaceFrame)
    ensures Determined(ConcernFields, ConcernFrame)
    ensures Determined(RelationshipFields, RelationshipFrame)
    ensures Determined(StepFields, StepFrame)
    ensures Determined(EntryPointFields, EntryPointFrame)
  {
  }

  lemma ComponentIsDetermined()
    ensures Determined(ComponentFields, ComponentFrame)
  {
    ItemsAreDetermined();
    forall x, y | ComponentFrame(x) == ComponentFrame(y)
      ensures |ComponentFields(x)| == |ComponentFields(y)| && (ComponentFields(x) == ComponentFields(y) ==> x == y)
    {
      ComponentPairDetermined(x, y);
    }
  }

  lemma ComponentPairDetermined(x: Component, y: Component)
    requires ComponentFrame(x) == ComponentFrame(y)
    ensures |ComponentFields(x)| == |ComponentFields(y)| && (ComponentFields(x) == ComponentFields(y) ==> x == y)
  {
    ItemsAreDetermined();
    FlatDetermines(x.interfaces, y.interfaces, InterfaceFields, InterfaceFrame);
    FlatDetermines(x.concerns, y.concerns, ConcernFields, ConcernFrame);
    if ComponentFields(x) == ComponentFields(y) {
      var a, b := [x.name, x.responsibility], [y.name, y.responsibility];
      SplitEqual(a + Flat(x.interfaces, InterfaceFields), Flat(x.concerns, ConcernFields),
                 b + Flat(y.interfaces, InterfaceFields), Flat(y.concerns, ConcernFields));
      SplitEqual(a, Flat(x.interfaces, InterfaceFields), b, Flat(y.interfaces, InterfaceFields));
      assert a[0] == b[0] && a[1] == b[1];
    }
  }

  lemma FlowIsDetermined()
    ensures Determined(FlowFields, FlowFrame)
  {
    ItemsAreDetermined();
    forall x, y | FlowFrame(x) == FlowFrame(y)
      ensures |FlowFields(x)| == |FlowFields(y)| && (FlowFields(x) == FlowFields(y) ==> x == y)
    {
      FlatDetermines(x.steps, y.steps, StepFields, StepFrame);
      if FlowFields(x) == FlowFields(y) {
        var a, b := [x.name, x.description], [y.name, y.description];
        SplitEqual(a, Flat(x.steps, StepFields), b, Flat(y.steps, StepFields));
        assert a[0] == b[0] && a[1] == b[1];
      }
    }
  }

  /** A map is its structure and its narrative fields, and nothing else. */
  lemma StructureAndFieldsDetermineMap(m: CodebaseMap, n: CodebaseMap)
    requires Frame(m) == Frame(n)
    ensures |Fields(m)| == |Fields(n)|
    ensures Fields(m) == Fields(n) ==> m == n
  {
    hide Flat, Each, Determined;
    ItemsAreDetermined();
    ComponentIsDetermined();
    FlowIsDetermined();
    FlatDetermines(m.technologies, n.technologies, TechnologyFields, TechnologyFrame);
    FlatDetermines(m.components, n.components, ComponentFields, ComponentFrame);
    FlatDetermines(m.relationships, n.relationships, RelationshipFields, RelationshipFrame);
    FlatDetermines(m.flows, n.flows, FlowFields, FlowFrame);
    FlatDetermines(m.entryPoints, n.entryPoints, EntryPointFields, EntryPointFrame);
    if Fields(m) == Fields(n) {
      FieldsSplit(
        [m.summary, m.style], Flat(m.technologies, TechnologyFields), Flat(m.components, ComponentFields),
        Flat(m.relationships, RelationshipFields), Flat(m.flows, FlowFields), Flat(m.entryPoints, EntryPointFields),
        [n.summary, n.style], Flat(n.technologies, TechnologyFields), Flat(n.components, ComponentFields),
        Flat(n.relationships, RelationshipFields), Flat(n.flows, FlowFields), Flat(n.entryPoints, EntryPointFields));
      assert [m.summary, m.style][0] == [n.summary, n.style][0] && [m.summary, m.style][1] == [n.summary, n.style][1];
    }
  }

  lemma FieldsSplit(
      a0: seq<string>, a1: seq<string>, a2: seq<string>, a3: seq<string>, a4: seq<string>, a5: seq<string>,
      b0: seq<string>, b1: seq<string>, b2: seq<string>, b3: seq<string>, b4: seq<string>, b5: seq<string>)
    requires |a0| == |b0| && |a1| == |b1| && |a2| == |b2| && |a3| == |b3| && |a4| == |b4|
    requires a0 + a1 + a2 + a3 + a4 + a5 == b0 + b1 + b2 + b3 + b4 + b5
    ensures a0 == b0 && a1 == b1 && a2 == b2 && a3 == b3 && a4 == b4 && a5 == b5
  {
    SplitEqual(a0 + a1 + a2 + a3 + a4, a5, b0 + b1 + b2 + b3 + b4, b5);
    SplitEqual(a0 + a1 + a2 + a3, a4, b0 + b1 + b2 + b3, b4);
    SplitEqual(a0 + a1 + a2, a3, b0 + b1 + b2, b3);
    SplitEqual(a0 + a1, a2, b0 + b1, b2);
    SplitEqual(a0, a1, b0, b1);
  }
}
