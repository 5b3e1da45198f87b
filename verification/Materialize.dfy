/** A map as it is handed on: built from the provider's output, then screened. */
module Materialize {
  import opened Common
  import opened Text
  import opened Maps
  import opened Fingerprints
  import opened Screening
  import opened MapBuild

  datatype Materialized =
    | Done(screened: Screened, warnings: seq<Warning>)
    | NoRepository
    | NoComponent

  lemma FrameKeepsIds(cs: seq<Component>, ds: seq<Component>)
    requires Each(cs, ComponentFrame) == Each(ds, ComponentFrame)
    ensures Ids(ds) == Ids(cs) && |ds| == |cs|
  {
    assert |Each(cs, ComponentFrame)| == |cs| && |Each(ds, ComponentFrame)| == |ds|;
    forall i | 0 <= i < |cs| ensures cs[i].id == ds[i].id {
      assert Each(cs, ComponentFrame)[i] == ComponentFrame(cs[i]);
      assert Each(ds, ComponentFrame)[i] == ComponentFrame(ds[i]);
    }
    assert forall i :: 0 <= i < |cs| ==> cs[i].id in Ids(ds) && ds[i].id in Ids(cs);
  }

  lemma EachAt<T>(xs: seq<T>, ys: seq<T>, frame: T -> T, i: nat)
    requires Each(xs, frame) == Each(ys, frame) && i < |xs|
    ensures |ys| == |xs| && frame(xs[i]) == frame(ys[i])
  {
    assert |Each(xs, frame)| == |xs| && |Each(ys, frame)| == |ys|;
    assert Each(xs, frame)[i] == frame(xs[i]);
    assert Each(ys, frame)[i] == frame(ys[i]);
  }

  lemma FrameKeepsLength<T>(xs: seq<T>, ys: seq<T>, frame: T -> T)
    requires Each(xs, frame) == Each(ys, frame)
    ensures |ys| == |xs|
  {
    assert |Each(xs, frame)| == |xs| && |Each(ys, frame)| == |ys|;
  }

  lemma FrameKeepsComponent(c: Component, d: Component)
    requires ComponentFrame(c) == ComponentFrame(d) && SoundComponent(c)
    ensures SoundComponent(d)
  {
    hide RelativePath, Each;
    FrameKeepsLength(c.interfaces, d.interfaces, InterfaceFrame);
    FrameKeepsLength(c.concerns, d.concerns, ConcernFrame);
    forall i | 0 <= i < |d.interfaces| ensures d.interfaces[i].evidence != [] {
      EachAt(c.interfaces, d.interfaces, InterfaceFrame, i);
    }
    forall i | 0 <= i < |d.concerns| ensures d.concerns[i].evidence != [] {
      EachAt(c.concerns, d.concerns, ConcernFrame, i);
    }
  }

  lemma FrameKeepsComponents(cs: seq<Component>, ds: seq<Component>)
    requires Each(cs, ComponentFrame) == Each(ds, ComponentFrame) && SoundComponents(cs)
    ensures SoundComponents(ds)
  {
    hide SoundComponent, Each, ComponentFrame;
    FrameKeepsLength(cs, ds, ComponentFrame);
    forall i | 0 <= i < |ds| ensures SoundComponent(ds[i]) {
      EachAt(cs, ds, ComponentFrame, i);
      FrameKeepsComponent(cs[i], ds[i]);
    }
  }

  lemma FrameKeepsFlow(ids: set<string>, f: Flow, g: Flow)
    requires FlowFrame(f) == FlowFrame(g) && SoundFlow(ids, f)
    ensures SoundFlow(ids, g) && g.id == f.id
  {
    hide Each;
    FrameKeepsLength(f.steps, g.steps, StepFrame);
    forall i | 0 <= i < |f.steps|
      ensures f.steps[i].componentId == g.steps[i].componentId && f.steps[i].evidence == g.steps[i].evidence
    {
      EachAt(f.steps, g.steps, StepFrame, i);
    }
    var i :| 0 <= i < |f.steps| && f.steps[i].evidence != [];
    assert g.steps[i].evidence != [];
  }

  lemma FrameKeepsFlows(ids: set<string>, fs: seq<Flow>, gs: seq<Flow>)
    requires Each(fs, FlowFrame) == Each(gs, FlowFrame) && SoundFlows(ids, fs)
    ensures SoundFlows(ids, gs)
  {
    hide SoundFlow, Each, FlowFrame, Decimal;
    FrameKeepsLength(fs, gs, FlowFrame);
    forall i | 0 <= i < |gs| ensures SoundFlow(ids, gs[i]) && gs[i].id == fs[i].id {
      EachAt(fs, gs, FlowFrame, i);
      FrameKeepsFlow(ids, fs[i], gs[i]);
    }
  }

  lemma FrameKeepsRelationships(ids: set<string>, rs: seq<Relationship>, qs: seq<Relationship>)
    requires Each(rs, RelationshipFrame) == Each(qs, RelationshipFrame) && Connected(ids, rs, 0)
    ensures Connected(ids, qs, 0)
  {
    hide Each, Decimal;
    FrameKeepsLength(rs, qs, RelationshipFrame);
    forall i | 0 <= i < |rs|
      ensures KeyOf(rs[i]) == KeyOf(qs[i]) && rs[i].evidence == qs[i].evidence && rs[i].id == qs[i].id
    {
      EachAt(rs, qs, RelationshipFrame, i);
    }
  }

  lemma FrameKeepsEntryPoints(ids: set<string>, es: seq<EntryPoint>, ds: seq<EntryPoint>)
    requires Each(es, EntryPointFrame) == Each(ds, EntryPointFrame) && SoundEntryPoints(ids, es)
    ensures SoundEntryPoints(ids, ds)
  {
    hide Each, Decimal;
    FrameKeepsLength(es, ds, EntryPointFrame);
    forall i | 0 <= i < |es|
      ensures es[i].componentId == ds[i].componentId && es[i].evidence == ds[i].evidence && es[i].id == ds[i].id
    {
      EachAt(es, ds, EntryPointFrame, i);
    }
  }

  lemma FrameKeepsTechnologies(ts: seq<Technology>, us: seq<Technology>)
    requires Each(ts, TechnologyFrame) == Each(us, TechnologyFrame)
    requires forall i :: 0 <= i < |ts| ==> ts[i].evidence != []
    ensures |us| == |ts| && forall i :: 0 <= i < |us| ==> us[i].evidence != []
  {
    hide Each;
    FrameKeepsLength(ts, us, TechnologyFrame);
    forall i | 0 <= i < |us| ensures us[i].evidence != [] {
      EachAt(ts, us, TechnologyFrame, i);
    }
  }

  /** Screening cannot break a map: well-formedness is a matter of structure. */
  lemma FrameKeepsWellFormed(m: CodebaseMap, n: CodebaseMap)
    requires Frame(m) == Frame(n) && WellFormed(m)
    ensures WellFormed(n)
  {
    hide Each, SoundComponents, SoundFlows, Connected, SoundEntryPoints, Ids;
    FrameKeepsIds(m.components, n.components);
    FrameKeepsComponents(m.components, n.components);
    FrameKeepsTechnologies(m.technologies, n.technologies);
    FrameKeepsEntryPoints(Ids(m.components), m.entryPoints, n.entryPoints);
    FrameKeepsRelationships(Ids(m.components), m.relationships, n.relationships);
    FrameKeepsFlows(Ids(m.components), m.flows, n.flows);
    FrameKeepsLength(m.relationships, n.relationships, RelationshipFrame);
    FrameKeepsLength(m.flows, n.flows, FlowFrame);
    FrameKeepsLength(m.entryPoints, n.entryPoints, EntryPointFrame);
  }

  /** The warning that screening adds. */
  function ScreeningWarning(violations: set<nat>): seq<Warning> {
    if violations == {} then [] else [NarrativeReplaced(|violations|)]
  }

  /**
   Builds and screens a map. Whatever is handed on is well formed, differs from the map that the
   submission stands for in exactly the violating fields, and carries exactly the warnings due.
   */
  method MaterializeCodebaseMap<H(==, !new)>(
      p: Printer<H>, env: Env, header: Header, survey: RawSurvey, dives: seq<RawDeepDive>,
      repositories: seq<Repository>, policy: Policy, partial: bool, before: seq<Warning>)
      returns (r: Materialized, ghost built: Option<CodebaseMap>)
    requires env.repositories == set x | x in repositories :: x.id
    ensures r.NoRepository? <==> repositories == []
    ensures r.NoComponent? <==> repositories != [] && SkeletonOf(env, survey).components == []
    ensures r.Done? ==> built.Some? && Stands(env, header, survey, dives, built.value)
    ensures r.Done? && r.screened.Kept? ==>
              && WellFormed(r.screened.result)
              && Violations(p, repositories, built.value, r.screened.violations)
              && KeptFaithfully(built.value, policy, partial, r.screened)
              && r.warnings == before + Warnings(env, survey, dives) + ScreeningWarning(r.screened.violations)
  {
    hide Stands, WellFormed, Violations, SkeletonOf, Frame, Fields, NeutralReplacements, Warnings;
    if repositories == [] { return NoRepository, None; }
    var m, warnings := Build(env, header, survey, dives, before);
    built := m;
    if m.None? { return NoComponent, built; }
    var screened := Screen(p, env.lower, m.value, repositories, policy, partial);
    if screened.Kept? {
      FrameKeepsWellFormed(m.value, screened.result);
      warnings := warnings + ScreeningWarning(screened.violations);
    }
    r := Done(screened, warnings);
  }
}
