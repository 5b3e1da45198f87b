/**
 What a map holds, section by section: every reference, every narrative text, and the neutral text that
 takes the place of each.
 */
module MapContents {
  import opened Common
  import opened Model
  import opened Text
  import TextLaws
  import opened Maps
  import opened Fingerprints
  import opened Screening
  import opened FragmentLaws

  lemma {:induction false} FlatHas<T(!new), U>(items: seq<T>, f: T -> seq<U>, x: U)
    ensures x in Flat(items, f) <==> exists t :: t in items && x in f(t)
  {
    if items != [] {
      FlatHas(items[..|items| - 1], f, x);
      assert items == items[..|items| - 1] + [items[|items| - 1]];
    }
  }

  lemma ComponentEvidenceIs(c: Component, e: EvidenceRef)
    ensures e in ComponentEvidence(c) <==>
            || e in c.evidence
            || (exists i :: i in c.interfaces && e in i.evidence)
            || (exists k :: k in c.concerns && e in k.evidence)
  {
    hide Flat;
    FlatHas(c.interfaces, (i: Interface) => i.evidence, e);
    FlatHas(c.concerns, (k: Concern) => k.evidence, e);
  }

  lemma FlowEvidenceIs(f: Flow, e: EvidenceRef)
    ensures e in Flat(f.steps, (s: FlowStep) => s.evidence) <==> exists s :: s in f.steps && e in s.evidence
  {
    FlatHas(f.steps, (s: FlowStep) => s.evidence, e);
  }

  ghost predicate InComponents(m: CodebaseMap, e: EvidenceRef) {
    || (exists c :: c in m.components && e in c.evidence)
    || (exists c, i :: c in m.components && i in c.interfaces && e in i.evidence)
    || (exists c, k :: c in m.components && k in c.concerns && e in k.evidence)
  }

  lemma ComponentsEvidenceIs(m: CodebaseMap, e: EvidenceRef)
    ensures e in Flat(m.components, ComponentEvidence) <==> InComponents(m, e)
  {
    hide Flat, ComponentEvidence;
    FlatHas(m.components, ComponentEvidence, e);
    forall c ensures e in ComponentEvidence(c) <==>
                     || e in c.evidence
                     || (exists i :: i in c.interfaces && e in i.evidence)
                     || (exists k :: k in c.concerns && e in k.evidence)
    {
      ComponentEvidenceIs(c, e);
    }
  }

  lemma FlowsEvidenceIs(m: CodebaseMap, e: EvidenceRef)
    ensures e in Flat(m.flows, (f: Flow) => Flat(f.steps, (s: FlowStep) => s.evidence))
            <==> exists f, s :: f in m.flows && s in f.steps && e in s.evidence
  {
    hide Flat;
    FlatHas(m.flows, (f: Flow) => Flat(f.steps, (s: FlowStep) => s.evidence), e);
    forall f: Flow
      ensures e in Flat(f.steps, (s: FlowStep) => s.evidence) <==> exists s :: s in f.steps && e in s.evidence
    {
      FlowEvidenceIs(f, e);
    }
  }

  /** Screening looks at the references of every section, and at no others. */
  lemma EvidenceIs(m: CodebaseMap, e: EvidenceRef)
    ensures e in Evidence(m) <==>
            || InComponents(m, e)
            || (exists t :: t in m.technologies && e in t.evidence)
            || (exists r :: r in m.relationships && e in r.evidence)
            || (exists f, s :: f in m.flows && s in f.steps && e in s.evidence)
            || (exists p :: p in m.entryPoints && e in p.evidence)
  {
    hide Flat, InComponents;
    ComponentsEvidenceIs(m, e);
    FlatHas(m.technologies, (t: Technology) => t.evidence, e);
    FlatHas(m.relationships, (r: Relationship) => r.evidence, e);
    FlowsEvidenceIs(m, e);
    FlatHas(m.entryPoints, (p: EntryPoint) => p.evidence, e);
  }

  // Narrative texts.

  ghost predicate SaidOfComponent(c: Component, text: string) {
    || text == c.name || text == c.responsibility
    || (exists i :: i in c.interfaces && (text == i.name || text == i.description))
    || (exists k :: k in c.concerns && text == k.summary)
  }

  ghost predicate SaidOfFlow(f: Flow, text: string) {
    text == f.name || text == f.description || exists s :: s in f.steps && text == s.action
  }

  lemma ComponentFieldsAre(c: Component, text: string)
    ensures text in ComponentFields(c) <==> SaidOfComponent(c, text)
  {
    hide Flat;
    FlatHas(c.interfaces, InterfaceFields, text);
    FlatHas(c.concerns, ConcernFields, text);
  }

  lemma FlowFieldsAre(f: Flow, text: string)
    ensures text in FlowFields(f) <==> SaidOfFlow(f, text)
  {
    hide Flat;
    FlatHas(f.steps, StepFields, text);
  }

  /** Screening looks at every text a provider wrote. */
  lemma FieldsAre(m: CodebaseMap, text: string)
    ensures text in Fields(m) <==>
            || text == m.summary || text == m.style
            || (exists t :: t in m.technologies && (text == t.name || text == t.role))
            || (exists c :: c in m.components && SaidOfComponent(c, text))
            || (exists r :: r in m.relationships && text == r.description)
            || (exists f :: f in m.flows && SaidOfFlow(f, text))
            || (exists p :: p in m.entryPoints && text == p.name)
  {
    hide Flat, ComponentFields, FlowFields, SaidOfComponent, SaidOfFlow;
    FlatHas(m.technologies, TechnologyFields, text);
    FlatHas(m.components, ComponentFields, text);
    FlatHas(m.relationships, RelationshipFields, text);
    FlatHas(m.flows, FlowFields, text);
    FlatHas(m.entryPoints, EntryPointFields, text);
    forall c ensures text in ComponentFields(c) <==> SaidOfComponent(c, text) { ComponentFieldsAre(c, text); }
    forall f ensures text in FlowFields(f) <==> SaidOfFlow(f, text) { FlowFieldsAre(f, text); }
  }

  // The map in which nothing a provider wrote is left.

  function BlandInterface(i: Interface): Interface {
    i.(name := "(interface name withheld)", description := "Text withheld \U{2014} it matched repository source.")
  }

  function BlandConcern(c: Concern): Concern {
    c.(summary := ConcernText(|c.evidence|))
  }

  function BlandTechnology(t: Technology): Technology {
    t.(name := "(name withheld)", role := "Text withheld \U{2014} it matched repository source.")
  }

  function BlandComponent(c: Component): Component {
    c.(name := "(component name withheld)", responsibility := ComponentText(c.kind, c.rootPaths, |c.evidence|),
       interfaces := Each(c.interfaces, BlandInterface), concerns := Each(c.concerns, BlandConcern))
  }

  function BlandRelationship(r: Relationship): Relationship {
    r.(description := RelationshipText(r.kind))
  }

  function BlandStep(s: FlowStep): FlowStep {
    s.(action := "(step text withheld \U{2014} matched repository source)")
  }

  function BlandFlow(f: Flow): Flow {
    f.(name := "(flow name withheld)", description := "Text withheld \U{2014} it matched repository source.",
       steps := Each(f.steps, BlandStep))
  }

  function BlandEntryPoint(e: EntryPoint): EntryPoint {
    e.(name := "(entry point name withheld)")
  }

  function BlandMap(m: CodebaseMap): CodebaseMap {
    m.(summary := NeutralSummary(|m.components|, |m.relationships|, |m.flows|, |m.entryPoints|),
       style := "Withheld \U{2014} see the component groups and relationships below.",
       technologies := Each(m.technologies, BlandTechnology),
       components := Each(m.components, BlandComponent),
       relationships := Each(m.relationships, BlandRelationship),
       flows := Each(m.flows, BlandFlow),
       entryPoints := Each(m.entryPoints, BlandEntryPoint))
  }

  /** An item made bland says the neutral text and keeps its structure. */
  ghost predicate Blands<T(!new)>(bland: T -> T, neutral: T -> seq<string>, f: T -> seq<string>, frame: T -> T) {
    forall x :: f(bland(x)) == neutral(x) && frame(bland(x)) == frame(x)
  }

  lemma {:induction false} FlatBlands<T(!new)>(
      items: seq<T>, bland: T -> T, neutral: T -> seq<string>, f: T -> seq<string>, frame: T -> T)
    requires Blands(bland, neutral, f, frame)
    ensures Flat(Each(items, bland), f) == Flat(items, neutral)
    ensures Each(Each(items, bland), frame) == Each(items, frame)
  {
    if items != [] {
      var n := |items| - 1;
      FlatBlands(items[..n], bland, neutral, f, frame);
      assert Each(items, bland)[..n] == Each(items[..n], bland);
    }
  }

  lemma ItemsBland()
    ensures Blands(BlandTechnology, NeutralTechnology, TechnologyFields, TechnologyFrame)
    ensures Blands(BlandInterface, NeutralInterface, InterfaceFields, InterfaceFrame)
    ensures Blands(BlandConcern, NeutralConcern, ConcernFields, ConcernFrame)
  {
    hide ConcernText;
  }

  lemma MoreItemsBland()
    ensures Blands(BlandRelationship, NeutralRelationship, RelationshipFields, RelationshipFrame)
    ensures Blands(BlandStep, NeutralStep, StepFields, StepFrame)
    ensures Blands(BlandEntryPoint, NeutralEntryPoint, EntryPointFields, EntryPointFrame)
  {
    hide RelationshipText;
  }

  lemma ComponentBlands()
    ensures Blands(BlandComponent, NeutralComponent, ComponentFields, ComponentFrame)
  {
    forall c: Component
      ensures ComponentFields(BlandComponent(c)) == NeutralComponent(c)
      ensures ComponentFrame(BlandComponent(c)) == ComponentFrame(c)
    {
      hide ComponentText, Flat, Each, Blands;
      ItemsBland();
      FlatBlands(c.interfaces, BlandInterface, NeutralInterface, InterfaceFields, InterfaceFrame);
      FlatBlands(c.concerns, BlandConcern, NeutralConcern, ConcernFields, ConcernFrame);
    }
  }

  lemma FlowBlands()
    ensures Blands(BlandFlow, NeutralFlow, FlowFields, FlowFrame)
  {
    forall f: Flow ensures FlowFields(BlandFlow(f)) == NeutralFlow(f) && FlowFrame(BlandFlow(f)) == FlowFrame(f) {
      hide Flat, Each, Blands;
      MoreItemsBland();
      FlatBlands(f.steps, BlandStep, NeutralStep, StepFields, StepFrame);
    }
  }

  /** The neutral texts are those of the bland map, each in the place of the text it replaces. */
  lemma NeutralIsBland(m: CodebaseMap)
    ensures Fields(BlandMap(m)) == NeutralReplacements(m) && Frame(BlandMap(m)) == Frame(m)
  {
    hide Flat, Each, Blands, NeutralSummary, BlandComponent, BlandFlow;
    ItemsBland();
    MoreItemsBland();
    ComponentBlands();
    FlowBlands();
    FlatBlands(m.technologies, BlandTechnology, NeutralTechnology, TechnologyFields, TechnologyFrame);
    FlatBlands(m.components, BlandComponent, NeutralComponent, ComponentFields, ComponentFrame);
    FlatBlands(m.relationships, BlandRelationship, NeutralRelationship, RelationshipFields, RelationshipFrame);
    FlatBlands(m.flows, BlandFlow, NeutralFlow, FlowFields, FlowFrame);
    FlatBlands(m.entryPoints, BlandEntryPoint, NeutralEntryPoint, EntryPointFields, EntryPointFrame);
  }

  /** A map redacted everywhere is the bland map, and one redacted nowhere is the map itself. */
  lemma RedactedEverywhere(m: CodebaseMap, out: CodebaseMap, violations: set<nat>)
    requires Redacted(m, out, violations)
    ensures (forall i :: 0 <= i < |Fields(m)| ==> i in violations) ==> out == BlandMap(m)
    ensures violations == {} ==> out == m
  {
    hide Fields, Frame, BlandMap, NeutralReplacements;
    NeutralIsBland(m);
    StructureAndFieldsDetermineMap(out, BlandMap(m));
    StructureAndFieldsDetermineMap(out, m);
    if forall i :: 0 <= i < |Fields(m)| ==> i in violations {
      assert Fields(out) == NeutralReplacements(m);
    }
    if violations == {} {
      assert Fields(out) == Fields(m);
    }
  }

  // Quoting.

  ghost predicate Within(part: string, text: string) {
    exists before, after :: text == before + part + after
  }

  lemma WithinIff(part: string, text: string)
    ensures Within(part, text) <==> Contains(text, part)
  {
    hide Contains;
    TextLaws.ContainsMeans(text, part);
    if i :| 0 <= i <= |text| && part <= text[i..] {
      assert text == text[..i] + part + text[i..][|part|..];
    }
    if before, after :| text == before + part + after {
      assert text[|before|..] == part + after;
    }
  }

  /** A field quotes cited lines: all of them from 16 bytes on, or one of them from 24 bytes on. */
  lemma QuotesMeans(excerpt: string, field: string)
    ensures Quotes(excerpt, field) <==>
            || (Utf8Length(Trimmed(excerpt)) >= 16 && Within(Trimmed(excerpt), field))
            || exists line :: line in Lines(Trimmed(excerpt)) && Utf8Length(Trimmed(line)) >= 24
                              && Within(Trimmed(line), field)
  {
    hide Within, Contains, Trimmed, Lines, Utf8Length;
    forall part ensures Within(part, field) <==> Contains(field, part) { WithinIff(part, field); }
  }

  // Credentials.

  lemma {:induction false} PartIsWithin(parts: seq<string>, part: string, separator: string)
    requires part in parts
    ensures Within(part, Join(parts, separator))
  {
    var n := |parts| - 1;
    var init, last := parts[..n], parts[n];
    assert parts == init + [last];
    if part == last {
      var before := if n == 0 then "" else Join(init, separator) + separator;
      assert Join(parts, separator) == before + part + "";
    } else {
      PartIsWithin(init, part, separator);
      var before, after :| Join(init, separator) == before + part + after;
      assert Join(parts, separator) == before + part + (after + separator + last);
    }
  }

  /** Lower-casing works on parts: that of a text is that of its pieces. */
  ghost predicate WorksOnParts(lower: string -> string) {
    forall a, b :: lower(a + b) == lower(a) + lower(b)
  }

  lemma WithinStays(lower: string -> string, part: string, text: string, marker: string)
    requires WorksOnParts(lower) && Within(part, text) && Within(marker, lower(part))
    ensures Within(marker, lower(text))
  {
    var before, after :| text == before + part + after;
    var b, a :| lower(part) == b + marker + a;
    assert lower(text) == lower(before + part) + lower(after) == lower(before) + lower(part) + lower(after);
    assert lower(text) == (lower(before) + b) + marker + (a + lower(after));
  }

  /** A credential in any text of the map, in any case, is seen. */
  lemma CredentialIsSeen(lower: string -> string, m: CodebaseMap, text: string, marker: string)
    requires WorksOnParts(lower) && text in Fields(m) && Within(marker, lower(text))
    requires marker in {"begin private key", "begin rsa private key", "begin openssh private key", "github_pat_", "ghp_",
                        "glpat-", "akia", "asia", "aiza", "ya29.", "xoxb-", "xoxp-", "xapp-", "sk-live-", "sk-proj-",
                        "sk-ant-", "rk_live_", "whsec_", "npm_", "pypi-"}
    ensures HoldsCredential(lower, m)
  {
    MarkerIsListed(marker);
    hide Fields, Within, Contains, Join, WorksOnParts, CredentialMarkers;
    var all := Join(Fields(m), "\n");
    PartIsWithin(Fields(m), text, "\n");
    WithinStays(lower, text, all, marker);
    WithinIff(marker, lower(all));
  }

  lemma MarkerIsListed(marker: string)
    requires marker in {"begin private key", "begin rsa private key", "begin openssh private key", "github_pat_", "ghp_",
                        "glpat-", "akia", "asia", "aiza", "ya29.", "xoxb-", "xoxp-", "xapp-", "sk-live-", "sk-proj-",
                        "sk-ant-", "rk_live_", "whsec_", "npm_", "pypi-"}
    ensures marker in CredentialMarkers()
  {
    var all := CredentialMarkers();
    assert marker in {all[0], all[1], all[2], all[3], all[4], all[5], all[6], all[7], all[8], all[9], all[10], all[11],
                      all[12], all[13], all[14], all[15], all[16], all[17], all[18], all[19]};
  }

  // What screening hides.

  /** Text that quotes the lines of a verified reference of the map violates. */
  lemma QuotingViolates<H(!new)>(
      p: Printer<H>, repositories: seq<Repository>, m: CodebaseMap, r: Repository, e: EvidenceRef, field: string)
    requires e in Evidence(m) && Find(repositories, e.repositoryId) == Some(r) && r.verifies(e)
    requires var text := Trimmed(r.excerpt(e.blobOid, e.startLine, e.endLine));
             Utf8Length(text) >= 16 && Within(text, field)
    ensures Violates(p, repositories, m, field)
  {
    hide Within, Trimmed, Lines, Utf8Length, Evidence, Copied, Contains, Find;
    QuotesMeans(r.excerpt(e.blobOid, e.startLine, e.endLine), field);
  }

  /** So does text that copies a longer line of a repository. */
  lemma CopyingViolates<H(!new)>(
      p: Printer<H>, repositories: seq<Repository>, m: CodebaseMap, r: Repository, field: string, a: string,
      l: SourceLine, b: string)
    requires r in repositories && l in r.lines && l.bytes <= 8388608 && l.decodes
    requires a in Lines(field) && b in Lines(l.text)
    requires TrimMatches(a, IsWhitespace) == TrimMatches(b, IsWhitespace) && |TrimMatches(a, IsWhitespace)| >= 24
    ensures Violates(p, repositories, m, field)
  {
    hide Hits, Lines, TrimMatches, Evidence;
    CopiedLineIsCaught(p, field, r.lines, a, l, b);
  }

  predicate SameAt(a: seq<string>, b: seq<string>, i: nat) {
    i < |a| == |b| && a[i] == b[i]
  }

  /** In a map that is kept, no violating text is left where it stood. */
  lemma ViolationsAreHidden<H(!new)>(
      p: Printer<H>, repositories: seq<Repository>, m: CodebaseMap, policy: Policy, partial: bool, r: Screened, i: nat)
    requires r.Kept? && Violations(p, repositories, m, r.violations) && KeptFaithfully(m, policy, partial, r)
    requires i < |Fields(m)| && Violates(p, repositories, m, Fields(m)[i])
    ensures SameAt(Fields(r.result), Fields(BlandMap(m)), i)
    ensures r.partial && (i, Fields(m)[i]) in r.screened
  {
    hide Fields, Violates, BlandMap, NeutralReplacements, Frame;
    NeutralIsBland(m);
    assert i in r.violations;
  }
}
