/**
  Small concrete hosts on which the component is worked out in full:
  an isolated seed, one readable and one unreadable downstream edge, a
  trigger step that names a project outside the graph, and a copy step
  whose source project the user cannot read.
*/
module Scenarios {
  import opened Jenkins
  import opened Builders
  import opened Component

  /** A host without plugins or items, holding only the dependency graph and read permission. */
  function PlainHost(graph: set<Dep>, readable: set<Proj>): Host
  {
    Host(graph, readable, map[], false, false)
  }

  /** A seed with no edges is its own component, and every relation of it is empty. */
  lemma IsolatedSeed(x: Proj)
    ensures Projects(PlainHost({}, {x}), {x}) == {x}
    ensures Dependencies(PlainHost({}, {x}), {x}) == {}
    ensures SubJobs(PlainHost({}, {x}), {x}) == map[]
    ensures CopiedArtifacts(PlainHost({}, {x}), {x}) == {}
  {
    var h := PlainHost({}, {x});
    assert Admitted(h, {x}) == {};
    ReachFixed(h, {x});
  }

  /** A readable downstream project joins the component, together with the edge to it. */
  lemma ReadableDownstream(a: Proj, b: Proj)
    requires a != b
    ensures Projects(PlainHost({Dep(a, b)}, {a, b}), {a}) == {a, b}
    ensures Dependencies(PlainHost({Dep(a, b)}, {a, b}), {a}) == {Dep(a, b)}
  {
    var h := PlainHost({Dep(a, b)}, {a, b});
    assert Dep(a, b) in Admitted(h, {a});
    assert Admitted(h, {a}) == {Dep(a, b)};
    assert Ends({Dep(a, b)}) == {a, b};
    ReachUnfold(h, {a});
    assert {a} + {a, b} == {a, b};
    assert Admitted(h, {a, b}) == {Dep(a, b)};
    ReachFixed(h, {a, b});
  }

  /** An unreadable downstream project stays out, and so does the edge to it. */
  lemma UnreadableDownstream(a: Proj, b: Proj)
    requires a != b
    ensures Projects(PlainHost({Dep(a, b)}, {a}), {a}) == {a}
    ensures Dependencies(PlainHost({Dep(a, b)}, {a}), {a}) == {}
  {
    var h := PlainHost({Dep(a, b)}, {a});
    assert Admitted(h, {a}) == {};
    ReachFixed(h, {a});
  }

  /**
    A trigger step records its target as a sub-job of the seed, but the
    target does not join the component when no dependency edge leads to it.
  */
  lemma SubJobOutsideComponent(a: Proj, c: Proj)
    requires a != c
    ensures SubJobs(Host({}, {a, c}, map[a := FreeStyle([TriggerBuilder([[c]])])], false, true), {a}) == map[a := [c]]
    ensures c !in Projects(Host({}, {a, c}, map[a := FreeStyle([TriggerBuilder([[c]])])], false, true), {a})
  {
    var h := Host({}, {a, c}, map[a := FreeStyle([TriggerBuilder([[c]])])], false, true);
    assert Admitted(h, {a}) == {};
    ReachFixed(h, {a});
    var bs := [TriggerBuilder([[c]])];
    assert FreeStyleBuilders(h, a) == bs;
    assert [[c]][..0] == [];
    assert Flatten([[c]]) == [c];
    assert bs[..0] == [];
    assert SubProjectsIn(bs) == [c];
    assert SubProjectsOf(h, a) == [c];
  }

  /**
    A copy step is recorded even when the user cannot read the project it
    copies from: the copied-artifact edges of a component may start at an
    unreadable project, unlike its dependency edges. (The name lookup of
    the host is an exact full-name match that ignores permission.)
  */
  lemma UnreadableCopySource(a: Proj, b: Proj)
    requires a != b
    ensures b !in Projects(Host({}, {a}, map[a := FreeStyle([CopyArtifact(b)]), b := OtherKind], true, false), {a})
    ensures Dep(b, a) in CopiedArtifacts(Host({}, {a}, map[a := FreeStyle([CopyArtifact(b)]), b := OtherKind], true, false), {a})
  {
    var h := Host({}, {a}, map[a := FreeStyle([CopyArtifact(b)]), b := OtherKind], true, false);
    assert Admitted(h, {a}) == {};
    ReachFixed(h, {a});
    var bs := [CopyArtifact(b)];
    assert FreeStyleBuilders(h, a) == bs;
    assert bs[..0] == [];
    assert CopySourcesIn(h, bs) == [b];
    assert CopySourcesOf(h, a) == [b];
  }
}
