/**
  What the connected-component computation produces, stated without the
  traversal: the least set of projects that contains the seeds and is
  closed under readable dependency edges, the edges among them, and the
  sub-job and copied-artifact relations of its readable members.
*/
module Component {
  import opened Jenkins
  import opened Builders
  import opened Multimap

  /** The end of `e` that the traversal tests and admits when it examines `e` as an upstream (or downstream) dependency. */
  function FarEnd(e: Dep, isUpstream: bool): Proj
  {
    if isUpstream then e.up else e.down
  }

  /**
    The edges the traversal admits when it expands the projects of `s`:
    an edge touching `s` whose two ends are both readable. (The end in
    `s` must be readable for it to be expanded at all, the other end to
    be admitted.)
  */
  function Admitted(h: Host, s: set<Proj>): set<Dep>
  {
    set e | e in h.graph && e.up in h.readable && e.down in h.readable && (e.up in s || e.down in s)
  }

  /** The projects at either end of the edges `ds`. */
  function Ends(ds: set<Dep>): set<Proj>
  {
    (set e | e in ds :: e.up) + (set e | e in ds :: e.down)
  }

  /** Adding the new projects `n` to `s` leaves fewer of the universe `u` outside. */
  lemma GrowthShrinksRest(u: set<Proj>, s: set<Proj>, n: set<Proj>)
    requires n <= u && !(n <= s)
    ensures |u - (s + n)| < |u - s|
  {
    var x :| x in n && x !in s;
    assert u - (s + n) <= (u - s) - {x};
    assert |(u - s) - {x}| == |u - s| - 1;
    SubsetCardinality(u - (s + n), (u - s) - {x});
  }

  lemma SubsetCardinality(a: set<Proj>, b: set<Proj>)
    requires a <= b
    ensures |a| <= |b|
  {
    assert b == a + (b - a);
  }

  /** Admitted edges are edges of the graph, so their ends are graph nodes. */
  lemma EndsOfAdmittedAreNodes(h: Host, s: set<Proj>)
    ensures Ends(Admitted(h, s)) <= Nodes(h)
  {
  }

  /**
    The projects reachable from `s`: `s` itself, grown by the ends of the
    admitted edges until nothing new appears.
  */
  function Reach(h: Host, s: set<Proj>): set<Proj>
    decreases |Nodes(h) - s|
  {
    var next := Ends(Admitted(h, s));
    if next <= s then s
    else
      EndsOfAdmittedAreNodes(h, s);
      GrowthShrinksRest(Nodes(h), s, next);
      Reach(h, s + next)
  }

  /** The projects of the component of `seeds` (the result of getProjects). */
  function Projects(h: Host, seeds: set<Proj>): set<Proj>
  {
    Reach(h, seeds)
  }

  /** The dependency edges of the component of `seeds` (the result of getDependencies). */
  function Dependencies(h: Host, seeds: set<Proj>): set<Dep>
  {
    Admitted(h, Reach(h, seeds))
  }

  /** The sub-jobs recorded when the projects of `s` are expanded: readable projects with a non-empty sub-job list. */
  function SubJobsOf(h: Host, s: set<Proj>): ListMultimap
  {
    map p | p in s && p in h.readable && SubProjectsOf(h, p) != [] :: SubProjectsOf(h, p)
  }

  /** The copied-artifact edges (source, copier) recorded when the projects of `s` are expanded. */
  function CopiedOf(h: Host, s: set<Proj>): set<Dep>
  {
    set p, q | p in s && p in h.readable && q in CopySourcesOf(h, p) :: Dep(q, p)
  }

  /** The sub-job multimap of the component of `seeds` (the result of getSubJobs). */
  function SubJobs(h: Host, seeds: set<Proj>): ListMultimap
  {
    SubJobsOf(h, Reach(h, seeds))
  }

  /** The copied-artifact edges of the component of `seeds` (the result of getCopiedArtifacts). */
  function CopiedArtifacts(h: Host, seeds: set<Proj>): set<Dep>
  {
    CopiedOf(h, Reach(h, seeds))
  }

  // ----- Algebra of one expansion, used by the traversal -----

  lemma AdmittedUnion(h: Host, a: set<Proj>, b: set<Proj>)
    ensures Admitted(h, a + b) == Admitted(h, a) + Admitted(h, b)
  {
  }

  lemma EndsUnion(x: set<Dep>, y: set<Dep>)
    ensures Ends(x + y) == Ends(x) + Ends(y)
  {
  }

  lemma SubJobsOfUnion(h: Host, a: set<Proj>, b: set<Proj>)
    ensures SubJobsOf(h, a + b) == SubJobsOf(h, a) + SubJobsOf(h, b)
  {
  }

  lemma CopiedOfUnion(h: Host, a: set<Proj>, b: set<Proj>)
    ensures CopiedOf(h, a + b) == CopiedOf(h, a) + CopiedOf(h, b)
  {
  }

  lemma NothingExpandedYet(h: Host)
    ensures Admitted(h, {}) == {} && SubJobsOf(h, {}) == map[] && CopiedOf(h, {}) == {}
  {
  }

  /** Expanding the projects of `s` grows `s` only by the ends of the admitted edges. */
  lemma ReachUnfold(h: Host, s: set<Proj>)
    ensures Reach(h, s) == Reach(h, s + Ends(Admitted(h, s)))
  {
    var next := Ends(Admitted(h, s));
    if next <= s {
      assert s + next == s;
    }
  }

  /** A set that expansion does not grow is its own reach. */
  lemma ReachFixed(h: Host, s: set<Proj>)
    requires Ends(Admitted(h, s)) <= s
    ensures Reach(h, s) == s
  {
  }

  // ----- Properties of the component -----

  /** The seeds are always among the projects, readable or not. */
  lemma {:induction false} ReachContainsSeeds(h: Host, s: set<Proj>)
    ensures s <= Reach(h, s)
    decreases |Nodes(h) - s|
  {
    var next := Ends(Admitted(h, s));
    if !(next <= s) {
      EndsOfAdmittedAreNodes(h, s);
      GrowthShrinksRest(Nodes(h), s, next);
      ReachContainsSeeds(h, s + next);
    }
  }

  /** Every project of the component that is not a seed is readable. */
  lemma {:induction false} ReachReadable(h: Host, s: set<Proj>, q: Proj)
    requires q in Reach(h, s) && q !in s
    ensures q in h.readable
    decreases |Nodes(h) - s|
  {
    var next := Ends(Admitted(h, s));
    if !(next <= s) {
      EndsOfAdmittedAreNodes(h, s);
      GrowthShrinksRest(Nodes(h), s, next);
      if q !in next {
        ReachReadable(h, s + next, q);
      }
    }
  }

  /** The component is closed: expanding it admits no edge leading outside it. */
  lemma {:induction false} ReachClosed(h: Host, s: set<Proj>)
    ensures Ends(Admitted(h, Reach(h, s))) <= Reach(h, s)
    decreases |Nodes(h) - s|
  {
    var next := Ends(Admitted(h, s));
    if !(next <= s) {
      EndsOfAdmittedAreNodes(h, s);
      GrowthShrinksRest(Nodes(h), s, next);
      ReachClosed(h, s + next);
    }
  }

  /** The component is the least closed set holding the seeds: it holds nothing that is not reachable. */
  lemma {:induction false} ReachLeast(h: Host, s: set<Proj>, t: set<Proj>)
    requires s <= t && Ends(Admitted(h, t)) <= t
    ensures Reach(h, s) <= t
    decreases |Nodes(h) - s|
  {
    var next := Ends(Admitted(h, s));
    if !(next <= s) {
      EndsOfAdmittedAreNodes(h, s);
      GrowthShrinksRest(Nodes(h), s, next);
      assert Admitted(h, s) <= Admitted(h, t);
      ReachLeast(h, s + next, t);
    }
  }

  /** `path` walks from project to project along edges of `ds`, in either direction. */
  ghost predicate Chain(ds: set<Dep>, path: seq<Proj>)
  {
    forall i | 0 <= i < |path| - 1 :: Dep(path[i], path[i + 1]) in ds || Dep(path[i + 1], path[i]) in ds
  }

  /**
    Every project of the component is joined to some seed by a chain of
    edges, ignoring direction, that are all among the dependencies of
    the component.
  */
  lemma {:induction false} ReachConnected(h: Host, s: set<Proj>, q: Proj)
    requires q in Reach(h, s)
    ensures exists path :: |path| > 0 && path[0] in s && path[|path| - 1] == q && Chain(Admitted(h, Reach(h, s)), path)
    decreases |Nodes(h) - s|
  {
    var next := Ends(Admitted(h, s));
    if next <= s {
      assert Chain(Admitted(h, Reach(h, s)), [q]);
    } else {
      EndsOfAdmittedAreNodes(h, s);
      GrowthShrinksRest(Nodes(h), s, next);
      ReachConnected(h, s + next, q);
      var ds := Admitted(h, Reach(h, s));
      assert Reach(h, s + next) == Reach(h, s);
      var path :| |path| > 0 && path[0] in s + next && path[|path| - 1] == q && Chain(ds, path);
      if path[0] in s {
        assert |path| > 0 && path[0] in s && path[|path| - 1] == q && Chain(ds, path);
      } else {
        var e :| e in Admitted(h, s) && (e.up == path[0] || e.down == path[0]);
        var from := if e.up == path[0] then e.down else e.up;
        assert from in s;
        ReachContainsSeeds(h, s);
        assert e in ds;
        assert e == Dep(from, path[0]) || e == Dep(path[0], from);
        ChainPrepend(ds, from, path);
        var longer := [from] + path;
        assert |longer| > 0 && longer[0] in s && longer[|longer| - 1] == q && Chain(ds, longer);
      }
    }
  }

  /** A chain extends backwards by one edge of `ds` that reaches its first project. */
  lemma ChainPrepend(ds: set<Dep>, from: Proj, path: seq<Proj>)
    requires |path| > 0 && Chain(ds, path)
    requires Dep(from, path[0]) in ds || Dep(path[0], from) in ds
    ensures Chain(ds, [from] + path)
  {
    var longer := [from] + path;
    forall i | 0 <= i < |longer| - 1
      ensures Dep(longer[i], longer[i + 1]) in ds || Dep(longer[i + 1], longer[i]) in ds
    {
      if i > 0 {
        assert longer[i] == path[i - 1] && longer[i + 1] == path[i];
      }
    }
  }

  /** Both ends of every dependency of the component are readable projects of the component. */
  lemma DependenciesWithinProjects(h: Host, seeds: set<Proj>, e: Dep)
    requires e in Dependencies(h, seeds)
    ensures e.up in Projects(h, seeds) && e.down in Projects(h, seeds)
    ensures e.up in h.readable && e.down in h.readable && e in h.graph
  {
    ReachClosed(h, seeds);
  }

  /**
    Closure: for a readable project `p` of the component, every upstream
    (or downstream) dependency whose far end is readable is among the
    dependencies, and that far end is among the projects.
  */
  lemma DependencyClosure(h: Host, seeds: set<Proj>, p: Proj, e: Dep, isUpstream: bool)
    requires p in Projects(h, seeds) && p in h.readable
    requires e in (if isUpstream then Upstream(h, p) else Downstream(h, p))
    requires FarEnd(e, isUpstream) in h.readable
    ensures e in Dependencies(h, seeds)
    ensures FarEnd(e, isUpstream) in Projects(h, seeds)
  {
    ReachClosed(h, seeds);
  }

  /**
    A project without read permission that is not a seed appears nowhere:
    not among the projects, at no end of a dependency, not as a key of
    the sub-jobs and not as the copier of a copied artifact.
  */
  lemma UnreadableExcluded(h: Host, seeds: set<Proj>, q: Proj)
    requires q !in h.readable && q !in seeds
    ensures q !in Projects(h, seeds)
    ensures forall e | e in Dependencies(h, seeds) :: e.up != q && e.down != q
    ensures q !in SubJobs(h, seeds)
    ensures forall e | e in CopiedArtifacts(h, seeds) :: e.down != q
  {
    if q in Reach(h, seeds) {
      ReachReadable(h, seeds, q);
    }
  }

  /**
    Each readable project of the component is expanded exactly once: its
    sub-job list is exactly what its trigger steps list, and no other
    project holds a list.
  */
  lemma SubJobsExact(h: Host, seeds: set<Proj>, p: Proj)
    ensures Get(SubJobs(h, seeds), p) ==
      if p in Projects(h, seeds) && p in h.readable then SubProjectsOf(h, p) else []
    ensures NoEmptyLists(SubJobs(h, seeds))
  {
  }

  /**
    Sub-jobs come only from trigger configuration: a project listed
    under `p` is listed by a trigger step of `p`, and `p` is a readable
    project of the component.
  */
  lemma SubJobsFromTriggers(h: Host, seeds: set<Proj>, p: Proj, q: Proj)
    requires q in Get(SubJobs(h, seeds), p)
    ensures p in Projects(h, seeds) && p in h.readable && h.triggerPlugin
    ensures exists i, j ::
      0 <= i < |FreeStyleBuilders(h, p)| && FreeStyleBuilders(h, p)[i].TriggerBuilder? &&
      0 <= j < |FreeStyleBuilders(h, p)[i].configs| && q in FreeStyleBuilders(h, p)[i].configs[j]
  {
    SubProjectsOfMember(h, p, q);
  }

  /**
    Copied artifacts come only from copy steps: an edge (q, p) means `p`
    is a readable project of the component with a copy step naming the
    project `q`; `q` itself is not checked for permission.
  */
  lemma CopiedArtifactsFromCopySteps(h: Host, seeds: set<Proj>, e: Dep)
    requires e in CopiedArtifacts(h, seeds)
    ensures e.down in Projects(h, seeds) && e.down in h.readable && h.copyArtifactPlugin && e.up in h.items
    ensures exists i :: 0 <= i < |FreeStyleBuilders(h, e.down)| && FreeStyleBuilders(h, e.down)[i] == CopyArtifact(e.up)
  {
    var p, q :| p in Reach(h, seeds) && p in h.readable && q in CopySourcesOf(h, p) && e == Dep(q, p);
    CopySourcesOfMember(h, p, q);
  }

  /** Conversely, every copy step of a readable project of the component whose name resolves yields a copied artifact. */
  lemma CopyStepsYieldCopiedArtifacts(h: Host, seeds: set<Proj>, p: Proj, i: nat)
    requires p in Projects(h, seeds) && p in h.readable && h.copyArtifactPlugin
    requires i < |FreeStyleBuilders(h, p)| && FreeStyleBuilders(h, p)[i].CopyArtifact?
    requires FreeStyleBuilders(h, p)[i].projectName in h.items
    ensures Dep(FreeStyleBuilders(h, p)[i].projectName, p) in CopiedArtifacts(h, seeds)
  {
    CopySourcesOfMember(h, p, FreeStyleBuilders(h, p)[i].projectName);
  }

  /**
    The traversal does not depend on the plugin configuration: sub-job
    targets and copy sources never widen the set of projects.
  */
  lemma {:induction false} ReachIgnoresPluginConfig(h: Host, h': Host, s: set<Proj>)
    requires h'.graph == h.graph && h'.readable == h.readable
    ensures Reach(h', s) == Reach(h, s)
    decreases |Nodes(h) - s|
  {
    assert Admitted(h', s) == Admitted(h, s);
    var next := Ends(Admitted(h, s));
    if !(next <= s) {
      EndsOfAdmittedAreNodes(h, s);
      GrowthShrinksRest(Nodes(h), s, next);
      ReachIgnoresPluginConfig(h, h', s + next);
    }
  }
}
