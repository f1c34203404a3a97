/**
  The calculator of the dependency-graph view: given seed projects, it
  computes, at most once, the connected component of the build
  dependency graph around them, respecting read permission, and records
  the sub-jobs and copied artifacts of the projects it expands.
*/
module DepgraphView {
  import opened Jenkins
  import opened Builders
  import opened Multimap
  import opened Component

  class CalculateDeps {
    /** The host, with the dependency graph as it was when the calculator was built. */
    const host: Host
    /** The projects the calculator was built with. */
    ghost const seeds: set<Proj>

    var visitedDeps: set<Dep>
    var subJobs: ListMultimap
    var copiedArtifacts: set<Dep>
    var visitedProj: set<Proj>
    var calculated: bool

    /**
      Before the computation the calculator holds the seeds and nothing
      else; afterwards it holds the component of the seeds.
    */
    ghost predicate Valid()
      reads this
    {
      if calculated then
        visitedProj == Projects(host, seeds) &&
        visitedDeps == Dependencies(host, seeds) &&
        subJobs == SubJobs(host, seeds) &&
        copiedArtifacts == CopiedArtifacts(host, seeds)
      else
        visitedProj == seeds && visitedDeps == {} && subJobs == map[] && copiedArtifacts == {}
    }

    /** Takes the seeds as they are, without checking their permission. */
    constructor (host: Host, projects: seq<Proj>)
      ensures this.host == host && seeds == set p | p in projects
      ensures Valid() && !calculated
      ensures visitedProj == seeds
    {
      this.host := host;
      seeds := set p | p in projects;
      visitedDeps := {};
      subJobs := map[];
      copiedArtifacts := {};
      visitedProj := set p | p in projects;
      calculated := false;
    }

    /** Runs the computation on the first call only; later calls change nothing. */
    method CalculateNodesAndDependencies()
      requires Valid()
      modifies this
      ensures Valid() && calculated
      ensures old(calculated) ==> unchanged(this)
      ensures seeds <= visitedProj
    {
      if !calculated {
        NothingExpandedYet(host);
        CalculateFrom(visitedProj);
        calculated := true;
      }
      ReachContainsSeeds(host, seeds);
    }

    /**
      Expands round after round, starting from `fromProjects`, until a
      round discovers no new project. The projects of `visitedProj`
      outside the frontier have already been expanded.
    */
    method CalculateFrom(fromProjects: set<Proj>)
      requires fromProjects <= visitedProj
      requires Ends(Admitted(host, visitedProj - fromProjects)) <= visitedProj
      requires visitedDeps == Admitted(host, visitedProj - fromProjects)
      requires subJobs == SubJobsOf(host, visitedProj - fromProjects)
      requires copiedArtifacts == CopiedOf(host, visitedProj - fromProjects)
      modifies this`visitedProj, this`visitedDeps, this`subJobs, this`copiedArtifacts
      ensures visitedProj == Reach(host, old(visitedProj))
      ensures visitedDeps == Admitted(host, visitedProj)
      ensures subJobs == SubJobsOf(host, visitedProj)
      ensures copiedArtifacts == CopiedOf(host, visitedProj)
    {
      var frontier := fromProjects;
      ghost var expanded := visitedProj - fromProjects;
      while frontier != {}
        invariant expanded + frontier == visitedProj && expanded !! frontier
        invariant Reach(host, visitedProj) == Reach(host, old(visitedProj))
        invariant Ends(Admitted(host, expanded)) <= visitedProj
        invariant visitedDeps == Admitted(host, expanded)
        invariant subJobs == SubJobsOf(host, expanded)
        invariant copiedArtifacts == CopiedOf(host, expanded)
        decreases |Nodes(host) - visitedProj|, |frontier|
      {
        var newProj := CalculateRound(frontier, expanded);
        RoundAdvances(host, expanded, frontier, newProj);
        visitedProj := visitedProj + newProj;
        expanded := expanded + frontier;
        frontier := newProj;
      }
      assert expanded == visitedProj;
      ReachFixed(host, visitedProj);
    }

    /**
      One round: expands every readable project of `fromProjects` and
      returns the projects found beyond the visited ones. Projects already
      visited never enter the next frontier.
    */
    method CalculateRound(fromProjects: set<Proj>, ghost expandedBefore: set<Proj>) returns (newProj: set<Proj>)
      requires fromProjects <= visitedProj
      requires Ends(visitedDeps) <= visitedProj
      requires fromProjects !! expandedBefore
      requires subJobs == SubJobsOf(host, expandedBefore)
      modifies this`visitedDeps, this`subJobs, this`copiedArtifacts
      ensures newProj == Ends(Admitted(host, fromProjects)) - visitedProj
      ensures visitedDeps == old(visitedDeps) + Admitted(host, fromProjects)
      ensures subJobs == SubJobsOf(host, expandedBefore + fromProjects)
      ensures copiedArtifacts == old(copiedArtifacts) + CopiedOf(host, fromProjects)
    {
      newProj := {};
      var rest := fromProjects;
      ghost var expanded: set<Proj> := {};
      NothingExpandedYet(host);
      while rest != {}
        invariant expanded + rest == fromProjects && expanded !! rest
        invariant newProj == Ends(Admitted(host, expanded)) - visitedProj
        invariant visitedDeps == old(visitedDeps) + Admitted(host, expanded)
        invariant Ends(visitedDeps) <= visitedProj + newProj
        invariant subJobs == SubJobsOf(host, expandedBefore + expanded)
        invariant copiedArtifacts == old(copiedArtifacts) + CopiedOf(host, expanded)
        decreases rest
      {
        var project :| project in rest;
        if project in host.readable {
          // The round state: projects expanded in earlier rounds, projects
          // expanded so far in this round, the visited edges and copied
          // artifacts when the round began, and the projects found so far.
          var found := ExpandProject(project, expandedBefore, expanded, old(visitedDeps), old(copiedArtifacts), newProj);
          newProj := newProj + found;
        } else {
          SkipStep(host, expanded, project);
          SubJobsStep(host, expandedBefore, expanded, project, subJobs, subJobs);
        }
        rest := rest - {project};
        expanded := expanded + {project};
      }
    }

    /**
      Expands the readable project `project`, the next one of a round
      that has expanded `done` so far (and `before` in earlier rounds):
      admits its edges, returning the projects they reach beyond the
      visited ones, and records its sub-jobs and copied artifacts.
      `d0` and `c0` are the visited edges and copied artifacts when the
      round began, and `found` the projects the round has found so far.
    */
    method ExpandProject(project: Proj, ghost before: set<Proj>, ghost done: set<Proj>,
                         ghost d0: set<Dep>, ghost c0: set<Dep>, ghost found: set<Proj>) returns (newProj: set<Proj>)
      requires project in visitedProj && project in host.readable && project !in before + done
      requires found == Ends(Admitted(host, done)) - visitedProj
      requires visitedDeps == d0 + Admitted(host, done)
      requires Ends(visitedDeps) <= visitedProj + found
      requires subJobs == SubJobsOf(host, before + done)
      requires copiedArtifacts == c0 + CopiedOf(host, done)
      modifies this`visitedDeps, this`subJobs, this`copiedArtifacts
      ensures found + newProj == Ends(Admitted(host, done + {project})) - visitedProj
      ensures visitedDeps == d0 + Admitted(host, done + {project})
      ensures Ends(visitedDeps) <= visitedProj + (found + newProj)
      ensures subJobs == SubJobsOf(host, before + (done + {project}))
      ensures copiedArtifacts == c0 + CopiedOf(host, done + {project})
    {
      // dependencies
      var up := AddNewDependencies(Upstream(host, project), true);
      ghost var depsMid := visitedDeps;
      var down := AddNewDependencies(Downstream(host, project), false);
      newProj := up + down;

      var subProjects := Builders.GetSubProjects(host, project);
      subJobs := PutAll(subJobs, project, subProjects);

      var copiedArtifactsTemp := Builders.GetCopiedArtifacts(host, project);
      AddCopiedArtifacts(copiedArtifactsTemp, project);

      DepsStep(host, visitedProj, d0, done, project, found, up, depsMid, down, visitedDeps);
      SubJobsStep(host, before, done, project, old(subJobs), subJobs);
      CopiedStep(host, c0, done, project, copiedArtifactsTemp, old(copiedArtifacts), copiedArtifacts);
    }

    /**
      Examines the edges `dependencies` of one project, looking at their
      upstream ends when `isUpstream` holds and at their downstream ends
      otherwise. An edge not seen before whose far end is readable is
      admitted; its far end is returned when it is not yet visited.
    */
    method AddNewDependencies(dependencies: set<Dep>, isUpstream: bool) returns (newProj: set<Proj>)
      modifies this`visitedDeps
      ensures visitedDeps == old(visitedDeps) + Admit(host, dependencies, isUpstream)
      ensures newProj == Fars(Admit(host, dependencies, isUpstream) - old(visitedDeps), isUpstream) - visitedProj
    {
      newProj := {};
      var rest := dependencies;
      while rest != {}
        invariant rest <= dependencies
        invariant visitedDeps == old(visitedDeps) + Admit(host, dependencies - rest, isUpstream)
        invariant newProj == Fars(Admit(host, dependencies - rest, isUpstream) - old(visitedDeps), isUpstream) - visitedProj
        invariant rest !! (visitedDeps - old(visitedDeps))
        decreases rest
      {
        var dep :| dep in rest;
        var projectToAdd := if isUpstream then dep.up else dep.down;
        if projectToAdd in host.readable && dep !in visitedDeps {
          visitedDeps := visitedDeps + {dep};
          if projectToAdd !in visitedProj {
            newProj := newProj + {projectToAdd};
          }
        }
        rest := rest - {dep};
      }
    }

    /** Records an edge from each of `sources` to `project` among the copied artifacts. */
    method AddCopiedArtifacts(sources: seq<Proj>, project: Proj)
      modifies this`copiedArtifacts
      ensures copiedArtifacts == old(copiedArtifacts) + CopiedEdges(sources, project)
    {
      var i := 0;
      while i < |sources|
        invariant 0 <= i <= |sources|
        invariant copiedArtifacts == old(copiedArtifacts) + CopiedEdges(sources[..i], project)
      {
        copiedArtifacts := copiedArtifacts + {Dep(sources[i], project)};
        assert sources[..i + 1][..i] == sources[..i];
        i := i + 1;
      }
      assert sources[..i] == sources;
    }

    /** The projects of the component; computes it first if needed. */
    method GetProjects() returns (r: set<Proj>)
      requires Valid()
      modifies this
      ensures Valid() && calculated
      ensures old(calculated) ==> unchanged(this)
      ensures r == Projects(host, seeds)
    {
      if !calculated {
        CalculateNodesAndDependencies();
      }
      r := visitedProj;
    }

    /** The dependencies of the component; computes it first if needed. */
    method GetDependencies() returns (r: set<Dep>)
      requires Valid()
      modifies this
      ensures Valid() && calculated
      ensures old(calculated) ==> unchanged(this)
      ensures r == Dependencies(host, seeds)
    {
      if !calculated {
        CalculateNodesAndDependencies();
      }
      r := visitedDeps;
    }

    /** The sub-jobs of the component; computes it first if needed. */
    method GetSubJobs() returns (r: ListMultimap)
      requires Valid()
      modifies this
      ensures Valid() && calculated
      ensures old(calculated) ==> unchanged(this)
      ensures r == SubJobs(host, seeds)
    {
      if !calculated {
        CalculateNodesAndDependencies();
      }
      r := subJobs;
    }

    /** The copied artifacts of the component; computes it first if needed. */
    method GetCopiedArtifacts() returns (r: set<Dep>)
      requires Valid()
      modifies this
      ensures Valid() && calculated
      ensures old(calculated) ==> unchanged(this)
      ensures r == CopiedArtifacts(host, seeds)
    {
      if !calculated {
        CalculateNodesAndDependencies();
      }
      r := copiedArtifacts;
    }
  }

  /** The edges of `ds` whose far end is readable. */
  function Admit(h: Host, ds: set<Dep>, isUpstream: bool): set<Dep>
  {
    set e | e in ds && FarEnd(e, isUpstream) in h.readable
  }

  /** The far ends of the edges `ds`. */
  function Fars(ds: set<Dep>, isUpstream: bool): set<Proj>
  {
    set e | e in ds :: FarEnd(e, isUpstream)
  }

  /** The copied-artifact edges from each of `sources` to `p`. */
  function CopiedEdges(sources: seq<Proj>, p: Proj): set<Dep>
  {
    if sources == [] then {} else CopiedEdges(sources[..|sources| - 1], p) + {Dep(sources[|sources| - 1], p)}
  }

  lemma {:induction false} CopiedEdgesMember(sources: seq<Proj>, p: Proj, e: Dep)
    ensures e in CopiedEdges(sources, p) <==> e.down == p && e.up in sources
    decreases |sources|
  {
    if sources != [] {
      var n := |sources| - 1;
      CopiedEdgesMember(sources[..n], p, e);
      assert sources == sources[..n] + [sources[n]];
    }
  }

  /** An unreadable project contributes no edge and no copied artifact when the traversal reaches it. */
  lemma SkipStep(h: Host, done: set<Proj>, p: Proj)
    requires p !in h.readable
    ensures Admitted(h, done + {p}) == Admitted(h, done)
    ensures CopiedOf(h, done + {p}) == CopiedOf(h, done)
  {
  }

  /** Recording the copy sources of the readable project `p` records the copied artifacts of one more expansion. */
  lemma CopiedStep(h: Host, c0: set<Dep>, done: set<Proj>, p: Proj, sources: seq<Proj>, cBefore: set<Dep>, c: set<Dep>)
    requires p in h.readable && sources == CopySourcesOf(h, p)
    requires cBefore == c0 + CopiedOf(h, done)
    requires c == cBefore + CopiedEdges(sources, p)
    ensures c == c0 + CopiedOf(h, done + {p})
  {
    CopiedOfUnion(h, done, {p});
    forall e ensures e in CopiedEdges(sources, p) <==> e in CopiedOf(h, {p}) {
      CopiedEdgesMember(sources, p, e);
    }
  }

  /**
    Expanding the readable project `p` of the visited set `v` with both
    calls of AddNewDependencies (the first leaving the visited edges at
    `dMid`, the second at `d2`) admits the edges of `p` and adds to the
    new projects exactly the ends of those edges outside `v`.
  */
  lemma DepsStep(h: Host, v: set<Proj>, d0: set<Dep>, done: set<Proj>, p: Proj, n: set<Proj>,
                 up: set<Proj>, dMid: set<Dep>, down: set<Proj>, d2: set<Dep>)
    requires p in v && p in h.readable
    requires n == Ends(Admitted(h, done)) - v
    requires Ends(d0 + Admitted(h, done)) <= v + n
    requires up == Fars(Admit(h, Upstream(h, p), true) - (d0 + Admitted(h, done)), true) - v
    requires dMid == d0 + Admitted(h, done) + Admit(h, Upstream(h, p), true)
    requires down == Fars(Admit(h, Downstream(h, p), false) - dMid, false) - v
    requires d2 == dMid + Admit(h, Downstream(h, p), false)
    ensures n + (up + down) == Ends(Admitted(h, done + {p})) - v
    ensures d2 == d0 + Admitted(h, done + {p})
    ensures Ends(d2) <= v + (n + (up + down))
  {
    var d := d0 + Admitted(h, done);
    ExpandOne(h, v, d, n, p, up, down);
    AdmittedUnion(h, done, {p});
    EndsUnion(Admitted(h, done), Admitted(h, {p}));
  }

  /** Expanding one more project `p` appends its sub-jobs, if it is readable. */
  lemma SubJobsStep(h: Host, before: set<Proj>, done: set<Proj>, p: Proj, m: ListMultimap, m': ListMultimap)
    requires p !in before + done
    requires m == SubJobsOf(h, before + done)
    requires m' == if p in h.readable then PutAll(m, p, SubProjectsOf(h, p)) else m
    ensures m' == SubJobsOf(h, before + (done + {p}))
  {
    var vs := SubProjectsOf(h, p);
    assert before + (done + {p}) == before + done + {p};
    if p in h.readable && vs != [] {
      assert p !in m;
      assert Get(m, p) + vs == vs;
      assert SubJobsOf(h, before + done + {p}) == m[p := vs];
    } else {
      assert SubJobsOf(h, before + done + {p}) == m;
    }
  }

  /**
    One round of the traversal, seen from outside: with `e` the projects
    expanded before and `f` the frontier, merging what `f` found beyond
    the visited projects `e + f` is one expansion of all of them, so the
    component stays the same and, when something new was found, fewer
    graph nodes remain unvisited. The unions of `Admitted` and `CopiedOf`
    over `e + f` are restated here so that the loop of CalculateFrom can
    re-establish its invariants from this one call.
  */
  lemma RoundAdvances(h: Host, e: set<Proj>, f: set<Proj>, n: set<Proj>)
    requires e !! f
    requires Ends(Admitted(h, e)) <= e + f
    requires n == Ends(Admitted(h, f)) - (e + f)
    ensures (e + f) !! n
    ensures Admitted(h, e + f) == Admitted(h, e) + Admitted(h, f)
    ensures CopiedOf(h, e + f) == CopiedOf(h, e) + CopiedOf(h, f)
    ensures Ends(Admitted(h, e + f)) <= e + f + n
    ensures Reach(h, e + f + n) == Reach(h, e + f)
    ensures n != {} ==> |Nodes(h) - (e + f + n)| < |Nodes(h) - (e + f)|
  {
    var v := e + f;
    AdmittedUnion(h, e, f);
    EndsUnion(Admitted(h, e), Admitted(h, f));
    CopiedOfUnion(h, e, f);
    ReachUnfold(h, v);
    assert v + Ends(Admitted(h, v)) == v + n;
    if n != {} {
      EndsOfAdmittedAreNodes(h, f);
      GrowthShrinksRest(Nodes(h), v, n);
    }
  }

  /**
    Expanding the readable project `p` of the visited set `v` with both
    calls of AddNewDependencies adds to the new projects exactly the ends
    of the edges admitted from `p` that lie outside `v`, and keeps every
    visited edge within the visited and new projects.
  */
  lemma ExpandOne(h: Host, v: set<Proj>, d: set<Dep>, n: set<Proj>, p: Proj, up: set<Proj>, down: set<Proj>)
    requires p in v && p in h.readable
    requires Ends(d) <= v + n
    requires up == Fars(Admit(h, Upstream(h, p), true) - d, true) - v
    requires down == Fars(Admit(h, Downstream(h, p), false) - (d + Admit(h, Upstream(h, p), true)), false) - v
    ensures n + up + down == n + (Ends(Admitted(h, {p})) - v)
    ensures Admitted(h, {p}) == Admit(h, Upstream(h, p), true) + Admit(h, Downstream(h, p), false)
    ensures Ends(d + Admitted(h, {p})) <= v + n + up + down
  {
    var ups := Admit(h, Upstream(h, p), true);
    var downs := Admit(h, Downstream(h, p), false);
    assert Admitted(h, {p}) == ups + downs;
    forall x | x in Ends(Admitted(h, {p})) && x !in v
      ensures x in n + up + down
    {
      var e :| e in Admitted(h, {p}) && (e.up == x || e.down == x);
      if e in d {
        assert x in Ends(d);
      } else if e.down == p {
        assert e in ups && x == e.up;
      } else {
        assert e in downs && e !in ups && x == e.down;
      }
    }
    forall x | x in Ends(d + Admitted(h, {p}))
      ensures x in v + n + up + down
    {
      var e :| e in d + Admitted(h, {p}) && (e.up == x || e.down == x);
      if e in d {
        assert x in Ends(d);
      } else if x != p && x !in v {
        assert x in Ends(Admitted(h, {p}));
      }
    }
  }
}
