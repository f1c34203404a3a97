# CalculateDeps of the Jenkins dependency-graph view, in Dafny

The dependency-graph view plugin for Jenkins draws the part of the build
dependency graph that surrounds a set of projects. Its class
`CalculateDeps` is handed the seed projects and computes the connected
component around them. It walks the dependency graph upstream and
downstream, round by round, and admits an edge only when the project at
its far end is readable by the current user. It also records two
relations that come from plugin configuration rather than from the graph:

- the sub-jobs named by the trigger steps of parameterized-trigger;
- the projects whose artifacts a copyartifact step copies.

The computation runs at most once. Its four accessors return the
projects, the dependencies, the sub-job multimap and the copied-artifact
edges of the component.

This project models that class and proves what it computes.

- `jenkins.dfy` (module `Jenkins`) holds the host as the class sees it:
  - the dependency graph as a set of `Dep(up, down)` edges, from which the
    upstream and downstream dependencies of a project are read;
  - the set of readable projects;
  - the item table that resolves full names to projects, with the
    builders of the free-style ones;
  - whether each of the two plugins is installed.
- `builders.dfy` (module `Builders`) holds `getCopiedArtifacts` and
  `getSubProjects`. Each is an imperative loop over the builders, proved
  equal to a reference function. Each function has membership lemmas: a
  project is listed exactly when some builder step names it.
- `multimap.dfy` (module `Multimap`) holds the Guava `ListMultimap`
  operation the class uses: `putAll` appends, and with an empty list it
  adds no key.
- `component.dfy` (module `Component`) specifies the result without the
  traversal. `Reach` is the least set that contains the seeds and is
  closed under admitted edges, where an admitted edge touches the set and
  has two readable ends. The other results are:
  - the dependencies: the admitted edges of that set;
  - the sub-jobs: the trigger targets of its readable members;
  - the copied artifacts: the copy sources of its readable members.

  Its lemmas prove, among others:
  - the seeds are contained;
  - the set is closed and least;
  - every project is connected to a seed;
  - unreadable projects other than the seeds are excluded from the
    projects, from both ends of every dependency, from the sub-job keys
    and from the copying end of copied artifacts;
  - the auxiliary relations come only from plugin configuration.
- `calculate_deps.dfy` (module `DepgraphView`) is the class itself. It has
  the mutable fields `visitedDeps`, `subJobs`, `copiedArtifacts`,
  `visitedProj` and `calculated`. Its methods follow the Java control
  flow:
  - a round over the frontier, with the two `addNewDependencies` calls;
  - the sub-job `putAll` and the copied-artifact loop;
  - the memoizing accessors.

  Each method is proved against the functions of `Component`, and the
  class invariant `Valid` ties the fields to them.
- `scenarios.dfy` (module `Scenarios`) works the component out on small
  concrete hosts.

## Model

| member | source | states |
|---|---|---|
| Jenkins.Upstream | src/main/java/hudson/plugins/depgraph_view/CalculateDeps.java:142-143 | every upstream dependency of `p` is a graph edge whose downstream project is `p` |
| Jenkins.Downstream | src/main/java/hudson/plugins/depgraph_view/CalculateDeps.java:144-145 | every downstream dependency of `p` is a graph edge whose upstream project is `p` |
| Builders.GetCopiedArtifacts | src/main/java/hudson/plugins/depgraph_view/CalculateDeps.java:77-106 | the loop over the builders returns exactly the copy sources of the project, in builder order; without the copyartifact plugin the list is empty |
| Builders.GetSubProjects | src/main/java/hudson/plugins/depgraph_view/CalculateDeps.java:108-135 | the loop over the builders returns exactly the sub-projects of the project, in builder order; without the parameterized-trigger plugin the list is empty |
| Builders.AddTriggered | src/main/java/hudson/plugins/depgraph_view/CalculateDeps.java:123-129 | the nested loops over the configurations of one trigger step append every listed project, configuration by configuration, keeping order and duplicates |
| Builders.CopySourcesInAppend | src/main/java/hudson/plugins/depgraph_view/CalculateDeps.java:88-101 | the copy sources of a split builder list are those of the first part followed by those of the second |
| Builders.CopySourcesInMember | src/main/java/hudson/plugins/depgraph_view/CalculateDeps.java:88-101 | a project is a copy source of a builder list iff its name resolves and some builder is a copy step naming it |
| Builders.CopySourcesOfMember | src/main/java/hudson/plugins/depgraph_view/CalculateDeps.java:77-106 | a project is a copy source of `p` iff the copyartifact plugin is installed, its name resolves, and some builder of free-style `p` is a copy step naming it |
| Builders.FlattenAppend | src/main/java/hudson/plugins/depgraph_view/CalculateDeps.java:124-129 | the projects of split trigger configurations are those of the first part followed by those of the second |
| Builders.FlattenMember | src/main/java/hudson/plugins/depgraph_view/CalculateDeps.java:124-129 | a project is listed by a sequence of trigger configurations iff one of the configurations lists it |
| Builders.SubProjectsInAppend | src/main/java/hudson/plugins/depgraph_view/CalculateDeps.java:119-131 | the sub-projects of a split builder list are those of the first part followed by those of the second |
| Builders.SubProjectsInMember | src/main/java/hudson/plugins/depgraph_view/CalculateDeps.java:119-131 | a project is a sub-project of a builder list iff some trigger step among the builders lists it in one of its configurations |
| Builders.SubProjectsOfMember | src/main/java/hudson/plugins/depgraph_view/CalculateDeps.java:108-135 | a project is a sub-project of `p` iff the parameterized-trigger plugin is installed and a trigger step of free-style `p` lists it |
| Multimap.PutAll | src/main/java/hudson/plugins/depgraph_view/CalculateDeps.java:147 | the list under the key grows by the given values at its end; every other key keeps its list; the key set grows only when the values are non-empty; no key is left holding an empty list |
| Component.ReachUnfold | src/main/java/hudson/plugins/depgraph_view/CalculateDeps.java:155-158 | adding the ends of the edges admitted from a set does not change what is reachable from it |
| Component.ReachFixed | src/main/java/hudson/plugins/depgraph_view/CalculateDeps.java:156 | a set that an expansion does not grow is its own component, which is why the traversal may stop when a round finds nothing new |
| Component.ReachContainsSeeds | src/main/java/hudson/plugins/depgraph_view/CalculateDeps.java:65-68 | every seed is among the projects of the component, readable or not |
| Component.ReachReadable | src/main/java/hudson/plugins/depgraph_view/CalculateDeps.java:166-171 | every project of the component that is not a seed is readable |
| Component.ReachClosed | src/main/java/hudson/plugins/depgraph_view/CalculateDeps.java:139-158 | expanding the component admits no edge with an end outside it |
| Component.ReachLeast | src/main/java/hudson/plugins/depgraph_view/CalculateDeps.java:139-158 | the component lies within every set that holds the seeds and is closed under admitted edges, so it holds nothing unreachable |
| Component.ReachConnected | src/main/java/hudson/plugins/depgraph_view/CalculateDeps.java:139-172 | every project of the component is joined to a seed by a path, in either direction, along dependencies of the component |
| Component.DependenciesWithinProjects | src/main/java/hudson/plugins/depgraph_view/CalculateDeps.java:165-171 | both ends of each dependency of the component are readable projects of the component, and the dependency is a graph edge |
| Component.DependencyClosure | src/main/java/hudson/plugins/depgraph_view/CalculateDeps.java:140-145 | for a readable project of the component, each upstream or downstream dependency with a readable far end is among the dependencies, and its far end is among the projects |
| Component.UnreadableExcluded | src/main/java/hudson/plugins/depgraph_view/CalculateDeps.java:140 | a project that is unreadable and not a seed is not among the projects, is at no end of a dependency, holds no sub-job list and copies no artifact |
| Component.SubJobsExact | src/main/java/hudson/plugins/depgraph_view/CalculateDeps.java:140-147 | a readable project of the component holds exactly its sub-projects; every other project holds nothing; no key holds an empty list |
| Component.SubJobsFromTriggers | src/main/java/hudson/plugins/depgraph_view/CalculateDeps.java:147 | a sub-job recorded under `p` was listed by a trigger step of `p`, and `p` is a readable project of the component with the plugin installed |
| Component.CopiedArtifactsFromCopySteps | src/main/java/hudson/plugins/depgraph_view/CalculateDeps.java:149-152 | a copied artifact (q, p) comes from a copy step of `p` naming the resolvable project `q`, and `p` is a readable project of the component with the plugin installed |
| Component.CopyStepsYieldCopiedArtifacts | src/main/java/hudson/plugins/depgraph_view/CalculateDeps.java:149-152 | every resolvable copy step of a readable project of the component yields a copied artifact |
| Component.ReachIgnoresPluginConfig | src/main/java/hudson/plugins/depgraph_view/CalculateDeps.java:137-159 | the projects of the component depend only on the graph and on permission; sub-jobs and copy sources never widen it |
| DepgraphView.CalculateDeps.constructor | src/main/java/hudson/plugins/depgraph_view/CalculateDeps.java:65-68 | the visited projects are exactly the given projects, with no permission check; everything else is empty and nothing is calculated |
| DepgraphView.CalculateDeps.CalculateNodesAndDependencies | src/main/java/hudson/plugins/depgraph_view/CalculateDeps.java:70-75 | afterwards the four fields hold the component of the seeds; a second call changes nothing |
| DepgraphView.CalculateDeps.CalculateFrom | src/main/java/hudson/plugins/depgraph_view/CalculateDeps.java:137-159 | the rounds end with the visited projects equal to the component of those visited at the start, and the visited edges, sub-jobs and copied artifacts equal to those of expanding every readable one of them |
| DepgraphView.CalculateDeps.CalculateRound | src/main/java/hudson/plugins/depgraph_view/CalculateDeps.java:138-154 | one round adds the admitted edges, sub-jobs and copied artifacts of the frontier, and returns exactly the ends of its admitted edges that were not yet visited |
| DepgraphView.CalculateDeps.ExpandProject | src/main/java/hudson/plugins/depgraph_view/CalculateDeps.java:140-153 | expanding one readable project records its admitted edges, its sub-jobs and its copied artifacts, and returns the unvisited ends of its admitted edges |
| DepgraphView.CalculateDeps.AddNewDependencies | src/main/java/hudson/plugins/depgraph_view/CalculateDeps.java:161-175 | the visited edges grow by exactly the given edges whose far end is readable; the result is the far ends of those that were new, minus the visited projects |
| DepgraphView.CalculateDeps.AddCopiedArtifacts | src/main/java/hudson/plugins/depgraph_view/CalculateDeps.java:149-152 | the copied artifacts grow by exactly one edge from each source to the project |
| DepgraphView.CalculateDeps.GetProjects | src/main/java/hudson/plugins/depgraph_view/CalculateDeps.java:181-186 | returns the projects of the component of the seeds, calculating them only on the first call |
| DepgraphView.CalculateDeps.GetDependencies | src/main/java/hudson/plugins/depgraph_view/CalculateDeps.java:192-197 | returns the dependencies of the component of the seeds, calculating them only on the first call |
| DepgraphView.CalculateDeps.GetSubJobs | src/main/java/hudson/plugins/depgraph_view/CalculateDeps.java:199-204 | returns the sub-jobs of the component of the seeds, calculating them only on the first call |
| DepgraphView.CalculateDeps.GetCopiedArtifacts | src/main/java/hudson/plugins/depgraph_view/CalculateDeps.java:206-211 | returns the copied artifacts of the component of the seeds, calculating them only on the first call |
| DepgraphView.CopiedEdgesMember | src/main/java/hudson/plugins/depgraph_view/CalculateDeps.java:150-152 | an edge is recorded for a list of copy sources iff it leads from one of them to the copying project |
| DepgraphView.SkipStep | src/main/java/hudson/plugins/depgraph_view/CalculateDeps.java:140 | an unreadable project of the frontier contributes no dependency and no copied artifact |
| DepgraphView.CopiedStep | src/main/java/hudson/plugins/depgraph_view/CalculateDeps.java:149-152 | recording the copy sources of a readable project yields the copied artifacts of one more expanded project |
| DepgraphView.SubJobsStep | src/main/java/hudson/plugins/depgraph_view/CalculateDeps.java:147 | the `putAll` of a readable project, or nothing for an unreadable one, yields the sub-jobs of one more expanded project |
| DepgraphView.DepsStep | src/main/java/hudson/plugins/depgraph_view/CalculateDeps.java:142-145 | the two `addNewDependencies` calls of a readable project admit exactly its admitted edges and add exactly their unvisited ends to the round's new projects |
| DepgraphView.ExpandOne | src/main/java/hudson/plugins/depgraph_view/CalculateDeps.java:142-145 | the upstream and downstream edges admitted by the two calls are the admitted edges of the project, and their unvisited ends are the new projects |
| DepgraphView.RoundAdvances | src/main/java/hudson/plugins/depgraph_view/CalculateDeps.java:155-158 | merging a round's new projects keeps the component unchanged, and when the round found something, fewer graph nodes stay unvisited, so the rounds end |
| Scenarios.IsolatedSeed | src/main/java/hudson/plugins/depgraph_view/CalculateDeps.java:137-159 | a seed without edges is its own component; its dependencies, sub-jobs and copied artifacts are empty |
| Scenarios.ReadableDownstream | src/main/java/hudson/plugins/depgraph_view/CalculateDeps.java:144-145 | with one edge a→b and b readable, the component is {a, b} with that one dependency |
| Scenarios.UnreadableDownstream | src/main/java/hudson/plugins/depgraph_view/CalculateDeps.java:167 | with one edge a→b and b unreadable, the component is {a} with no dependency |
| Scenarios.SubJobOutsideComponent | src/main/java/hudson/plugins/depgraph_view/CalculateDeps.java:147 | a trigger target is recorded as a sub-job of the seed but does not join the projects |
| Scenarios.UnreadableCopySource | src/main/java/hudson/plugins/depgraph_view/CalculateDeps.java:149-152 | a copied-artifact edge is recorded from a project the user cannot read, and that project is not among the projects |

## Notes on the source

- Unlike the dependency edges, copied-artifact edges may start at a
  project the user cannot read.
  - The class checks the permission only of the copying project, at line 140.
  - The class adds no permission check of its own on the project named by
    a copy step, at lines 93-98. It relies on the host's name lookup.
  - In the model that lookup ignores permission (see "## Left out").
    `Component.CopiedArtifactsFromCopySteps` states that the source `q` is
    not checked, and `Scenarios.UnreadableCopySource` exhibits such an edge.
- The sub-job lists are likewise recorded by the class without checking the permission
  of the listed projects.

## Left out

- The Jenkins singleton, its plugin lookups and its item table are not
  queried at run time. They are the fixed value `Host`, which the
  constructor receives. The dependency graph, read permission and plugin
  presence therefore cannot change during a computation.
- Permission is a set of readable projects. The current user and
  `hasPermission(Item.READ)` are not modelled beyond it.
- `Builders.GetSubProjects`: `getProjectList(null)` of a trigger
  configuration is taken as already resolved, a list of projects per
  configuration. Names that resolve to no project are dropped there, in
  code that is not part of this model, so they never appear.
- `Builders.CopySource`, `Builders.GetCopiedArtifacts`: the name lookup
  `getItemByFullName` at line 95 is an exact full-name match against
  `Host.items`. It ignores read permission and never throws, and the
  project it returns is identified with the name it was given. A host
  whose lookup hides unreadable items, or throws for an item the user
  can only discover, would record fewer copied-artifact edges than the
  model.
- Projects are identified by full name. The Java instanceof tests become
  the datatype cases `FreeStyle`, `CopyArtifact` and `TriggerBuilder`.
- HashSet iteration order is not modelled. Each loop over a set picks an
  arbitrary element, so the proofs hold for every order.
- `Jenkins.Upstream` and `Jenkins.Downstream`: the graph's dependency
  lists are sets here. A dependency listed twice would be skipped the
  second time by the `visitedDeps` check anyway.
- The Java recursion at line 157 becomes a loop over successive frontiers.
- `CalculateNodesAndDependencies(visitedProj)` iterates the very set it
  later extends. In the model the frontier is a copy, because the Java
  loop ends before `visitedProj` is extended, so the aliasing is never
  observed.
- `DepgraphView.CalculateDeps.GetProjects`, `GetDependencies` and
  `GetCopiedArtifacts` return the value of the field. Dafny sets are
  immutable values, so `Collections.unmodifiableSet` adds nothing to
  model.
- `DepgraphView.CalculateDeps.GetSubJobs` returns the multimap as a value.
  The Java returns the live, mutable multimap, so a caller's later changes
  to it are not modelled.
- The `LOGGER` field is never used, so it is not modelled.
- The seeds are given as a sequence. Like `addAll` into a HashSet, the
  constructor keeps each project once.
