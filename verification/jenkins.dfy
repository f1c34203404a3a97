/**
  The parts of the Jenkins (Hudson) host that the dependency-graph view
  consults while it computes a connected component: the build dependency
  graph, read permission, the item table, the builders of free-style
  projects and whether the two optional plugins are installed.
  They are fixed values here; the view only reads them.
*/
module Jenkins {

  /** A project, identified by its full name, which Jenkins keeps unique. */
  type Proj = string

  /** A dependency edge of the build graph: a build of `up` leads to a build of `down`. */
  datatype Dep = Dep(up: Proj, down: Proj)

  /** The builders of a free-style project that the view distinguishes. */
  datatype Builder =
    | CopyArtifact(projectName: string)        // copies the artifacts of the project named
    | TriggerBuilder(configs: seq<seq<Proj>>)  // per trigger configuration, the projects it lists
    | OtherBuilder

  /** What kind of project an item is; only free-style projects carry builders the view reads. */
  datatype ProjectKind = FreeStyle(builders: seq<Builder>) | OtherKind

  /**
    The host as seen from the view.
    `graph` holds every dependency edge; the upstream and downstream
    dependencies of a project are read off it.
    `readable` holds the projects on which the current user has read permission.
    `items` maps each full name that resolves to a project to its kind.
  */
  datatype Host = Host(
    graph: set<Dep>,
    readable: set<Proj>,
    items: map<string, ProjectKind>,
    copyArtifactPlugin: bool,
    triggerPlugin: bool)

  /** The dependencies leading into `p`: every one of them has `p` downstream. */
  function Upstream(h: Host, p: Proj): (r: set<Dep>)
    ensures forall e | e in r :: e in h.graph && e.down == p
  {
    set e | e in h.graph && e.down == p
  }

  /** The dependencies leading out of `p`: every one of them has `p` upstream. */
  function Downstream(h: Host, p: Proj): (r: set<Dep>)
    ensures forall e | e in r :: e in h.graph && e.up == p
  {
    set e | e in h.graph && e.up == p
  }

  /** Every project that is an end of some dependency edge. */
  function Nodes(h: Host): set<Proj>
  {
    (set e | e in h.graph :: e.up) + (set e | e in h.graph :: e.down)
  }
}
