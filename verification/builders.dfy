/**
  How the view reads the two optional plugins' configuration out of a
  project's builders: the projects a project triggers as sub-jobs
  (parameterized-trigger) and the projects it copies artifacts from
  (copyartifact).
*/
module Builders {
  import opened Jenkins

  /** The builders of `p` if it is a free-style project; any other project offers none. */
  function FreeStyleBuilders(h: Host, p: Proj): seq<Builder>
  {
    if p in h.items && h.items[p].FreeStyle? then h.items[p].builders else []
  }

  /** The project one builder copies artifacts from, if it is a copy step whose name resolves. */
  function CopySource(h: Host, b: Builder): seq<Proj>
  {
    if b.CopyArtifact? && b.projectName in h.items then [b.projectName] else []
  }

  /** The copy sources named by the builders `bs`, in builder order. */
  function CopySourcesIn(h: Host, bs: seq<Builder>): seq<Proj>
  {
    if bs == [] then [] else CopySourcesIn(h, bs[..|bs| - 1]) + CopySource(h, bs[|bs| - 1])
  }

  /** Reference definition of the copy sources of `p`. */
  function CopySourcesOf(h: Host, p: Proj): seq<Proj>
  {
    if h.copyArtifactPlugin then CopySourcesIn(h, FreeStyleBuilders(h, p)) else []
  }

  /** The project lists of several trigger configurations, one after the other. */
  function Flatten(lists: seq<seq<Proj>>): seq<Proj>
  {
    if lists == [] then [] else Flatten(lists[..|lists| - 1]) + lists[|lists| - 1]
  }

  /** The projects one builder triggers, if it is a trigger step. */
  function Triggered(b: Builder): seq<Proj>
  {
    if b.TriggerBuilder? then Flatten(b.configs) else []
  }

  /** The sub-jobs triggered by the builders `bs`, in builder order, duplicates kept. */
  function SubProjectsIn(bs: seq<Builder>): seq<Proj>
  {
    if bs == [] then [] else SubProjectsIn(bs[..|bs| - 1]) + Triggered(bs[|bs| - 1])
  }

  /** Reference definition of the sub-jobs of `p`. */
  function SubProjectsOf(h: Host, p: Proj): seq<Proj>
  {
    if h.triggerPlugin then SubProjectsIn(FreeStyleBuilders(h, p)) else []
  }

  /**
    Collects, builder by builder, the projects `project` copies artifacts
    from. A name that resolves to no project is skipped; without the
    copyartifact plugin, or for a project that is not free-style, the
    list is empty.
  */
  method GetCopiedArtifacts(h: Host, project: Proj) returns (copiedArtifacts: seq<Proj>)
    ensures copiedArtifacts == CopySourcesOf(h, project)
    ensures !h.copyArtifactPlugin ==> copiedArtifacts == []
  {
    copiedArtifacts := [];
    if h.copyArtifactPlugin {
      if project in h.items && h.items[project].FreeStyle? {
        var builders := h.items[project].builders;
        var i := 0;
        while i < |builders|
          invariant 0 <= i <= |builders|
          invariant copiedArtifacts == CopySourcesIn(h, builders[..i])
        {
          var builder := builders[i];
          if builder.CopyArtifact? {
            var projectName := builder.projectName;
            if projectName in h.items {
              copiedArtifacts := copiedArtifacts + [projectName];
            }
          }
          assert builders[..i + 1][..i] == builders[..i];
          i := i + 1;
        }
        assert builders[..|builders|] == builders;
      }
    }
  }

  /**
    Collects the projects that the trigger steps of `project` list, over
    every builder, every configuration and every project of it. Without
    the parameterized-trigger plugin, or for a project that is not
    free-style, the list is empty.
  */
  method GetSubProjects(h: Host, project: Proj) returns (subProjects: seq<Proj>)
    ensures subProjects == SubProjectsOf(h, project)
    ensures !h.triggerPlugin ==> subProjects == []
  {
    subProjects := [];
    if h.triggerPlugin {
      if project in h.items && h.items[project].FreeStyle? {
        var builders := h.items[project].builders;
        var i := 0;
        while i < |builders|
          invariant 0 <= i <= |builders|
          invariant subProjects == SubProjectsIn(builders[..i])
        {
          var builder := builders[i];
          if builder.TriggerBuilder? {
            subProjects := AddTriggered(subProjects, builder.configs);
          }
          assert builders[..i + 1][..i] == builders[..i];
          i := i + 1;
        }
        assert builders[..|builders|] == builders;
      }
    }
  }

  /** Appends to `subProjects` every project of every trigger configuration of `configs`, in order. */
  method AddTriggered(subProjects: seq<Proj>, configs: seq<seq<Proj>>) returns (r: seq<Proj>)
    ensures r == subProjects + Flatten(configs)
  {
    r := subProjects;
    var j := 0;
    while j < |configs|
      invariant 0 <= j <= |configs|
      invariant r == subProjects + Flatten(configs[..j])
    {
      var projectList := configs[j];
      var k := 0;
      while k < |projectList|
        invariant 0 <= k <= |projectList|
        invariant r == subProjects + Flatten(configs[..j]) + projectList[..k]
      {
        r := r + [projectList[k]];
        assert projectList[..k + 1] == projectList[..k] + [projectList[k]];
        k := k + 1;
      }
      assert configs[..j + 1][..j] == configs[..j];
      assert projectList[..k] == projectList;
      j := j + 1;
    }
    assert configs[..j] == configs;
  }

  /** Copy sources respect builder order: the sources of a split builder list are those of each part, in turn. */
  lemma {:induction false} CopySourcesInAppend(h: Host, a: seq<Builder>, b: seq<Builder>)
    ensures CopySourcesIn(h, a + b) == CopySourcesIn(h, a) + CopySourcesIn(h, b)
    decreases |b|
  {
    if b == [] {
      assert a + b == a;
    } else {
      var n := |b| - 1;
      assert (a + b)[..|a + b| - 1] == a + b[..n];
      CopySourcesInAppend(h, a, b[..n]);
    }
  }

  /** A project is a copy source of the builders `bs` exactly when one of them is a copy step naming it and the name resolves. */
  lemma {:induction false} CopySourcesInMember(h: Host, bs: seq<Builder>, q: Proj)
    ensures q in CopySourcesIn(h, bs) <==>
      q in h.items && exists i :: 0 <= i < |bs| && bs[i] == CopyArtifact(q)
    decreases |bs|
  {
    if bs != [] {
      var n := |bs| - 1;
      CopySourcesInMember(h, bs[..n], q);
      if exists i :: 0 <= i < |bs| && bs[i] == CopyArtifact(q) {
        var i :| 0 <= i < |bs| && bs[i] == CopyArtifact(q);
        if i < n {
          assert bs[..n][i] == CopyArtifact(q);
        }
      }
      if exists i :: 0 <= i < n && bs[..n][i] == CopyArtifact(q) {
        var i :| 0 <= i < n && bs[..n][i] == CopyArtifact(q);
        assert bs[i] == CopyArtifact(q);
      }
    }
  }

  /**
    The copy sources of `p`: exactly the resolvable names of the copy
    steps of `p`, when the copyartifact plugin is installed and `p` is a
    free-style project; nothing otherwise.
  */
  lemma CopySourcesOfMember(h: Host, p: Proj, q: Proj)
    ensures q in CopySourcesOf(h, p) <==>
      h.copyArtifactPlugin && q in h.items &&
      exists i :: 0 <= i < |FreeStyleBuilders(h, p)| && FreeStyleBuilders(h, p)[i] == CopyArtifact(q)
  {
    CopySourcesInMember(h, FreeStyleBuilders(h, p), q);
  }

  /** Trigger configurations are read in order. */
  lemma {:induction false} FlattenAppend(a: seq<seq<Proj>>, b: seq<seq<Proj>>)
    ensures Flatten(a + b) == Flatten(a) + Flatten(b)
    decreases |b|
  {
    if b == [] {
      assert a + b == a;
    } else {
      var n := |b| - 1;
      assert (a + b)[..|a + b| - 1] == a + b[..n];
      FlattenAppend(a, b[..n]);
    }
  }

  /** Sub-jobs respect builder order: the sub-jobs of a split builder list are those of each part, in turn. */
  lemma {:induction false} SubProjectsInAppend(a: seq<Builder>, b: seq<Builder>)
    ensures SubProjectsIn(a + b) == SubProjectsIn(a) + SubProjectsIn(b)
    decreases |b|
  {
    if b == [] {
      assert a + b == a;
    } else {
      var n := |b| - 1;
      assert (a + b)[..|a + b| - 1] == a + b[..n];
      SubProjectsInAppend(a, b[..n]);
    }
  }

  /** A project is listed by several trigger configurations exactly when one of them lists it. */
  lemma {:induction false} FlattenMember(lists: seq<seq<Proj>>, q: Proj)
    ensures q in Flatten(lists) <==> exists j :: 0 <= j < |lists| && q in lists[j]
    decreases |lists|
  {
    if lists != [] {
      var n := |lists| - 1;
      FlattenMember(lists[..n], q);
      if exists j :: 0 <= j < |lists| && q in lists[j] {
        var j :| 0 <= j < |lists| && q in lists[j];
        if j < n {
          assert q in lists[..n][j];
        }
      }
      if exists j :: 0 <= j < n && q in lists[..n][j] {
        var j :| 0 <= j < n && q in lists[..n][j];
        assert q in lists[j];
      }
    }
  }

  /** A project is a sub-job of the builders `bs` exactly when some trigger step among them lists it. */
  lemma {:induction false} SubProjectsInMember(bs: seq<Builder>, q: Proj)
    ensures q in SubProjectsIn(bs) <==>
      exists i, j :: 0 <= i < |bs| && bs[i].TriggerBuilder? && 0 <= j < |bs[i].configs| && q in bs[i].configs[j]
    decreases |bs|
  {
    if bs != [] {
      var n := |bs| - 1;
      SubProjectsInMember(bs[..n], q);
      if bs[n].TriggerBuilder? {
        FlattenMember(bs[n].configs, q);
      }
      if exists i, j :: 0 <= i < |bs| && bs[i].TriggerBuilder? && 0 <= j < |bs[i].configs| && q in bs[i].configs[j] {
        var i, j :| 0 <= i < |bs| && bs[i].TriggerBuilder? && 0 <= j < |bs[i].configs| && q in bs[i].configs[j];
        if i < n {
          assert bs[..n][i] == bs[i];
        }
      }
      if exists i, j :: 0 <= i < n && bs[..n][i].TriggerBuilder? && 0 <= j < |bs[..n][i].configs| && q in bs[..n][i].configs[j] {
        var i, j :| 0 <= i < n && bs[..n][i].TriggerBuilder? && 0 <= j < |bs[..n][i].configs| && q in bs[..n][i].configs[j];
        assert bs[i] == bs[..n][i];
      }
    }
  }

  /**
    The sub-jobs of `p`: exactly the projects some trigger step of `p`
    lists, when the parameterized-trigger plugin is installed and `p` is
    a free-style project; nothing otherwise.
  */
  lemma SubProjectsOfMember(h: Host, p: Proj, q: Proj)
    ensures q in SubProjectsOf(h, p) <==>
      h.triggerPlugin &&
      exists i, j :: 0 <= i < |FreeStyleBuilders(h, p)| && FreeStyleBuilders(h, p)[i].TriggerBuilder? &&
        0 <= j < |FreeStyleBuilders(h, p)[i].configs| && q in FreeStyleBuilders(h, p)[i].configs[j]
  {
    SubProjectsInMember(FreeStyleBuilders(h, p), q);
  }
}
