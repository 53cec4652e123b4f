/**
 * The provisioning loop of setup.rb: for each entry of the ordered project
 * registry it clones or updates the repository, exports process-manager
 * scripts when the project has a Procfile (not on the developer laptop), and
 * sets up the virtual host, handing both the port of a running counter that
 * starts at 3000 and grows by 1000 after every project.
 *
 * The external commands are not modelled; each iteration is reduced to the
 * decisions it takes and the values it hands to those commands.
 */
module Provision {
  import opened Strings

  const Organisation: string := "theodi"
  const BasePort: int := 3000
  const PortStep: int := 1000

  /** `projects`: upstream repository name and local directory, in the order the hash lists them. */
  const Projects: seq<(string, string)> := [
    ("signonotron2", "signon"),
    ("static", "static"),
    ("panopticon", "panopticon"),
    ("publisher", "publisher"),
    ("asset-manager", "asset-manager"),
    ("content_api", "contentapi"),
    ("frontend-www", "www"),
    ("rummager", "search")
  ]

  /** How a project's checkout is brought up to date. */
  datatype Fetch = Clone(url: string) | Pull

  /**
   * What one iteration does for a project: the directory it works in, how it
   * fetches, the port handed to `foreman export` (when that runs) and the port
   * handed to `make_vhost`.
   */
  datatype ProjectStep = ProjectStep(dir: string, fetch: Fetch, exportPort: Option<int>, vhostPort: int)

  /** The repository a missing project is cloned from. */
  function CloneUrl(upstream: string): (url: string)
    ensures StartsWith(url, "https://github.com/theodi/") && EndsWith(url, upstream + ".git")
    ensures |url| == |"https://github.com/theodi/"| + |upstream| + |".git"|
  {
    "https://github.com/" + Organisation + "/" + upstream + ".git"
  }

  /** The port the project at position `i` of the registry receives. */
  function PortOf(i: nat): (port: int)
    ensures port >= BasePort && (port - BasePort) % PortStep == 0
    ensures (port - BasePort) / PortStep == i
  {
    BasePort + PortStep * i
  }

  /** Some project before position `i` works in directory `d`. */
  ghost predicate UsedBefore(projects: seq<(string, string)>, i: nat, d: string)
    requires i <= |projects|
  {
    exists j :: 0 <= j < i && projects[j].1 == d
  }

  lemma UsedBeforeStep(projects: seq<(string, string)>, i: nat, d: string)
    requires i < |projects|
    ensures UsedBefore(projects, i + 1, d) <==> UsedBefore(projects, i, d) || projects[i].1 == d
  {
    if UsedBefore(projects, i + 1, d) && projects[i].1 != d {
      var j :| 0 <= j < i + 1 && projects[j].1 == d;
      assert j < i;
    }
  }

  /**
   * What the iteration for position `i` does: it pulls when the directory was
   * there before the loop or an earlier project fetched into it, and clones
   * otherwise; it exports only off the laptop and when a Procfile exists.
   */
  ghost function PlannedStep(projects: seq<(string, string)>, present: set<string>, osx: bool, procfiles: set<string>, i: nat): (r: ProjectStep)
    requires i < |projects|
    ensures r.dir == projects[i].1 && r.vhostPort == PortOf(i)
    ensures r.exportPort.Some? ==> r.exportPort.value == r.vhostPort
    ensures r.fetch.Clone? ==> r.fetch.url == CloneUrl(projects[i].0)
  {
    var (upstream, dir) := projects[i];
    ProjectStep(dir,
                if dir in present || UsedBefore(projects, i, dir) then Pull else Clone(CloneUrl(upstream)),
                if !osx && dir in procfiles then Some(PortOf(i)) else None,
                PortOf(i))
  }

  /**
   * `projects.each_pair`. `present` is the set of directories that exist
   * before the loop; a clone creates its directory, so a later entry with the
   * same directory pulls. `osx` is the platform test and `procfiles` the set
   * of directories that hold a Procfile once fetched.
   */
  method ProvisionProjects(projects: seq<(string, string)>, present: set<string>, osx: bool, procfiles: set<string>)
    returns (steps: seq<ProjectStep>)
    ensures |steps| == |projects|
    ensures forall i :: 0 <= i < |steps| ==> steps[i].dir == projects[i].1 && steps[i].vhostPort == PortOf(i)
    ensures forall i :: 0 <= i < |steps| ==>
              (steps[i].fetch == Pull <==> projects[i].1 in present || UsedBefore(projects, i, projects[i].1))
    ensures forall i :: 0 <= i < |steps| && steps[i].fetch.Clone? ==> steps[i].fetch.url == CloneUrl(projects[i].0)
    ensures forall i :: 0 <= i < |steps| ==>
              steps[i].exportPort == if !osx && projects[i].1 in procfiles then Some(steps[i].vhostPort) else None
  {
    steps := [];
    var dirs := present;
    var port := BasePort;
    var i := 0;
    while i < |projects|
      invariant 0 <= i <= |projects|
      invariant |steps| == i
      invariant port == PortOf(i)
      invariant forall d :: d in dirs <==> d in present || UsedBefore(projects, i, d)
      invariant forall k :: 0 <= k < i ==> steps[k] == PlannedStep(projects, present, osx, procfiles, k)
    {
      var (upstream, dir) := projects[i];
      var fetch := if dir in dirs then Pull else Clone(CloneUrl(upstream));
      forall d | true ensures UsedBefore(projects, i + 1, d) <==> UsedBefore(projects, i, d) || projects[i].1 == d {
        UsedBeforeStep(projects, i, d);
      }
      dirs := dirs + {dir};
      var exportPort := if !osx && dir in procfiles then Some(port) else None;
      steps := steps + [ProjectStep(dir, fetch, exportPort, port)];
      port := port + PortStep;
      i := i + 1;
    }
  }

  /** Ports grow strictly with the position in the registry, so no two projects share one. */
  lemma PortsIncreasing(i: nat, j: nat)
    requires i < j
    ensures PortOf(i) < PortOf(j)
    ensures PortOf(j) - PortOf(i) == PortStep * (j - i)
  {
  }

  /** For the eight-entry registry the ports are exactly 3000, 4000, ..., 10000. */
  lemma RegistryPorts()
    ensures |Projects| == 8
    ensures seq(|Projects|, i requires 0 <= i < |Projects| => PortOf(i))
            == [3000, 4000, 5000, 6000, 7000, 8000, 9000, 10000]
  {
  }
}
