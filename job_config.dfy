/**
 * The values the batch job is built from: which project id and which NFS
 * address are used (a non-empty flag first, then the key file or the mount
 * tables), the resource paths spelled from them, and the arguments given
 * to netcat in the job's container.
 */
module JobConfig {
  import opened Wrappers
  import opened PyText
  import NfsDetection

  /** The parsed command-line flags that bear on the job. */
  datatype Args = Args(
    nfsAddress: Option<string>,  // --nfs_address, optional
    project: Option<string>,     // --project, optional
    region: string,              // --region, required
    network: string,             // --network, "default" unless given
    subnet: string)              // --subnet, "default" unless given

  /** The service-account key file as the script sees it: `None` when it
      cannot be opened or decoded as a JSON object, else its members. */
  type KeyData = Option<map<string, string>>

  /** Why preparing the job raises before anything is submitted. */
  datatype ConfigError =
    | KeyFileUnreadable
    | ProjectIdMissing
    | NfsDetectionFailed(cause: NfsDetection.DetectError)

  /** The key under which a service-account key file names its project. */
  const ProjectIdKey: string := "project_id"

  /** The project id: a non-empty `--project` as given, without looking at
      the key file; otherwise the key file's non-empty `project_id`, and an
      error when the file is unreadable or that member missing or empty. */
  function ResolveProjectId(flag: Option<string>, key: KeyData): (r: Result<string, ConfigError>)
    ensures Truthy(flag) ==> r == Ok(flag.value)
    ensures r.Ok? ==> r.value != ""
    ensures !Truthy(flag) ==>
      (r.Ok? <==> key.Some? && ProjectIdKey in key.value && key.value[ProjectIdKey] != "")
    ensures !Truthy(flag) && r.Ok? ==> r.value == key.value[ProjectIdKey]
    ensures !Truthy(flag) && key.None? ==> r == Err(KeyFileUnreadable)
    ensures !Truthy(flag) && key.Some? && r.Err? ==> r == Err(ProjectIdMissing)
  {
    if Truthy(flag) then Ok(flag.value)
    else if key.None? then Err(KeyFileUnreadable)
    else if ProjectIdKey !in key.value || key.value[ProjectIdKey] == "" then Err(ProjectIdMissing)
    else Ok(key.value[ProjectIdKey])
  }

  /** The NFS address: a non-empty `--nfs_address` as given, without
      consulting the mount tables; otherwise the auto-detected address,
      which is never empty and never holds a colon. */
  function ResolveNfsAddress(flag: Option<string>, mountOut: Option<string>, procMounts: Option<seq<string>>)
    : (r: Result<string, ConfigError>)
    ensures Truthy(flag) ==> r == Ok(flag.value)
    ensures r.Ok? ==> r.value != ""
    ensures !Truthy(flag) ==>
      (r.Ok? <==> NfsDetection.Detection(mountOut, procMounts).Ok?) &&
      (r.Ok? ==> r.value == NfsDetection.Detection(mountOut, procMounts).value && ':' !in r.value)
  {
    if Truthy(flag) then Ok(flag.value)
    else
      match NfsDetection.Detection(mountOut, procMounts)
      case Ok(a) => Ok(a)
      case Err(e) => Err(NfsDetectionFailed(e))
  }

  /** The parent resource of the job-creation request. */
  function JobParent(project: string, region: string): string {
    "projects/" + project + "/locations/" + region
  }

  /** The VPC network the job's instances join. */
  function NetworkPath(network: string): string {
    "global/networks/" + network
  }

  /** The subnetwork the job's instances join. */
  function SubnetworkPath(region: string, subnet: string): string {
    "regions/" + region + "/subnetworks/" + subnet
  }

  /** The arguments netcat is run with: a zero-I/O, verbose probe of port
      2049 (NFS) on the given host. */
  function ContainerCommands(nfsAddress: string): seq<string> {
    ["-z", "-v", nfsAddress, "2049"]
  }

  /** The parent is the four path segments `projects`, the project,
      `locations`, the region, so it names the project and region back. */
  lemma JobParentFields(project: string, region: string)
    requires '/' !in project && '/' !in region
    ensures Split(JobParent(project, region), '/') == ["projects", project, "locations", region]
  {
    var segments := ["projects", project, "locations", region];
    assert Join(segments[3..], '/') == region;
    assert Join(segments[2..], '/') == "locations/" + region;
    assert Join(segments[1..], '/') == project + "/locations/" + region;
    assert Join(segments, '/') == JobParent(project, region);
    SplitJoin(segments, '/');
  }

  /** Distinct project/region pairs give distinct parents. */
  lemma JobParentInjective(p1: string, r1: string, p2: string, r2: string)
    requires '/' !in p1 && '/' !in r1 && '/' !in p2 && '/' !in r2
    requires JobParent(p1, r1) == JobParent(p2, r2)
    ensures p1 == p2 && r1 == r2
  {
    JobParentFields(p1, r1);
    JobParentFields(p2, r2);
  }

  /** The network path is `global`, `networks`, the network name. */
  lemma NetworkPathFields(network: string)
    requires '/' !in network
    ensures Split(NetworkPath(network), '/') == ["global", "networks", network]
  {
    var segments := ["global", "networks", network];
    assert Join(segments[2..], '/') == network;
    assert Join(segments[1..], '/') == "networks/" + network;
    assert Join(segments, '/') == NetworkPath(network);
    SplitJoin(segments, '/');
  }

  /** The subnetwork path is `regions`, the region, `subnetworks`, the subnet. */
  lemma SubnetworkPathFields(region: string, subnet: string)
    requires '/' !in region && '/' !in subnet
    ensures Split(SubnetworkPath(region, subnet), '/') == ["regions", region, "subnetworks", subnet]
  {
    var segments := ["regions", region, "subnetworks", subnet];
    assert Join(segments[3..], '/') == subnet;
    assert Join(segments[2..], '/') == "subnetworks/" + subnet;
    assert Join(segments[1..], '/') == region + "/subnetworks/" + subnet;
    assert Join(segments, '/') == SubnetworkPath(region, subnet);
    SplitJoin(segments, '/');
  }

  /** The parts of the job-creation request this model keeps. */
  datatype JobSpec = JobSpec(
    parent: string,
    network: string,
    subnetwork: string,
    commands: seq<string>)

  function BuildJob(args: Args, project: string, nfsAddress: string): JobSpec {
    JobSpec(
      JobParent(project, args.region),
      NetworkPath(args.network),
      SubnetworkPath(args.region, args.subnet),
      ContainerCommands(nfsAddress))
  }

  /** The script up to the submission of the job: the project id first (its
      error wins over any NFS error), then the NFS address, then the request. */
  method PrepareJob(args: Args, key: KeyData, mountOut: Option<string>, procMounts: Option<seq<string>>)
    returns (r: Result<JobSpec, ConfigError>)
    ensures ResolveProjectId(args.project, key).Err? ==> r == Err(ResolveProjectId(args.project, key).error)
    ensures ResolveProjectId(args.project, key).Ok? && ResolveNfsAddress(args.nfsAddress, mountOut, procMounts).Err? ==>
      r == Err(ResolveNfsAddress(args.nfsAddress, mountOut, procMounts).error)
    ensures r.Ok? <==>
      ResolveProjectId(args.project, key).Ok? && ResolveNfsAddress(args.nfsAddress, mountOut, procMounts).Ok?
    ensures r.Ok? ==>
      var project := ResolveProjectId(args.project, key).value;
      var nfsAddress := ResolveNfsAddress(args.nfsAddress, mountOut, procMounts).value;
      && r.value.parent == JobParent(project, args.region)
      && r.value.network == NetworkPath(args.network)
      && r.value.subnetwork == SubnetworkPath(args.region, args.subnet)
      && r.value.commands == ["-z", "-v", nfsAddress, "2049"]
      && nfsAddress != ""
      && (!Truthy(args.nfsAddress) ==> ':' !in nfsAddress)
  {
    var project := ResolveProjectId(args.project, key);
    if project.Err? {
      return Err(project.error);
    }
    var nfsAddress: string;
    if Truthy(args.nfsAddress) {
      nfsAddress := args.nfsAddress.value;
    } else {
      var detected := NfsDetection.DetectNfsAddress(mountOut, procMounts);
      if detected.Err? {
        return Err(NfsDetectionFailed(detected.error));
      }
      nfsAddress := detected.value;
    }
    r := Ok(BuildJob(args, project.value, nfsAddress));
  }
}
