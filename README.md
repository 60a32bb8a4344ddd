# gcp_batch_netcat: NFS address detection and job parameters

`gcp_batch_netcat.py` submits a one-shot batch job that runs
`nc -z -v <nfs-server> 2049` inside the job's network. It checks that the
NFS server behind a Galaxy installation can be reached from there. Before
it submits anything, it settles two values:

- the **project id**: `--project`, or else the `project_id` member of the
  service-account key file;
- the **NFS server address**: `--nfs_address`, or else auto-detection.
  Auto-detection scans the output of `mount` for the first
  `server:/path ... /galaxy/server/database` entry. If that finds nothing,
  it falls back to the first field of the matching `/proc/mounts` line.

From these values and the `--region`, `--network` and `--subnet` flags it
spells out the request's parent resource, the network and subnetwork paths,
and the netcat arguments.

This project models those steps in Dafny:

- `PyText` (pytext.dfy) gives the Python string builtins the detection code
  relies on:
  - substring `in`;
  - `str.count`;
  - `str.split(sep)`;
  - `str.split()` with no argument, over the characters `str.isspace()`
    accepts;
  - the truth value of an optional string.

  It also defines `Join`, which puts pieces back together with a separator
  between them. The script never joins strings. `Join` is there as the
  inverse of `Split`, to state the round trips and the path lemmas.
- `NfsDetection` (nfs_detection.dfy) gives the two scans as methods. They
  keep the script's nested loops, its `break`s and the `nfs_address`
  variable, which is carried from line to line. Each method is proved equal
  to a specification function, and the lemmas state which lines count,
  which token wins, and when detection fails.
- `JobConfig` (job_config.dfy) covers:
  - which value wins when a flag and a fallback both exist;
  - the resource paths, with lemmas that each path splits back into its
    segments;
  - `PrepareJob`, which runs the script's steps in order up to the
    submission.
- `Wrappers` (wrappers.dfy) holds `Option` and `Result`.

Inputs that the script reads from the operating system are parameters of
the model:
- the text printed by `mount`: `None` when running it raises;
- the lines of `/proc/mounts`: `None` when the file cannot be read. The
  script ignores that error.
- the decoded key file: a map from member name to string, `None` when the
  file cannot be read or is not a JSON object.

## Model

| member | source | states |
|---|---|---|
| `PyText.Truthy` | gcp_batch_netcat.py:69 | the truth value `if x:` gives an optional string: false for `None` and for `""`, true otherwise (the same test stands at lines 35, 51, 73 and 87) |
| `PyText.IsSpace` | gcp_batch_netcat.py:64 | the characters `str.isspace()` accepts, which `split()` with no argument separates on (also at line 79) |
| `PyText.Contains` | gcp_batch_netcat.py:62 | Python's `sub in s`, defined by recursion on `s`; what it means is the row below |
| `PyText.ContainsOccurs` | gcp_batch_netcat.py:62 | `sub in s` holds exactly when `sub` occurs at some index of `s` |
| `PyText.Count` | gcp_batch_netcat.py:66 | `part.count(':')` is at most the length, and is zero exactly when `':'` is not in `part` |
| `PyText.CountIsMultiplicity` | gcp_batch_netcat.py:66 | `count` equals the number of occurrences of the character (its multiplicity) |
| `PyText.Split` | gcp_batch_netcat.py:61 | `split(sep)` gives one piece more than there are separators, and no piece holds the separator |
| `PyText.SplitFirst` | gcp_batch_netcat.py:67 | `split(sep)[0]` is the longest separator-free prefix: the whole string, or followed by `sep` |
| `PyText.JoinSplit` | gcp_batch_netcat.py:61 | joining the pieces of `split('\n')` with the separator gives the text back |
| `PyText.SplitJoin` | gcp_batch_netcat.py:61 | splitting a join of separator-free pieces gives exactly those pieces |
| `PyText.Fields` | gcp_batch_netcat.py:64 | every field of `line.split()` is non-empty and holds no white space |
| `PyText.FieldsKeepNonSpace` | gcp_batch_netcat.py:64 | the fields of `line.split()`, concatenated, are the line with its white space removed |
| `PyText.FieldsAreRuns` | gcp_batch_netcat.py:64 | the fields of `line.split()` are its maximal runs of non-space characters: each stands in the line at a position with only white space or an end of the line on either side, and each lies strictly after the previous one |
| `NfsDetection.Qualifies` | gcp_batch_netcat.py:62 | the test that both scans apply to a line: it contains `/galaxy/server/database` and `:` (the same condition is used at line 78) |
| `NfsDetection.SingleColon` | gcp_batch_netcat.py:66 | the token test `':' in part and part.count(':') == 1` |
| `NfsDetection.HostPart` | gcp_batch_netcat.py:67 | `part.split(':')[0]` is the prefix of `part` up to its first colon: it holds no colon, and it is either all of `part` or followed by a colon, which it is exactly when `part` holds one |
| `NfsDetection.FirstSingleColon` | gcp_batch_netcat.py:65-68 | the host part chosen from one line's tokens never holds a colon |
| `NfsDetection.FirstSingleColonAt` | gcp_batch_netcat.py:65-68 | the first token with exactly one colon decides the line's host part; later tokens are ignored |
| `NfsDetection.FirstSingleColonNone` | gcp_batch_netcat.py:65-68 | a line gives no host part exactly when none of its tokens has exactly one colon |
| `NfsDetection.LineChoice` | gcp_batch_netcat.py:64-68 | the inner loop's choice on one line: `FirstSingleColon` of the line's `split()` fields |
| `NfsDetection.MountStep` | gcp_batch_netcat.py:62-68 | the value of `nfs_address` after one line: the line's choice when the line qualifies and has one, else the value it held before |
| `NfsDetection.MountYield` | gcp_batch_netcat.py:69 | what a line offers the test at line 69: its chosen host part when it qualifies and has one, else `""`; the winner and detection lemmas are stated with it |
| `NfsDetection.MountScan` | gcp_batch_netcat.py:59-71 | the specification of the `mount` loop: the value of `nfs_address` when the loop ends, the variable carried from line to line; its properties are the lemmas below |
| `NfsDetection.MountScanFirstWinner` | gcp_batch_netcat.py:61-71 | the first qualifying `mount` line whose chosen token has a non-empty host part wins; earlier lines with an empty host part or no single-colon token are skipped, and later lines are never looked at |
| `NfsDetection.MountScanNoWinner` | gcp_batch_netcat.py:61-71 | when no `mount` line yields a non-empty host part, the scan ends with `None` or `""` |
| `NfsDetection.MountScanOnlyQualifying` | gcp_batch_netcat.py:62 | the `mount` scan gives the same result on the lines that hold both `/galaxy/server/database` and `':'` as on all lines |
| `NfsDetection.MountScanColonFree` | gcp_batch_netcat.py:66-67 | whatever the `mount` scan leaves in `nfs_address` holds no colon |
| `NfsDetection.ProcScan` | gcp_batch_netcat.py:75-85 | the specification of the `/proc/mounts` loop, entered with the value `mount` left; its properties are the lemmas below |
| `NfsDetection.ProcHit` | gcp_batch_netcat.py:78-80 | a `/proc/mounts` line the fallback stops at: it qualifies, it has a field, and its first field holds a colon |
| `NfsDetection.ProcHost` | gcp_batch_netcat.py:81 | the address a hit line gives: the host part of its first field, which may be empty |
| `NfsDetection.ProcScanFirstHit` | gcp_batch_netcat.py:77-83 | the fallback stops at the first qualifying line whose first field holds a colon, and takes that field's host part, even when it is empty |
| `NfsDetection.ProcScanNoHit` | gcp_batch_netcat.py:77-83 | with no such line the fallback leaves `nfs_address` as the `mount` scan left it |
| `NfsDetection.ProcScanOnlyQualifying` | gcp_batch_netcat.py:78 | only the lines that hold both `/galaxy/server/database` and `':'` affect the fallback |
| `NfsDetection.ProcScanColonFree` | gcp_batch_netcat.py:81 | the fallback never stores an address that holds a colon |
| `NfsDetection.Detection` | gcp_batch_netcat.py:55-93 | when running `mount` raises, detection raises `MountCommandFailed`; a detected NFS address is never empty and never holds a colon |
| `NfsDetection.DetectionPrefersMount` | gcp_batch_netcat.py:73 | when a `mount` line yields an address, that address is the result whatever `/proc/mounts` holds |
| `NfsDetection.DetectionFallsBack` | gcp_batch_netcat.py:73-88 | when `mount` yields nothing, the first fallback hit decides: its host part if non-empty, else the detection error (later lines are not tried) |
| `NfsDetection.DetectionFails` | gcp_batch_netcat.py:87-88 | when neither scan yields an address (or `/proc/mounts` is unreadable), detection raises the error instead of returning a value |
| `NfsDetection.ScanMount` | gcp_batch_netcat.py:59-71 | the nested loops over the lines of `mount` output and their tokens, with their `break`s, end with `nfs_address` equal to the specification `MountScan` |
| `NfsDetection.ScanProcMounts` | gcp_batch_netcat.py:75-85 | the `/proc/mounts` loop ends with `nfs_address` equal to the specification `ProcScan` |
| `NfsDetection.DetectNfsAddress` | gcp_batch_netcat.py:55-93 | the method's outcome is `Detection`: an error when `mount` fails; otherwise the `mount` scan, then the fallback only if `mount` left no address, then an error if both left none |
| `JobConfig.ResolveProjectId` | gcp_batch_netcat.py:35-48 | a non-empty `--project` is used as given whatever the key file holds; otherwise the result is the key file's `project_id` exactly when that member is present and non-empty, and otherwise an error: `KeyFileUnreadable` when the file is unreadable, `ProjectIdMissing` when a readable file lacks a non-empty `project_id`; a resolved id is never empty |
| `JobConfig.ResolveNfsAddress` | gcp_batch_netcat.py:51-93 | a non-empty `--nfs_address` is used as given; otherwise the result is the detected address, which is non-empty and colon-free, and fails exactly when detection fails |
| `JobConfig.JobParent` | gcp_batch_netcat.py:148 | the parent string `projects/{project}/locations/{region}`; what it determines is `JobParentFields` and `JobParentInjective` |
| `JobConfig.NetworkPath` | gcp_batch_netcat.py:129 | the network string `global/networks/{network}`; see `NetworkPathFields` |
| `JobConfig.SubnetworkPath` | gcp_batch_netcat.py:130 | the subnetwork string `regions/{region}/subnetworks/{subnet}`; see `SubnetworkPathFields` |
| `JobConfig.ContainerCommands` | gcp_batch_netcat.py:111 | the netcat arguments `["-z", "-v", addr, "2049"]`; `PrepareJob` states them for the resolved address |
| `JobConfig.BuildJob` | gcp_batch_netcat.py:111-148 | the four kept request values from the project, the address and the flags; `PrepareJob` states each of them |
| `JobConfig.JobParentFields` | gcp_batch_netcat.py:148 | the parent `projects/{project}/locations/{region}` splits on `/` into exactly those four segments |
| `JobConfig.JobParentInjective` | gcp_batch_netcat.py:148 | distinct slash-free project/region pairs give distinct parents |
| `JobConfig.NetworkPathFields` | gcp_batch_netcat.py:129 | the network `global/networks/{network}` splits into exactly those three segments |
| `JobConfig.SubnetworkPathFields` | gcp_batch_netcat.py:130 | the subnetwork `regions/{region}/subnetworks/{subnet}` splits into exactly those four segments |
| `JobConfig.PrepareJob` | gcp_batch_netcat.py:34-150 | a project-id error is raised before any NFS error; the job is prepared exactly when both values resolve; it then uses parent `JobParent(project, region)`, the network and subnetwork paths, and commands exactly `["-z", "-v", addr, "2049"]`, with `addr` non-empty and, when auto-detected, colon-free |

## Left out

- Running `mount` in a subprocess and opening `/proc/mounts` and the key
  file. The model takes their results as parameters, with `None` for a
  failure.
- Decoding the key file as JSON: the decoded object is a map from member
  name to string. A non-string `project_id` (a number, say) is not modelled.
- Reading `/proc/mounts` line by line: the file is a given sequence of
  lines.
- Argument parsing, the logging set-up and every log call, and setting
  `GOOGLE_APPLICATION_CREDENTIALS`: these are glue and side effects. `Args`
  holds the parsed values, defaults already applied.
- The job name built from `uuid.uuid4()`: it is random.
- Filling in the batch service's request objects beyond the four values in
  `JobSpec`, and calling `create_job`. That means the image, entrypoint,
  compute resources, task counts and logs policy. These values are fixed
  by or handed to an external client library and a remote call.
- Writing the result or error summary file and its traceback: this is file
  output.
- A read of `/proc/mounts` that raises part-way through, such as a decoding
  error. The bare `except: pass` ignores it after some lines were already
  scanned. The model can show this only by being given the lines read
  before the failure as the whole file.
- Universal-newline translation when a file is read in text mode, and
  decoding the output of the `mount` command (`text=True`): both happen
  before the text reaches the model.
