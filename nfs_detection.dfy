/**
 * Auto-detection of the NFS server that serves the Galaxy database
 * directory, from the text printed by `mount` and, failing that, from the
 * lines of `/proc/mounts`.
 *
 * The scans are methods with the loops and `break`s of the script, each
 * proved equal to a specification function; the behaviour the script
 * promises is proved about those functions.
 */
module NfsDetection {
  import opened Wrappers
  import opened PyText

  /** The mount point whose NFS server the job is to reach. */
  const DatabaseMount: string := "/galaxy/server/database"

  /** Why auto-detection raises instead of returning an address. */
  datatype DetectError =
    | MountCommandFailed   // running `mount` raised
    | NotDetected          // neither scan produced a non-empty address

  /** A line either scan looks at: it names the mount point and holds a colon. */
  predicate Qualifies(line: string) {
    Contains(line, DatabaseMount) && ':' in line
  }

  /** A `mount` token with exactly one colon, as in `server:/export`. */
  predicate SingleColon(part: string) {
    ':' in part && Count(part, ':') == 1
  }

  /** `part.split(':')[0]`: the text before the first colon, or all of
      `part` when it has none. */
  function HostPart(part: string): (h: string)
    ensures ':' !in h
    ensures |h| <= |part| && h == part[..|h|]
    ensures |h| < |part| ==> part[|h|] == ':'
    ensures ':' in part ==> |h| < |part|
  {
    SplitFirst(part, ':');
    Split(part, ':')[0]
  }

  /** The inner `mount` loop over the tokens of one line: the host part of
      the first token with exactly one colon, if any. */
  function FirstSingleColon(parts: seq<string>): (r: Option<string>)
    ensures r.Some? ==> ':' !in r.value
  {
    if parts == [] then None
    else if SingleColon(parts[0]) then Some(HostPart(parts[0]))
    else FirstSingleColon(parts[1..])
  }

  /** The first token with exactly one colon decides; later tokens are ignored. */
  lemma {:induction false} FirstSingleColonAt(parts: seq<string>, k: nat)
    requires k < |parts| && SingleColon(parts[k])
    requires forall j :: 0 <= j < k ==> !SingleColon(parts[j])
    ensures FirstSingleColon(parts) == Some(HostPart(parts[k]))
  {
    if k > 0 {
      FirstSingleColonAt(parts[1..], k - 1);
    }
  }

  /** The inner loop finds nothing exactly when no token has exactly one colon. */
  lemma {:induction false} FirstSingleColonNone(parts: seq<string>)
    ensures FirstSingleColon(parts) == None <==> forall j :: 0 <= j < |parts| ==> !SingleColon(parts[j])
  {
    if parts != [] {
      FirstSingleColonNone(parts[1..]);
      assert forall j :: 1 <= j < |parts| ==> parts[j] == parts[1..][j - 1];
    }
  }

  /** The token choice on one `mount` line, split on white space. */
  function LineChoice(line: string): Option<string> {
    FirstSingleColon(Fields(line))
  }

  /** What a `mount` line offers as the address: the chosen host part of a
      qualifying line, or "" when the line qualifies for nothing. */
  function MountYield(line: string): string {
    if Qualifies(line) && LineChoice(line).Some? then LineChoice(line).value else ""
  }

  /** The value of `nfs_address` after the inner loop has run on `line`. */
  function MountStep(line: string, acc: Option<string>): Option<string> {
    if Qualifies(line) && LineChoice(line).Some? then LineChoice(line) else acc
  }

  /** The value `nfs_address` holds when the outer `mount` loop over `lines`
      ends, having held `acc` before it: the loop stops after the first
      qualifying line that leaves a non-empty address. */
  function MountScan(lines: seq<string>, acc: Option<string>): Option<string> {
    if lines == [] then acc
    else
      var next := MountStep(lines[0], acc);
      if Qualifies(lines[0]) && Truthy(next) then next else MountScan(lines[1..], next)
  }

  /** Line `i` is the first `mount` line that yields a non-empty address. */
  predicate MountWinner(lines: seq<string>, i: int) {
    0 <= i < |lines| && MountYield(lines[i]) != "" &&
    forall j :: 0 <= j < i ==> MountYield(lines[j]) == ""
  }

  /** The first line yielding a non-empty address wins, whatever follows it;
      lines before it whose chosen token has an empty host part are skipped. */
  lemma {:induction false} MountScanFirstWinner(lines: seq<string>, acc: Option<string>, i: int)
    requires !Truthy(acc)
    requires MountWinner(lines, i)
    ensures MountScan(lines, acc) == Some(MountYield(lines[i]))
  {
    if i > 0 {
      assert MountYield(lines[0]) == "";
      var next := MountStep(lines[0], acc);
      assert MountWinner(lines[1..], i - 1) by {
        assert forall j :: 0 <= j < i - 1 ==> lines[1..][j] == lines[j + 1];
      }
      MountScanFirstWinner(lines[1..], next, i - 1);
    }
  }

  /** With no line yielding a non-empty address, the scan leaves a false value. */
  lemma {:induction false} MountScanNoWinner(lines: seq<string>, acc: Option<string>)
    requires !Truthy(acc)
    requires forall j :: 0 <= j < |lines| ==> MountYield(lines[j]) == ""
    ensures !Truthy(MountScan(lines, acc))
  {
    if lines != [] {
      assert MountYield(lines[0]) == "";
      assert forall j :: 0 <= j < |lines| - 1 ==> lines[1..][j] == lines[j + 1];
      MountScanNoWinner(lines[1..], MountStep(lines[0], acc));
    }
  }

  /** The lines of `lines` that name the mount point and hold a colon. */
  function QualifyingLines(lines: seq<string>): (q: seq<string>)
    ensures forall k :: 0 <= k < |q| ==> Qualifies(q[k])
  {
    if lines == [] then []
    else (if Qualifies(lines[0]) then [lines[0]] else []) + QualifyingLines(lines[1..])
  }

  /** Only qualifying lines affect the `mount` scan. */
  lemma {:induction false} MountScanOnlyQualifying(lines: seq<string>, acc: Option<string>)
    ensures MountScan(lines, acc) == MountScan(QualifyingLines(lines), acc)
  {
    if lines != [] {
      MountScanOnlyQualifying(lines[1..], acc);
      var rest := QualifyingLines(lines[1..]);
      if Qualifies(lines[0]) {
        var q := [lines[0]] + rest;
        assert QualifyingLines(lines) == q && q[0] == lines[0] && q[1..] == rest;
        var next := MountStep(lines[0], acc);
        if !Truthy(next) {
          MountScanOnlyQualifying(lines[1..], next);
        }
      } else {
        assert QualifyingLines(lines) == rest;
      }
    }
  }

  /** Neither Python `None` nor a string with a colon in it. */
  predicate ColonFree(x: Option<string>) {
    x.None? || ':' !in x.value
  }

  lemma {:induction false} MountScanColonFree(lines: seq<string>, acc: Option<string>)
    requires ColonFree(acc)
    ensures ColonFree(MountScan(lines, acc))
  {
    if lines != [] {
      MountScanColonFree(lines[1..], MountStep(lines[0], acc));
    }
  }

  /** A `/proc/mounts` line the fallback stops at: it qualifies and its
      first field holds a colon. */
  predicate ProcHit(line: string) {
    Qualifies(line) && |Fields(line)| > 0 && ':' in Fields(line)[0]
  }

  /** The address a hit line gives: the host part of its first field, which
      may be empty. */
  function ProcHost(line: string): string
    requires ProcHit(line)
  {
    HostPart(Fields(line)[0])
  }

  /** The value `nfs_address` holds after the `/proc/mounts` loop over
      `lines`, having held `acc` before it. */
  function ProcScan(lines: seq<string>, acc: Option<string>): Option<string> {
    if lines == [] then acc
    else if ProcHit(lines[0]) then Some(ProcHost(lines[0]))
    else ProcScan(lines[1..], acc)
  }

  /** The fallback stops at the first hit line, even when its host part is empty. */
  lemma {:induction false} ProcScanFirstHit(lines: seq<string>, acc: Option<string>, i: int)
    requires 0 <= i < |lines| && ProcHit(lines[i])
    requires forall j :: 0 <= j < i ==> !ProcHit(lines[j])
    ensures ProcScan(lines, acc) == Some(ProcHost(lines[i]))
  {
    if i > 0 {
      assert forall j :: 0 <= j < i - 1 ==> lines[1..][j] == lines[j + 1];
      ProcScanFirstHit(lines[1..], acc, i - 1);
    }
  }

  /** Without a hit line the fallback leaves `nfs_address` as it was. */
  lemma {:induction false} ProcScanNoHit(lines: seq<string>, acc: Option<string>)
    requires forall j :: 0 <= j < |lines| ==> !ProcHit(lines[j])
    ensures ProcScan(lines, acc) == acc
  {
    if lines != [] {
      assert forall j :: 0 <= j < |lines| - 1 ==> lines[1..][j] == lines[j + 1];
      ProcScanNoHit(lines[1..], acc);
    }
  }

  /** Only qualifying lines affect the fallback. */
  lemma {:induction false} ProcScanOnlyQualifying(lines: seq<string>, acc: Option<string>)
    ensures ProcScan(lines, acc) == ProcScan(QualifyingLines(lines), acc)
  {
    if lines != [] {
      ProcScanOnlyQualifying(lines[1..], acc);
      var rest := QualifyingLines(lines[1..]);
      if Qualifies(lines[0]) {
        var q := [lines[0]] + rest;
        assert QualifyingLines(lines) == q && q[0] == lines[0] && q[1..] == rest;
      } else {
        assert QualifyingLines(lines) == rest;
      }
    }
  }

  lemma {:induction false} ProcScanColonFree(lines: seq<string>, acc: Option<string>)
    requires ColonFree(acc)
    ensures ColonFree(ProcScan(lines, acc))
  {
    if lines != [] && !ProcHit(lines[0]) {
      ProcScanColonFree(lines[1..], acc);
    }
  }

  /** The outcome of auto-detection, given what `mount` printed (`None` when
      running it raised) and the lines of `/proc/mounts` (`None` when the
      file could not be read, which the script ignores). A detected address
      is never empty and never holds a colon. */
  function Detection(mountOut: Option<string>, procMounts: Option<seq<string>>): (r: Result<string, DetectError>)
    ensures mountOut.None? ==> r == Err(MountCommandFailed)
    ensures r.Ok? ==> r.value != "" && ':' !in r.value
  {
    if mountOut.None? then Err(MountCommandFailed)
    else
      var fromMount := MountScan(Split(mountOut.value, '\n'), None);
      MountScanColonFree(Split(mountOut.value, '\n'), None);
      var found :=
        if Truthy(fromMount) || procMounts.None? then fromMount
        else (ProcScanColonFree(procMounts.value, fromMount); ProcScan(procMounts.value, fromMount));
      if Truthy(found) then Ok(found.value) else Err(NotDetected)
  }

  /** When some `mount` line yields a non-empty address, the first such line
      decides and `/proc/mounts` is not consulted. */
  lemma DetectionPrefersMount(mountOut: string, procMounts: Option<seq<string>>, i: int)
    requires MountWinner(Split(mountOut, '\n'), i)
    ensures Detection(Some(mountOut), procMounts) == Ok(MountYield(Split(mountOut, '\n')[i]))
  {
    MountScanFirstWinner(Split(mountOut, '\n'), None, i);
  }

  /** When no `mount` line yields an address, the first hit line of
      `/proc/mounts` decides: its host part if non-empty, an error if empty. */
  lemma DetectionFallsBack(mountOut: string, procLines: seq<string>, i: int)
    requires forall j :: 0 <= j < |Split(mountOut, '\n')| ==> MountYield(Split(mountOut, '\n')[j]) == ""
    requires 0 <= i < |procLines| && ProcHit(procLines[i])
    requires forall j :: 0 <= j < i ==> !ProcHit(procLines[j])
    ensures Detection(Some(mountOut), Some(procLines)) ==
      if ProcHost(procLines[i]) != "" then Ok(ProcHost(procLines[i])) else Err(NotDetected)
  {
    MountScanNoWinner(Split(mountOut, '\n'), None);
    ProcScanFirstHit(procLines, MountScan(Split(mountOut, '\n'), None), i);
  }

  /** When neither scan yields an address, detection raises. */
  lemma DetectionFails(mountOut: string, procMounts: Option<seq<string>>)
    requires forall j :: 0 <= j < |Split(mountOut, '\n')| ==> MountYield(Split(mountOut, '\n')[j]) == ""
    requires procMounts.Some? ==> forall j :: 0 <= j < |procMounts.value| ==> !ProcHit(procMounts.value[j])
    ensures Detection(Some(mountOut), procMounts) == Err(NotDetected)
  {
    var fromMount := MountScan(Split(mountOut, '\n'), None);
    MountScanNoWinner(Split(mountOut, '\n'), None);
    if procMounts.Some? {
      ProcScanNoHit(procMounts.value, fromMount);
    }
  }

  /** The `mount` loop over the lines of the command's output (a `for` over
      the lines, with a `for` over each qualifying line's tokens), updating
      `nfs_address` in place. */
  method ScanMount(lines: seq<string>) returns (nfsAddress: Option<string>)
    ensures nfsAddress == MountScan(lines, None)
  {
    nfsAddress := None;
    var i := 0;
    while i < |lines|
      invariant 0 <= i <= |lines|
      invariant MountScan(lines[i..], nfsAddress) == MountScan(lines, None)
    {
      var line := lines[i];
      assert lines[i..][0] == line && lines[i..][1..] == lines[i + 1..];
      if Qualifies(line) {
        ghost var before := nfsAddress;
        var parts := Fields(line);
        var j := 0;
        while j < |parts|
          invariant 0 <= j <= |parts|
          invariant nfsAddress == before
          invariant FirstSingleColon(parts[j..]) == FirstSingleColon(parts)
        {
          var part := parts[j];
          assert parts[j..][0] == part && parts[j..][1..] == parts[j + 1..];
          if ':' in part && Count(part, ':') == 1 {
            nfsAddress := Some(Split(part, ':')[0]);
            break;
          }
          j := j + 1;
        }
        assert nfsAddress == MountStep(line, before);
        if Truthy(nfsAddress) {
          break;
        }
      }
      i := i + 1;
    }
  }

  /** The `/proc/mounts` loop, entered with `nfs_address` holding `start`. */
  method ScanProcMounts(lines: seq<string>, start: Option<string>) returns (nfsAddress: Option<string>)
    ensures nfsAddress == ProcScan(lines, start)
  {
    nfsAddress := start;
    var i := 0;
    while i < |lines|
      invariant 0 <= i <= |lines|
      invariant nfsAddress == start
      invariant ProcScan(lines[i..], start) == ProcScan(lines, start)
    {
      var line := lines[i];
      assert lines[i..][0] == line && lines[i..][1..] == lines[i + 1..];
      if Qualifies(line) {
        var parts := Fields(line);
        if |parts| > 0 && ':' in parts[0] {
          nfsAddress := Some(Split(parts[0], ':')[0]);
          break;
        }
      }
      i := i + 1;
    }
  }

  /** Auto-detection as the script runs it: the `mount` scan, the
      `/proc/mounts` fallback when that left no address, and the error when
      both did. */
  method DetectNfsAddress(mountOut: Option<string>, procMounts: Option<seq<string>>)
    returns (r: Result<string, DetectError>)
    ensures r == Detection(mountOut, procMounts)
  {
    if mountOut.None? {
      return Err(MountCommandFailed);
    }
    var nfsAddress := ScanMount(Split(mountOut.value, '\n'));
    if !Truthy(nfsAddress) && procMounts.Some? {
      nfsAddress := ScanProcMounts(procMounts.value, nfsAddress);
    }
    if !Truthy(nfsAddress) {
      return Err(NotDetected);
    }
    r := Ok(nfsAddress.value);
  }
}
