/**
 * From a validated batch to remote work: scanner slots for each identifier, the rounds a
 * batch is launched in, and the per-job sequence of remote steps, with the outcome of each
 * remote call taken as an input.
 */
module Dispatch {
  import opened Jobs
  import opened Filenames
  import opened Registry

  // ---------------------------------------------------------------------------
  // Slot assignment

  /** `run_batch(start_idx, qr_batch)`: the identifier at position `i` goes to `start_idx + i`. */
  function Positional(start: int, qrs: seq<string>): (jobs: seq<Job>)
    ensures QrsOf(jobs) == qrs
    ensures forall i | 0 <= i < |jobs| :: jobs[i].scanner == start + i
    ensures Distinct(ScannersOf(jobs))
  {
    seq(|qrs|, i requires 0 <= i < |qrs| => Job(start + i, qrs[i]))
  }

  /**
   * `run_batch(scanner_nums, qr_batch)`: the identifier at position `i` goes to
   * `scanner_nums[i]`; a shorter number list would raise, so the caller supplies enough.
   */
  function ZipJobs(nums: seq<int>, qrs: seq<string>): (jobs: seq<Job>)
    requires |qrs| <= |nums|
    ensures QrsOf(jobs) == qrs
    ensures ScannersOf(jobs) == nums[..|qrs|]
  {
    seq(|qrs|, i requires 0 <= i < |qrs| => Job(nums[i], qrs[i]))
  }

  /** Splitting a job list into scanners and identifiers and zipping them again restores it. */
  lemma ZipUnzip(jobs: seq<Job>)
    ensures ZipJobs(ScannersOf(jobs), QrsOf(jobs)) == jobs
  {
    var z := ZipJobs(ScannersOf(jobs), QrsOf(jobs));
    assert forall i | 0 <= i < |jobs| :: z[i].scanner == jobs[i].scanner && z[i].qr == jobs[i].qr;
  }

  /** A positional batch stays within the slots `start .. start + 3` when it has at most four. */
  lemma PositionalInSlots(start: int, qrs: seq<string>, slots: map<int, string>)
    requires |qrs| <= 4
    requires forall n | start <= n < start + 4 :: n in slots
    ensures forall i | 0 <= i < |qrs| :: Positional(start, qrs)[i].scanner in slots
  {
  }

  // ---------------------------------------------------------------------------
  // Rounds

  function Flatten<T>(cs: seq<seq<T>>): seq<T>
  {
    if cs == [] then [] else cs[0] + Flatten(cs[1..])
  }

  /**
   * `chunk4`: consecutive slices of four, the last one possibly shorter; nothing for an
   * empty input, and the slices concatenate back to the input.
   */
  function Chunk4<T>(s: seq<T>): (cs: seq<seq<T>>)
    ensures Flatten(cs) == s
    ensures cs == [] <==> s == []
    ensures forall k | 0 <= k < |cs| :: 1 <= |cs[k]| <= 4
    ensures forall k | 0 <= k < |cs| - 1 :: |cs[k]| == 4
    decreases |s|
  {
    if s == [] then []
    else if |s| <= 4 then
      assert Flatten([s]) == s + Flatten([s][1..]);
      [s]
    else
      var rest := Chunk4(s[4..]);
      var cs := [s[..4]] + rest;
      assert cs[1..] == rest;
      assert forall k | 1 <= k < |cs| :: cs[k] == rest[k - 1];
      cs
  }

  /** Where chunk `k` of a sequence of length `n` ends. */
  function ChunkEnd(k: nat, n: nat): nat
  {
    if 4 * k + 4 <= n then 4 * k + 4 else n
  }

  /** Chunk `k` of `chunk4` is the slice `s[4k : 4k + 4]`. */
  lemma {:induction false} Chunk4Slices<T>(s: seq<T>)
    ensures forall k | 0 <= k < |Chunk4(s)| :: 4 * k < |s| && Chunk4(s)[k] == s[4 * k..ChunkEnd(k, |s|)]
    decreases |s|
  {
    if |s| > 4 {
      var t := s[4..];
      Chunk4Slices(t);
      var cs := Chunk4(s);
      var rest := Chunk4(t);
      assert cs == [s[..4]] + rest;
      forall k | 1 <= k < |cs|
        ensures 4 * k < |s| && cs[k] == s[4 * k..ChunkEnd(k, |s|)]
      {
        assert cs[k] == rest[k - 1];
        SliceShift(s, k);
      }
    }
  }

  /** Slice `k - 1` of the input after its first four items is slice `k` of the whole input. */
  lemma SliceShift<T>(s: seq<T>, k: nat)
    requires |s| > 4 && 1 <= k && 4 * (k - 1) < |s| - 4
    ensures 4 * k < |s|
    ensures s[4..][4 * (k - 1)..ChunkEnd(k - 1, |s| - 4)] == s[4 * k..ChunkEnd(k, |s|)]
  {
    assert ChunkEnd(k, |s|) == 4 + ChunkEnd(k - 1, |s| - 4);
  }

  /** `chunk4` yields one slice per started group of four. */
  lemma {:induction false} Chunk4Count<T>(s: seq<T>)
    ensures |Chunk4(s)| == (|s| + 3) / 4
    decreases |s|
  {
    if |s| > 4 {
      Chunk4Count(s[4..]);
      assert (|s| + 3) / 4 == (|s[4..]| + 3) / 4 + 1;
    }
  }

  /**
   * Lockstep chunking of the colour console: chunking the zipped (scanner, identifier) pairs
   * and zipping each chunk's scanners with its identifiers again launches exactly the pairs,
   * in order.
   */
  lemma LockstepChunks(nums: seq<int>, qrs: seq<string>)
    requires |nums| == |qrs|
    ensures var cs := Chunk4(ZipJobs(nums, qrs));
      && Flatten(cs) == ZipJobs(nums, qrs)
      && forall k | 0 <= k < |cs| :: ZipJobs(ScannersOf(cs[k]), QrsOf(cs[k])) == cs[k]
  {
    var cs := Chunk4(ZipJobs(nums, qrs));
    forall k | 0 <= k < |cs|
      ensures ZipJobs(ScannersOf(cs[k]), QrsOf(cs[k])) == cs[k]
    {
      ZipUnzip(cs[k]);
    }
  }

  /**
   * The two rounds of the eight-scanner console: the first four identifiers on scanners
   * `1..4`, then, only if anything is left, the rest from scanner 5 on.
   */
  function SplitRounds(qrs: seq<string>): (rounds: seq<seq<Job>>)
    ensures |rounds| == if |qrs| <= 4 then 1 else 2
    ensures QrsOf(rounds[0]) == qrs[..if |qrs| <= 4 then |qrs| else 4]
  {
    var cut := if |qrs| <= 4 then |qrs| else 4;
    var first := Positional(1, qrs[..cut]);
    var second := qrs[cut..];
    if second == [] then [first] else [first, Positional(5, second)]
  }

  /**
   * Across the two rounds, overall position `i` still goes to scanner `i + 1`: the second
   * round's start of 5 continues exactly where the first round's four slots end.
   */
  lemma SplitRoundsArePositional(qrs: seq<string>)
    ensures Flatten(SplitRounds(qrs)) == Positional(1, qrs)
  {
    var rounds := SplitRounds(qrs);
    if |qrs| <= 4 {
      assert qrs[..|qrs|] == qrs;
      FlattenOne(rounds[0]);
      assert rounds == [rounds[0]];
    } else {
      var a, b := qrs[..4], qrs[4..];
      assert rounds == [Positional(1, a), Positional(5, b)];
      calc {
        Flatten(rounds);
        { FlattenTwo(Positional(1, a), Positional(5, b)); }
        Positional(1, a) + Positional(1 + |a|, b);
        { PositionalAppend(1, a, b); }
        Positional(1, a + b);
        { assert a + b == qrs; }
        Positional(1, qrs);
      }
    }
  }

  lemma FlattenOne<T>(x: seq<T>)
    ensures Flatten([x]) == x
  {
    assert Flatten([x]) == x + Flatten([x][1..]);
  }

  lemma FlattenTwo<T>(x: seq<T>, y: seq<T>)
    ensures Flatten([x, y]) == x + y
  {
    assert [x, y][1..] == [y];
    FlattenOne(y);
  }

  /** Positions keep counting across a concatenation. */
  lemma PositionalAppend(start: int, a: seq<string>, b: seq<string>)
    ensures Positional(start, a) + Positional(start + |a|, b) == Positional(start, a + b)
  {
    var l, r := Positional(start, a) + Positional(start + |a|, b), Positional(start, a + b);
    forall i | 0 <= i < |r|
      ensures l[i] == r[i]
    {
      if i < |a| {
        assert l[i] == Positional(start, a)[i];
      } else {
        assert l[i] == Positional(start + |a|, b)[i - |a|];
      }
    }
  }

  // ---------------------------------------------------------------------------
  // Size sanity check

  const ExpectedSize: int := 429_600_000
  const SizeTolerance: int := 5_000_000

  /** `abs(actual_size - expected_size) > 5_000_000`: the retrieved file may be corrupt. */
  predicate SizeWarning(actual: int)
  {
    (if actual >= ExpectedSize then actual - ExpectedSize else ExpectedSize - actual) > SizeTolerance
  }

  /** The warning fires exactly outside the closed band 424,600,000 ..= 434,600,000. */
  lemma SizeWarningBand(actual: int)
    ensures SizeWarning(actual) <==> actual < 424_600_000 || actual > 434_600_000
    ensures !SizeWarning(424_600_000) && !SizeWarning(434_600_000)
    ensures SizeWarning(424_599_999) && SizeWarning(434_600_001)
  {
  }

  // ---------------------------------------------------------------------------
  // One scan job

  /** Where the retrieved file lands. */
  datatype Layout =
    | ColorFolder         // `scanner_folder / name`
    | NestedColorFolder   // `DEST_DIR / scanner_folder / name`
    | Flat                // `DEST_DIR / name`, no colour folder and no size check

  /** A remote step, with the arguments it is issued with. */
  datatype Step =
    | Ssh(host: string, command: string)
    | Scp(source: string, target: Path)
    | SizeProbe(target: Path)

  datatype ScanOutcome =
    | UnknownScanner            // the slot has no address (or no colour) and the job raises
    | ScanFailed                // `ssh` exited non-zero; nothing is copied
    | CopyFailed                // `scp` exited non-zero
    | Completed(sizeWarning: bool)

  /** What the remote side answers: the exit status of each call and the retrieved size. */
  datatype Remote = Remote(sshOk: bool, scpOk: bool, size: int)

  datatype ScanRun = ScanRun(steps: seq<Step>, outcome: ScanOutcome)

  function Host(ip: string): string
  {
    "seedscanner@" + ip
  }

  /** The remote command: `OUTPUT_FILE='<remote path>' python3 ~/scan.py`. */
  function ScanCommand(qr: string): string
  {
    "OUTPUT_FILE='" + RemotePath(qr) + "' python3 ~/scan.py"
  }

  function LocalPath(layout: Layout, dest: Path, color: string, qr: string): Path
  {
    match layout
    case ColorFolder => FolderLocalPath(dest, color, qr)
    case NestedColorFolder => NestedLocalPath(dest, color, qr)
    case Flat => FlatLocalPath(dest, qr)
  }

  /** The slot has an address and, outside the flat layout, a colour, so its lookups succeed. */
  predicate Known(d: Deployment, layout: Layout, job: Job)
  {
    job.scanner in d.ips && (layout != Flat ==> job.scanner in d.colors)
  }

  /**
   * `run_scan`: look the slot up, start the remote capture over `ssh`, and only if that
   * succeeded copy the file back with `scp`; then, except in the flat layout, compare the
   * retrieved size with the expected one.
   */
  function RunScan(d: Deployment, layout: Layout, dest: Path, job: Job, remote: Remote): (run: ScanRun)
    ensures run.outcome.UnknownScanner? <==> !Known(d, layout, job)
    ensures run.outcome.UnknownScanner? <==> run.steps == []
    ensures run.outcome.ScanFailed? <==> Known(d, layout, job) && !remote.sshOk
    ensures (exists k | 0 <= k < |run.steps| :: run.steps[k].Scp?) <==> !run.outcome.UnknownScanner? && remote.sshOk
    ensures run.outcome.Completed? <==> !run.outcome.UnknownScanner? && remote.sshOk && remote.scpOk
    ensures run.outcome.Completed? ==> run.outcome.sizeWarning == (layout != Flat && SizeWarning(remote.size))
    ensures run.steps != [] ==> run.steps[0] == Ssh(Host(d.ips[job.scanner]), ScanCommand(job.qr))
    ensures |run.steps| >= 2 ==>
      && run.steps[1].Scp?
      && run.steps[1].source == Host(d.ips[job.scanner]) + ":" + RemotePath(job.qr)
      && (forall k | 1 < k < |run.steps| :: run.steps[k] == SizeProbe(run.steps[1].target))
    ensures |run.steps| >= 2 ==>
      run.steps[1].target == LocalPath(layout, dest, if layout == Flat then "" else d.colors[job.scanner], job.qr)
    ensures run.outcome.ScanFailed? ==> |run.steps| == 1
    ensures run.outcome.CopyFailed? ==> |run.steps| == 2
    ensures run.outcome.Completed? ==> |run.steps| == (if layout == Flat then 2 else 3)
  {
    if job.scanner !in d.ips || (layout != Flat && job.scanner !in d.colors) then
      ScanRun([], UnknownScanner)
    else
      var host := Host(d.ips[job.scanner]);
      var color := if layout == Flat then "" else d.colors[job.scanner];
      var local := LocalPath(layout, dest, color, job.qr);
      var ssh := Ssh(host, ScanCommand(job.qr));
      var scp := Scp(host + ":" + RemotePath(job.qr), local);
      if !remote.sshOk then ScanRun([ssh], ScanFailed)
      else
        var copied := [ssh, scp];
        assert copied[1].Scp?;
        if !remote.scpOk then ScanRun(copied, CopyFailed)
        else if layout == Flat then ScanRun(copied, Completed(false))
        else
          var probed := copied + [SizeProbe(local)];
          assert probed[1].Scp?;
          ScanRun(probed, Completed(SizeWarning(remote.size)))
  }

  /**
   * The copy target of a colour layout is `<dest>/<colour>/<identifier with spaces
   * replaced>.tiff`, built from the original identifier and not the sanitised one, and the
   * nested join lands in the same place.
   */
  lemma RunScanTarget(d: Deployment, layout: Layout, dest: Path, job: Job, remote: Remote)
    requires layout != Flat && dest.absolute
    requires job.scanner in d.ips && job.scanner in d.colors
    requires var c := d.colors[job.scanner]; c != [] && c != "." && '/' !in c
    requires '/' !in job.qr
    requires remote.sshOk
    ensures RunScan(d, layout, dest, job, remote).steps[1].target
         == Path(true, dest.parts + [d.colors[job.scanner], LocalFilename(job.qr) + ".tiff"])
  {
    var c := d.colors[job.scanner];
    FolderLocalPathShape(dest, c, job.qr);
    NestedEqualsFolder(dest, c, job.qr);
  }

  /**
   * `run_batch`: every job of a round is run, each in its own worker, and an exception in one
   * worker is caught and logged without touching the others. So the outcome of job `i` is
   * decided by its own slot and its own remote answers alone.
   */
  function RunBatch(d: Deployment, layout: Layout, dest: Path, jobs: seq<Job>, remote: seq<Remote>)
    : (runs: seq<ScanRun>)
    requires |remote| == |jobs|
    ensures |runs| == |jobs|
    ensures forall i | 0 <= i < |jobs| :: runs[i].outcome.UnknownScanner? <==> !Known(d, layout, jobs[i])
    ensures forall i | 0 <= i < |jobs| ::
      runs[i].outcome.ScanFailed? <==> Known(d, layout, jobs[i]) && !remote[i].sshOk
    ensures forall i | 0 <= i < |jobs| ::
      runs[i].outcome.Completed? <==> Known(d, layout, jobs[i]) && remote[i].sshOk && remote[i].scpOk
    ensures forall i | 0 <= i < |jobs| :: Known(d, layout, jobs[i]) ==>
      runs[i].steps != [] && runs[i].steps[0] == Ssh(Host(d.ips[jobs[i].scanner]), ScanCommand(jobs[i].qr))
  {
    seq(|jobs|, i requires 0 <= i < |jobs| => RunScan(d, layout, dest, jobs[i], remote[i]))
  }

  /**
   * Fault isolation: when every slot of the round is known and only job `k`'s `ssh` fails,
   * job `k` fails without copying anything and every other job completes.
   */
  lemma RunBatchIsolatesFailure(d: Deployment, layout: Layout, dest: Path, jobs: seq<Job>, remote: seq<Remote>, k: nat)
    requires |remote| == |jobs| && k < |jobs|
    requires forall i | 0 <= i < |jobs| :: Known(d, layout, jobs[i])
    requires !remote[k].sshOk
    requires forall i | 0 <= i < |jobs| && i != k :: remote[i].sshOk && remote[i].scpOk
    ensures var runs := RunBatch(d, layout, dest, jobs, remote);
      && runs[k].outcome == ScanFailed
      && (forall j | 0 <= j < |runs[k].steps| :: !runs[k].steps[j].Scp?)
      && (forall i | 0 <= i < |jobs| && i != k :: runs[i].outcome.Completed?)
  {
    var runs := RunBatch(d, layout, dest, jobs, remote);
    assert runs[k] == RunScan(d, layout, dest, jobs[k], remote[k]);
  }
}
