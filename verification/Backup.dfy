/** Backup jobs and the table of contents of the kept versions (backup/backup.go). */
module Backup {
  import opened Wrappers

  datatype Job = Monthly | Weekly | Daily | OtherJob(name: string)

  datatype BackupDef = BackupDef(appBuild: int, job: Job, timestamp: int)

  // a job of the configuration: whether it is active, how many versions to keep
  datatype Setting = Setting(active: bool, keep: nat)

  datatype Config = Config(monthly: Setting, weekly: Setting, daily: Setting)

  datatype Outcome = Done | Failed | Panicked

  // ---- what is in the table

  function CountJob(s: seq<BackupDef>, job: Job): (n: nat)
    ensures n <= |s|
  {
    if s == [] then 0 else CountJob(s[1..], job) + if s[0].job == job then 1 else 0
  }

  predicate PositiveTimestamps(s: seq<BackupDef>) {
    forall b :: b in s ==> b.timestamp > 0
  }

  // nothing was added, other jobs kept everything, and what the job lost is not newer than what it kept
  ghost predicate Pruned(before: seq<BackupDef>, after: seq<BackupDef>, job: Job) {
    && (forall b: BackupDef :: multiset(after)[b] <= multiset(before)[b])
    && (forall b: BackupDef :: b.job != job ==> multiset(after)[b] == multiset(before)[b])
    && (forall lost: BackupDef, kept: BackupDef ::
          lost.job == job && kept.job == job && multiset(after)[lost] < multiset(before)[lost] &&
              multiset(after)[kept] > 0 ==>
            lost.timestamp <= kept.timestamp)
  }

  lemma {:induction false} CountSplits(s: seq<BackupDef>, t: seq<BackupDef>, job: Job)
    ensures CountJob(s + t, job) == CountJob(s, job) + CountJob(t, job)
  {
    if s == [] {
      assert s + t == t;
    } else {
      assert (s + t)[1..] == s[1..] + t;
      CountSplits(s[1..], t, job);
    }
  }

  lemma {:induction false} CountsNone(s: seq<BackupDef>, job: Job)
    ensures CountJob(s, job) == 0 <==> forall b :: b in s ==> b.job != job
    ensures CountJob(s, job) == |s| <==> forall b :: b in s ==> b.job == job
  {
    if s != [] {
      CountsNone(s[1..], job);
      assert s == [s[0]] + s[1..];
    }
  }

  // how many versions are left if room is made for one more
  function KeptOf(count: nat, countKeep: nat): nat
    requires countKeep >= 1
  {
    if count < countKeep then count else countKeep - 1
  }

  function SwapRemoved(s: seq<BackupDef>, i: nat): seq<BackupDef>
    requires i < |s|
  {
    s[i := s[|s| - 1]][..|s| - 1]
  }

  lemma SwapPieces(s: seq<BackupDef>, i: nat)
    requires i < |s| - 1
    ensures s == (s[..i] + [s[i]] + s[i + 1..|s| - 1]) + [s[|s| - 1]]
    ensures SwapRemoved(s, i) == s[..i] + [s[|s| - 1]] + s[i + 1..|s| - 1]
  {
  }

  lemma SwapRemoves(s: seq<BackupDef>, i: nat, job: Job)
    requires i < |s|
    ensures multiset(SwapRemoved(s, i)) == multiset(s) - multiset{s[i]}
    ensures CountJob(SwapRemoved(s, i), job) == CountJob(s, job) - if s[i].job == job then 1 else 0
  {
    var n := |s| - 1;
    if i == n {
      assert s == s[..n] + [s[n]] && SwapRemoved(s, i) == s[..n];
      CountSplits(s[..n], [s[n]], job);
    } else {
      var head, x, tail, y := s[..i], s[i], s[i + 1..n], s[n];
      SwapPieces(s, i);
      CountSplits(head + [x] + tail, [y], job);
      ReplacedInside(head, x, tail, y, job);
    }
  }

  lemma ReplacedInside(head: seq<BackupDef>, x: BackupDef, tail: seq<BackupDef>, y: BackupDef, job: Job)
    ensures CountJob(head + [y] + tail, job) == CountJob(head + [x] + tail, job) +
            CountJob([y], job) - CountJob([x], job)
    ensures multiset(head + [y] + tail) == multiset(head + [x] + tail) + multiset{y} - multiset{x}
  {
    CountSplits(head + [y], tail, job);
    CountSplits(head, [y], job);
    CountSplits(head + [x], tail, job);
    CountSplits(head, [x], job);
  }

  lemma PruneOldest(before: seq<BackupDef>, s: seq<BackupDef>, i: nat, job: Job)
    requires Pruned(before, s, job) && i < |s| && s[i].job == job
    requires forall b :: b in s && b.job == job ==> s[i].timestamp <= b.timestamp
    ensures Pruned(before, SwapRemoved(s, i), job)
  {
    SwapRemoves(s, i, job);
    PrunedByOne(before, s, SwapRemoved(s, i), s[i]);
  }

  lemma PrunedByOne(before: seq<BackupDef>, s: seq<BackupDef>, t: seq<BackupDef>, x: BackupDef)
    requires Pruned(before, s, x.job) && x in s && multiset(t) == multiset(s) - multiset{x}
    requires forall b :: b in s && b.job == x.job ==> x.timestamp <= b.timestamp
    ensures Pruned(before, t, x.job)
  {
    forall b: BackupDef
      ensures multiset(t)[b] == multiset(s)[b] - if b == x then 1 else 0
      ensures multiset(s)[b] > 0 <==> b in s
    {
    }
  }

  // ---- one run

  function Interval(job: Job): int {
    match job
    case Monthly => 2592000
    case Weekly => 604800
    case _ => 86400
  }

  function SettingOf(config: Config, job: Job): Setting {
    match job
    case Monthly => config.monthly
    case Weekly => config.weekly
    case Daily => config.daily
    case OtherJob(_) => Setting(false, 0)
  }

  function Latest(s: seq<BackupDef>, job: Job): int {
    if s == [] then 0
    else
      var n := |s| - 1;
      var latest := Latest(s[..n], job);
      if s[n].job == job && s[n].timestamp > latest then s[n].timestamp else latest
  }

  predicate IsDue(s: seq<BackupDef>, job: Job, now: int) {
    Latest(s, job) <= now - Interval(job)
  }

  predicate Runs(config: Config, s: seq<BackupDef>, job: Job, now: int) {
    SettingOf(config, job).active && IsDue(s, job, now)
  }

  // at most one job a run, the one with the longest interval first
  function Chosen(config: Config, s: seq<BackupDef>, now: int): Option<Job> {
    if Runs(config, s, Monthly, now) then Some(Monthly)
    else if Runs(config, s, Weekly, now) then Some(Weekly)
    else if Runs(config, s, Daily, now) then Some(Daily)
    else None
  }

  // what a cleanup without failures leaves: room for one version, or, without any version to keep, none of the
  // job's versions and one entry less of the others
  ghost predicate CleanedUp(before: seq<BackupDef>, after: seq<BackupDef>, job: Job, keep: nat) {
    if keep >= 1 then Pruned(before, after, job) && CountJob(after, job) == KeptOf(CountJob(before, job), keep)
    else
      && (forall b: BackupDef :: multiset(after)[b] <= multiset(before)[b])
      && CountJob(after, job) == 0 && |after| == |before| - CountJob(before, job) - 1
  }

  // left versions are still to be removed
  ghost predicate Cleaning(before: seq<BackupDef>, s: seq<BackupDef>, job: Job, left: int, keep: nat) {
    if left <= 0 then CleanedUp(before, s, job, keep)
    else
      && Pruned(before, s, job) && |s| - CountJob(s, job) == |before| - CountJob(before, job)
      && CountJob(s, job) == left + keep - 1 <= CountJob(before, job)
  }

  lemma CleaningStep(before: seq<BackupDef>, s: seq<BackupDef>, index: nat, job: Job, left: int, keep: nat)
    requires left > 0 && Cleaning(before, s, job, left, keep) && index < |s|
    requires CountJob(s, job) > 0 ==>
               s[index].job == job && forall b :: b in s && b.job == job ==> s[index].timestamp <= b.timestamp
    ensures Cleaning(before, SwapRemoved(s, index), job, left - 1, keep)
    ensures PositiveTimestamps(s) ==> PositiveTimestamps(SwapRemoved(s, index))
  {
    var t := SwapRemoved(s, index);
    SwapRemoves(s, index, job);
    if CountJob(s, job) > 0 {
      PruneOldest(before, s, index, job);
    } else {
      CountsNone(s, job);
    }
    forall b | b in t
      ensures b in s
    {
      assert multiset(t)[b] > 0;
    }
  }

  // the job was cleaned up and a version added
  ghost predicate HasRun(before: seq<BackupDef>, after: seq<BackupDef>, job: Job, keep: nat, newTimestamp: int) {
    && |after| > 0
    && var n := |after| - 1;
       && CleanedUp(before, after[..n], job, keep)
       && after[n].job == job && after[n].timestamp == newTimestamp
  }

  // a job has run, or has failed while or after it was cleaned up
  ghost predicate JobStep(before: seq<BackupDef>, after: seq<BackupDef>, job: Job, keep: nat, newTimestamp: int) {
    HasRun(before, after, job, keep, newTimestamp) || Pruned(before, after, job) || CleanedUp(before, after, job, keep)
  }

  lemma AddingRuns(before: seq<BackupDef>, pruned: seq<BackupDef>, b: BackupDef, keep: nat)
    requires CleanedUp(before, pruned, b.job, keep)
    ensures HasRun(before, pruned + [b], b.job, keep, b.timestamp)
  {
    assert (pruned + [b])[..|pruned|] == pruned;
  }

  // ---- the program's own loops

  // the table of contents: in the file, and as a run has it in memory
  class TocFile {
    var file: seq<BackupDef>
    var backups: seq<BackupDef>

    constructor (file: seq<BackupDef>)
      ensures this.file == file
    {
      this.file, backups := file, [];
    }

    method Read() returns (ok: bool)
      modifies this`backups
      ensures ok ==> backups == file
    {
      ok := *;
      if ok {
        backups := file;
      }
    }

    // a write that fails may have been done all the same
    method Write() returns (ok: bool)
      modifies this`file
      ensures file == backups || file == old(file)
      ensures ok ==> file == backups
    {
      var written: bool := *;
      if written {
        file := backups;
      }
      ok := *;
      if !written {
        ok := false;
      }
    }

    // the entry of a job with the lowest timestamp; the first entry of all if the job has none
    method Oldest(job: Job) returns (index: nat)
      requires PositiveTimestamps(backups)
      ensures CountJob(backups, job) == 0 ==> index == 0
      ensures CountJob(backups, job) > 0 ==> index < |backups| && backups[index].job == job
      ensures CountJob(backups, job) > 0 ==> forall b :: b in backups && b.job == job ==>
                backups[index].timestamp <= b.timestamp
    {
      var timestampToDelete := 0;
      index := 0;
      for i := 0 to |backups|
        invariant timestampToDelete == 0 ==> index == 0 && forall k :: 0 <= k < i ==> backups[k].job != job
        invariant timestampToDelete != 0 ==>
                    index < i && backups[index].job == job && backups[index].timestamp == timestampToDelete &&
                    forall k :: 0 <= k < i && backups[k].job == job ==> timestampToDelete <= backups[k].timestamp
      {
        var backup := backups[i];
        assert backup in backups;
        if backup.job == job && (timestampToDelete == 0 || backup.timestamp < timestampToDelete) {
          timestampToDelete := backup.timestamp;
          index := i;
        }
      }
      CountsNone(backups, job);
    }

    method CountVersions(job: Job) returns (countCurrent: nat)
      ensures countCurrent == CountJob(backups, job)
    {
      countCurrent := 0;
      for i := 0 to |backups|
        invariant countCurrent == CountJob(backups[..i], job)
      {
        assert backups[..i + 1] == backups[..i] + [backups[i]];
        CountSplits(backups[..i], [backups[i]], job);
        if backups[i].job == job {
          countCurrent := countCurrent + 1;
        }
      }
      assert backups[..|backups|] == backups;
    }

    // Versions that are not kept are removed, which makes room for the next one. Deleting files and
    // writing the table can fail at every version. Without any version to keep, one entry too many goes,
    // whatever its job.
    method JobCleanup(job: Job, countKeep: nat) returns (outcome: Outcome)
      requires PositiveTimestamps(backups) && file == backups
      modifies this
      ensures outcome == Done ==>
                file == backups && PositiveTimestamps(backups) &&
                CleanedUp(old(backups), backups, job, countKeep)
      ensures Pruned(old(backups), file, job) || CleanedUp(old(backups), file, job, countKeep)
      ensures outcome == Panicked ==> countKeep == 0 && CountJob(old(backups), job) == |old(backups)|
    {
      var countCurrent := CountVersions(job);
      var countDelete := countCurrent - countKeep + 1;
      while countDelete > 0
        invariant PositiveTimestamps(backups) && file == backups
        invariant Cleaning(old(backups), backups, job, countDelete, countKeep)
      {
        outcome := RemoveVersion(job, old(backups), countDelete, countKeep);
        if outcome != Done {
          return;
        }
        countDelete := countDelete - 1;
      }
      return Done;
    }

    method RemoveVersion(job: Job, ghost before: seq<BackupDef>, ghost left: int, ghost keep: nat)
      returns (outcome: Outcome)
      requires PositiveTimestamps(backups) && file == backups
      requires left > 0 && Cleaning(before, backups, job, left, keep)
      modifies this
      ensures outcome == Done ==>
                file == backups && PositiveTimestamps(backups) &&
                Cleaning(before, backups, job, left - 1, keep)
      ensures Cleaning(before, file, job, left, keep) || Cleaning(before, file, job, left - 1, keep)
      ensures outcome == Panicked ==> keep == 0 && CountJob(before, job) == |before|
    {
      var index := Oldest(job);
      var failed: bool := *;
      if failed {
        return Failed;
      }
      if |backups| == 0 {
        return Panicked;
      }
      CleaningStep(before, backups, index, job, left, keep);
      RemoveAt(index);
      var ok := Write();
      if !ok {
        return Failed;
      }
      return Done;
    }

    method RemoveAt(index: nat)
      requires index < |backups|
      modifies this`backups
      ensures backups == SwapRemoved(old(backups), index)
    {
      backups := backups[index := backups[|backups| - 1]];
      backups := backups[..|backups| - 1];
    }

    method JobBackup(job: Job, appBuild: int, newTimestamp: int) returns (ok: bool)
      requires file == backups
      modifies this
      ensures file == old(file) || file == old(file) + [BackupDef(appBuild, job, newTimestamp)]
      ensures ok ==> file == backups == old(file) + [BackupDef(appBuild, job, newTimestamp)]
    {
      var failed: bool := *;
      if failed {
        return false;
      }
      backups := backups + [BackupDef(appBuild, job, newTimestamp)];
      ok := Write();
    }

    method LatestVersion(job: Job) returns (timestampLatest: int)
      ensures timestampLatest == Latest(backups, job)
    {
      timestampLatest := 0;
      for i := 0 to |backups|
        invariant timestampLatest == Latest(backups[..i], job)
      {
        assert backups[..i + 1][..i] == backups[..i];
        if backups[i].job == job && backups[i].timestamp > timestampLatest {
          timestampLatest := backups[i].timestamp;
        }
      }
      assert backups[..|backups|] == backups;
    }

    method RunOne(job: Job, keepVersions: nat, now: int, appBuild: int, newTimestamp: int)
      returns (outcome: Outcome, jobRan: bool)
      requires PositiveTimestamps(backups) && file == backups
      modifies this
      ensures !IsDue(old(backups), job, now) ==> outcome == Done && !jobRan && file == backups == old(backups)
      ensures IsDue(old(backups), job, now) && outcome == Done ==>
                jobRan && HasRun(old(backups), file, job, keepVersions, newTimestamp)
      ensures IsDue(old(backups), job, now) ==> JobStep(old(backups), file, job, keepVersions, newTimestamp)
      ensures outcome == Panicked ==> keepVersions == 0
    {
      var timestampLatest := LatestVersion(job);
      if timestampLatest > now - Interval(job) {
        return Done, false;
      }
      outcome := JobCleanup(job, keepVersions);
      if outcome != Done {
        return outcome, false;
      }
      AddingRuns(old(backups), file, BackupDef(appBuild, job, newTimestamp), keepVersions);
      var ok := JobBackup(job, appBuild, newTimestamp);
      if !ok {
        return Failed, false;
      }
      return Done, true;
    }

    // Whatever comes of a run, the file has taken one step that a run may take.
    method Run(config: Config, now: int, appBuild: int, newTimestamp: int) returns (outcome: Outcome)
      requires PositiveTimestamps(file)
      modifies this
      ensures RunStep(config, old(file), file, RunEvent(now, newTimestamp))
      ensures outcome == Panicked ==> !KeepsSome(config)
      ensures outcome == Done ==>
                match Chosen(config, old(file), now)
                case None => file == old(file)
                case Some(job) => HasRun(old(file), file, job, SettingOf(config, job).keep, newTimestamp)
    {
      if !config.monthly.active && !config.weekly.active && !config.daily.active {
        return Done;
      }
      NothingPruned(file);
      var ok := Read();
      if !ok {
        return Failed;
      }
      var jobRan := false;
      outcome := Done;
      if !jobRan && config.monthly.active {
        assert SettingOf(config, Monthly).active;
        outcome, jobRan := RunOne(Monthly, config.monthly.keep, now, appBuild, newTimestamp);
        if outcome != Done {
          return;
        }
      }
      if !jobRan && config.weekly.active {
        assert SettingOf(config, Weekly).active;
        outcome, jobRan := RunOne(Weekly, config.weekly.keep, now, appBuild, newTimestamp);
        if outcome != Done {
          return;
        }
      }
      if !jobRan && config.daily.active {
        assert SettingOf(config, Daily).active;
        outcome, jobRan := RunOne(Daily, config.daily.keep, now, appBuild, newTimestamp);
      }
    }
  }

  lemma NothingPruned(s: seq<BackupDef>)
    ensures forall job :: Pruned(s, s, job)
  {
  }

  // ---- all runs

  datatype RunEvent = RunEvent(now: int, newTimestamp: int)

  // every active job keeps at least one version
  ghost predicate KeepsSome(config: Config) {
    forall job :: SettingOf(config, job).active ==> SettingOf(config, job).keep >= 1
  }

  // what a run may do to the file: nothing if no job is due, else the step of one job
  ghost predicate RunStep(config: Config, before: seq<BackupDef>, after: seq<BackupDef>, e: RunEvent) {
    match Chosen(config, before, e.now)
    case None => after == before
    case Some(job) => JobStep(before, after, job, SettingOf(config, job).keep, e.newTimestamp)
  }

  // versions of a job are at least its interval apart
  ghost predicate Spaced(s: seq<BackupDef>, job: Job) {
    && (forall a :: a in s && a.job == job ==> multiset(s)[a] == 1)
    && (forall a, b :: a in s && b in s && a.job == job && b.job == job && a != b ==>
          a.timestamp - b.timestamp >= Interval(job) || b.timestamp - a.timestamp >= Interval(job))
  }

  ghost predicate Healthy(config: Config, s: seq<BackupDef>) {
    && PositiveTimestamps(s)
    && forall job :: SettingOf(config, job).active ==> Spaced(s, job) && CountJob(s, job) <= SettingOf(config, job).keep
  }

  lemma {:induction false} CountIsMonotone(s: seq<BackupDef>, t: seq<BackupDef>, job: Job)
    requires forall b: BackupDef :: b.job == job ==> multiset(t)[b] <= multiset(s)[b]
    ensures CountJob(t, job) <= CountJob(s, job)
    decreases |t|
  {
    if t != [] {
      assert t == [t[0]] + t[1..];
      var x := t[0];
      if x.job == job {
        assert multiset(t)[x] > 0;
        assert x in s;
        var i :| 0 <= i < |s| && s[i] == x;
        SwapRemoves(s, i, job);
        CountIsMonotone(SwapRemoved(s, i), t[1..], job);
      } else {
        CountIsMonotone(s, t[1..], job);
      }
    }
  }

  lemma {:induction false} OthersAreMonotone(s: seq<BackupDef>, t: seq<BackupDef>, job: Job)
    requires forall b: BackupDef :: b.job != job ==> multiset(t)[b] <= multiset(s)[b]
    ensures |t| - CountJob(t, job) <= |s| - CountJob(s, job)
    decreases |t|
  {
    if t != [] {
      assert t == [t[0]] + t[1..];
      var x := t[0];
      if x.job != job {
        assert multiset(t)[x] > 0;
        assert x in s;
        var i :| 0 <= i < |s| && s[i] == x;
        SwapRemoves(s, i, job);
        OthersAreMonotone(SwapRemoved(s, i), t[1..], job);
      } else {
        OthersAreMonotone(s, t[1..], job);
      }
    }
  }

  // The only backup of all is one of another job: with no version to keep, it is gone after a cleanup.
  lemma CleanupTakesLastBackup(after: seq<BackupDef>)
    ensures CleanedUp([BackupDef(1, Weekly, 5)], after, Daily, 0) <==> after == []
  {
  }

  // A cleanup leaves the entries of other jobs alone if and only if a version is to be kept.
  lemma OthersStayIffSomeKept(before: seq<BackupDef>, after: seq<BackupDef>, job: Job, keep: nat)
    requires CleanedUp(before, after, job, keep)
    ensures (forall b: BackupDef :: b.job != job ==> multiset(after)[b] == multiset(before)[b]) <==> keep >= 1
  {
    if forall b: BackupDef :: b.job != job ==> multiset(after)[b] == multiset(before)[b] {
      OthersAreMonotone(after, before, job);
    }
  }

  lemma {:induction false} LatestIsLatest(s: seq<BackupDef>, job: Job)
    ensures Latest(s, job) >= 0
    ensures forall b :: b in s && b.job == job ==> b.timestamp <= Latest(s, job)
    ensures Latest(s, job) == 0 || exists b :: b in s && b.job == job && b.timestamp == Latest(s, job)
  {
    if s != [] {
      LatestIsLatest(s[..|s| - 1], job);
      assert s == s[..|s| - 1] + [s[|s| - 1]];
      assert s[|s| - 1] in s;
    }
  }

  lemma PrunedKeepsHealthy(config: Config, before: seq<BackupDef>, after: seq<BackupDef>, job: Job)
    requires Healthy(config, before) && Pruned(before, after, job)
    ensures Healthy(config, after)
  {
    forall b | b in after
      ensures b in before && multiset(before)[b] >= multiset(after)[b] >= 1
    {
      assert multiset(after)[b] > 0;
    }
    forall j: Job
      ensures CountJob(after, j) <= CountJob(before, j)
    {
      CountIsMonotone(before, after, j);
    }
  }

  lemma AppendKeepsHealthy(config: Config, s: seq<BackupDef>, b: BackupDef)
    requires Healthy(config, s) && b.timestamp > 0
    requires SettingOf(config, b.job).active ==> CountJob(s, b.job) < SettingOf(config, b.job).keep
    requires forall a :: a in s && a.job == b.job ==> b.timestamp - a.timestamp >= Interval(b.job)
    ensures Healthy(config, s + [b])
  {
    assert b !in s;
    forall j: Job
      ensures CountJob(s + [b], j) == CountJob(s, j) + if b.job == j then 1 else 0
    {
      CountSplits(s, [b], j);
    }
  }

  // Over any runs, with failures or without: an active job never has more versions than are to be kept,
  // and its versions stay at least its interval apart.
  lemma {:induction false} RunsKeepHealthy(config: Config, states: seq<seq<BackupDef>>, events: seq<RunEvent>)
    requires KeepsSome(config)
    requires |states| == |events| + 1 && Healthy(config, states[0])
    requires forall k :: 0 <= k < |events| ==>
               0 < events[k].now <= events[k].newTimestamp && RunStep(config, states[k], states[k + 1], events[k])
    ensures Healthy(config, states[|events|])
    decreases |events|
  {
    if events != [] {
      var n := |events| - 1;
      RunsKeepHealthy(config, states[..n + 1], events[..n]);
      OneRunKeepsHealthy(config, states[n], states[n + 1], events[n]);
    }
  }

  lemma OneRunKeepsHealthy(config: Config, before: seq<BackupDef>, after: seq<BackupDef>, e: RunEvent)
    requires KeepsSome(config)
    requires Healthy(config, before) && 0 < e.now <= e.newTimestamp && RunStep(config, before, after, e)
    ensures Healthy(config, after)
  {
    var chosen := Chosen(config, before, e.now);
    if chosen.Some? {
      var job := chosen.value;
      FailedJobPrunes(before, after, job, SettingOf(config, job).keep, e.newTimestamp);
      if Pruned(before, after, job) {
        PrunedKeepsHealthy(config, before, after, job);
      } else {
        RunKeepsHealthy(config, before, after, job, e);
      }
    }
  }

  lemma RunKeepsHealthy(config: Config, before: seq<BackupDef>, after: seq<BackupDef>, job: Job, e: RunEvent)
    requires Healthy(config, before) && 0 < e.now <= e.newTimestamp && IsDue(before, job, e.now)
    requires SettingOf(config, job).keep >= 1 && HasRun(before, after, job, SettingOf(config, job).keep, e.newTimestamp)
    ensures Healthy(config, after)
  {
    var n := |after| - 1;
    HasRunKeepsHealthy(config, before, after[..n], after[n], e.now);
    assert after == after[..n] + [after[n]];
  }

  lemma FailedJobPrunes(before: seq<BackupDef>, after: seq<BackupDef>, job: Job, keep: nat, newTimestamp: int)
    requires JobStep(before, after, job, keep, newTimestamp) && keep >= 1
    ensures HasRun(before, after, job, keep, newTimestamp) || Pruned(before, after, job)
  {
  }

  lemma HasRunKeepsHealthy(config: Config, before: seq<BackupDef>, pruned: seq<BackupDef>, b: BackupDef, now: int)
    requires Healthy(config, before) && Pruned(before, pruned, b.job) && IsDue(before, b.job, now) &&
             0 < now <= b.timestamp
    requires SettingOf(config, b.job).active ==> CountJob(pruned, b.job) < SettingOf(config, b.job).keep
    ensures Healthy(config, pruned + [b])
  {
    PrunedKeepsHealthy(config, before, pruned, b.job);
    SpaceForNew(before, pruned, b.job, now);
    AppendKeepsHealthy(config, pruned, b);
  }

  lemma SpaceForNew(before: seq<BackupDef>, pruned: seq<BackupDef>, job: Job, now: int)
    requires IsDue(before, job, now) && Pruned(before, pruned, job)
    ensures forall a :: a in pruned && a.job == job ==> now - a.timestamp >= Interval(job)
  {
    LatestIsLatest(before, job);
    forall a | a in pruned && a.job == job
      ensures now - a.timestamp >= Interval(job)
    {
      assert multiset(pruned)[a] > 0;
      assert a in before;
    }
  }

  // ---- which job a run chooses

  // all versions of the job are so many days old, and so is time 0, which counts if there is none
  ghost predicate OldEnough(s: seq<BackupDef>, job: Job, days: int, now: int) {
    && now >= days * 24 * 3600
    && forall b :: b in s && b.job == job ==> now - b.timestamp >= days * 24 * 3600
  }

  lemma DueIfOldEnough(s: seq<BackupDef>, job: Job, days: int, now: int)
    requires (job == Monthly && days == 30) || (job == Weekly && days == 7) || (job == Daily && days == 1)
    ensures IsDue(s, job, now) <==> OldEnough(s, job, days, now)
  {
    LatestIsLatest(s, job);
  }

  // Of the active jobs whose versions are old enough, the one with the longest interval runs.
  lemma LongestIntervalFirst(config: Config, s: seq<BackupDef>, now: int)
    ensures var monthly := config.monthly.active && OldEnough(s, Monthly, 30, now);
            var weekly := config.weekly.active && OldEnough(s, Weekly, 7, now);
            var daily := config.daily.active && OldEnough(s, Daily, 1, now);
            && (Chosen(config, s, now) == Some(Monthly) <==> monthly)
            && (Chosen(config, s, now) == Some(Weekly) <==> !monthly && weekly)
            && (Chosen(config, s, now) == Some(Daily) <==> !monthly && !weekly && daily)
            && (Chosen(config, s, now) == None <==> !monthly && !weekly && !daily)
  {
    DueIfOldEnough(s, Monthly, 30, now);
    DueIfOldEnough(s, Weekly, 7, now);
    DueIfOldEnough(s, Daily, 1, now);
  }
}
