/**
 Reaping background jobs (shell_2/reap.c): `reap` drives the list's own iterator while
 `reap_help` unlinks and updates entries under it.  `waitpid` is an oracle: one answer per
 process id and round.
 */
module Reap {
  import opened Jobs

  const RUNNING := "Running"
  const STOPPED := "Stopped"

  /** What waitpid reports: nothing, an error, or one of the status changes. */
  datatype Status = NoChange | Failed | Stopped(signal: int) | Signaled(signal: int) | Exited(code: int)
      | Continued | Strange

  datatype Message = Suspended(jid: int, pid: int, signal: int) | Killed(jid: int, pid: int, signal: int)
                   | Ended(jid: int, pid: int, code: int) | Resumed(jid: int, pid: int) | Unknown(pid: int)

  predicate Terminated(s: Status) { s.Signaled? || s.Exited? }

  // ----- the specification of one round -----

  /** A job after its status has been looked at: gone, relabelled or as it was. */
  function Polled(job: Job, s: Status): seq<Job> {
    match s
    case Stopped(_) => [job.(state := STOPPED)]
    case Continued => [job.(state := RUNNING)]
    case Signaled(_) => []
    case Exited(_) => []
    case _ => [job]
  }

  function Report(job: Job, s: Status): seq<Message> {
    match s
    case Stopped(sig) => [Suspended(job.jid, job.pid, sig)]
    case Signaled(sig) => [Killed(job.jid, job.pid, sig)]
    case Exited(code) => [Ended(job.jid, job.pid, code)]
    case Continued => [Resumed(job.jid, job.pid)]
    case Strange => [Unknown(job.pid)]
    case _ => []
  }

  function Survivors(jobs: seq<Job>, poll: int -> Status): seq<Job> {
    if jobs == [] then []
    else
      var last := jobs[|jobs| - 1];
      Survivors(jobs[..|jobs| - 1], poll) + Polled(last, poll(last.pid))
  }

  function Reports(jobs: seq<Job>, poll: int -> Status): seq<Message> {
    if jobs == [] then []
    else
      var last := jobs[|jobs| - 1];
      Reports(jobs[..|jobs| - 1], poll) + Report(last, poll(last.pid))
  }

  function Pids(jobs: seq<Job>): seq<int> {
    seq(|jobs|, i requires 0 <= i < |jobs| => jobs[i].pid)
  }

  /** Job ids grow along the list and the process ids of real processes differ. */
  ghost predicate Ordered(jobs: seq<Job>) {
    && (forall i, j {:trigger Before(jobs, i, j)} :: 0 <= i < j < |jobs| ==> Before(jobs, i, j))
    && (forall i :: 0 <= i < |jobs| ==> jobs[i].jid > 0)
  }

  ghost predicate Before(jobs: seq<Job>, i: int, j: int) {
    0 <= i < j < |jobs| && jobs[i].jid < jobs[j].jid && (jobs[i].pid != jobs[j].pid || jobs[i].pid <= 0)
  }

  /** Every job stands for a process; a failed fork adds one that does not. */
  ghost predicate AllReal(jobs: seq<Job>) {
    forall i :: 0 <= i < |jobs| ==> jobs[i].pid > 0
  }

  /** The place of the first job without a process, or the length: where a round of reaping ends. */
  ghost function FirstUnreal(jobs: seq<Job>): (n: nat)
    ensures n <= |jobs| && AllReal(jobs[..n]) && (n < |jobs| ==> jobs[n].pid <= 0)
    ensures n == |jobs| <==> AllReal(jobs)
  {
    if jobs == [] || jobs[0].pid <= 0 then 0
    else
      var n := FirstUnreal(jobs[1..]);
      assert forall i :: 1 <= i < |jobs| ==> jobs[i] == jobs[1..][i - 1];
      assert forall i :: 1 <= i < n + 1 ==> jobs[i] == jobs[1..][..n][i - 1];
      n + 1
  }

  lemma PrefixOrdered(jobs: seq<Job>, k: nat)
    requires Ordered(jobs) && k <= |jobs|
    ensures Ordered(jobs[..k])
  {
    forall i, j | 0 <= i < j < k ensures Before(jobs[..k], i, j) {
      assert Before(jobs, i, j);
    }
  }

  lemma AppendOrdered(jobs: seq<Job>, job: Job)
    requires Ordered(jobs) && job.jid > 0
    requires forall i :: 0 <= i < |jobs| ==> jobs[i].jid < job.jid && (jobs[i].pid != job.pid || jobs[i].pid <= 0)
    ensures Ordered(jobs + [job])
  {
    forall i, j | 0 <= i < j < |jobs| + 1 ensures Before(jobs + [job], i, j) {
      if j < |jobs| {
        assert Before(jobs, i, j);
      }
    }
  }

  ghost predicate HasJob(jobs: seq<Job>, jid: int, pid: int) {
    exists k :: 0 <= k < |jobs| && jobs[k].jid == jid && jobs[k].pid == pid
  }

  lemma HasJobEither(a: seq<Job>, b: seq<Job>, jid: int, pid: int)
    ensures HasJob(a + b, jid, pid) <==> HasJob(a, jid, pid) || HasJob(b, jid, pid)
  {
    if k :| 0 <= k < |a| && a[k].jid == jid && a[k].pid == pid {
      assert (a + b)[k] == a[k];
    } else if k :| 0 <= k < |b| && b[k].jid == jid && b[k].pid == pid {
      assert (a + b)[|a| + k] == b[k];
    }
  }

  /** The survivors are exactly the jobs not reported terminated, with their ids. */
  lemma {:induction false} SurvivorsExact(jobs: seq<Job>, poll: int -> Status, jid: int, pid: int)
    ensures HasJob(Survivors(jobs, poll), jid, pid) <==> HasJob(jobs, jid, pid) && !Terminated(poll(pid))
    decreases |jobs|
  {
    if jobs != [] {
      var init, last := jobs[..|jobs| - 1], jobs[|jobs| - 1];
      var kept := Polled(last, poll(last.pid));
      SurvivorsExact(init, poll, jid, pid);
      assert jobs == init + [last];
      HasJobEither(init, [last], jid, pid);
      HasJobEither(Survivors(init, poll), kept, jid, pid);
      assert HasJob([last], jid, pid) <==> [last][0].jid == jid && [last][0].pid == pid;
      assert kept != [] ==> (HasJob(kept, jid, pid) <==> kept[0].jid == jid && kept[0].pid == pid);
    }
  }

  /** `now` is what a status that is not the end leaves of a job: a new state at most. */
  ghost predicate Relabelled(job: Job, s: Status, now: Job) {
    && !Terminated(s) && now.jid == job.jid && now.pid == job.pid && now.command == job.command
    && (s.Stopped? ==> now.state == "Stopped")
    && (s.Continued? ==> now.state == "Running")
    && (!s.Stopped? && !s.Continued? ==> now.state == job.state)
  }

  /** Each survivor is some job with the state that its status calls for. */
  lemma {:induction false} SurvivorStates(jobs: seq<Job>, poll: int -> Status, now: Job)
    ensures now in Survivors(jobs, poll) <==>
              exists k :: 0 <= k < |jobs| && Relabelled(jobs[k], poll(jobs[k].pid), now)
    decreases |jobs|
  {
    if jobs != [] {
      var init, last := jobs[..|jobs| - 1], jobs[|jobs| - 1];
      SurvivorStates(init, poll, now);
      assert now in Polled(last, poll(last.pid)) <==> Relabelled(last, poll(last.pid), now);
      assert forall k :: 0 <= k < |init| ==> init[k] == jobs[k];
    }
  }

  /** The message tells what happened to the job: the kind of change, its ids, the signal or exit code. */
  ghost predicate Tells(job: Job, s: Status, msg: Message) {
    && !s.NoChange? && !s.Failed?
    && (msg.Unknown? <==> s.Strange?) && msg.pid == job.pid && (!msg.Unknown? ==> msg.jid == job.jid)
    && (s.Stopped? <==> msg.Suspended?) && (s.Stopped? ==> msg.signal == s.signal)
    && (s.Signaled? <==> msg.Killed?) && (s.Signaled? ==> msg.signal == s.signal)
    && (s.Exited? <==> msg.Ended?) && (s.Exited? ==> msg.code == s.code)
  }

  /** The messages of a round are exactly those about the changes of its jobs. */
  lemma {:induction false} ReportsExact(jobs: seq<Job>, poll: int -> Status, msg: Message)
    ensures msg in Reports(jobs, poll) <==> exists k :: 0 <= k < |jobs| && Tells(jobs[k], poll(jobs[k].pid), msg)
    decreases |jobs|
  {
    if jobs != [] {
      var init, last := jobs[..|jobs| - 1], jobs[|jobs| - 1];
      ReportsExact(init, poll, msg);
      assert msg in Report(last, poll(last.pid)) <==> Tells(last, poll(last.pid), msg);
      assert forall k :: 0 <= k < |init| ==> init[k] == jobs[k];
    }
  }

  /** Reaping keeps the order of the list. */
  lemma {:induction false} SurvivorsOrdered(jobs: seq<Job>, poll: int -> Status)
    requires Ordered(jobs)
    ensures Ordered(Survivors(jobs, poll))
    ensures forall k :: 0 <= k < |Survivors(jobs, poll)| ==> Occurs(Survivors(jobs, poll)[k], jobs)
    decreases |jobs|
  {
    if jobs != [] {
      var init, last := jobs[..|jobs| - 1], jobs[|jobs| - 1];
      PrefixOrdered(jobs, |jobs| - 1);
      SurvivorsOrdered(init, poll);
      var before, now := Survivors(init, poll), Survivors(jobs, poll);
      forall k | 0 <= k < |now| ensures Occurs(now[k], jobs) {
        if k < |before| {
          assert Occurs(before[k], init);
        }
      }
      if Polled(last, poll(last.pid)) != [] {
        forall k | 0 <= k < |before|
          ensures before[k].jid < last.jid && (before[k].pid != last.pid || before[k].pid <= 0)
        {
          assert Occurs(before[k], init);
          var m :| 0 <= m < |init| && init[m].jid == before[k].jid && init[m].pid == before[k].pid;
          assert Before(jobs, m, |jobs| - 1);
        }
        AppendOrdered(before, Polled(last, poll(last.pid))[0]);
        assert now == before + [Polled(last, poll(last.pid))[0]];
      } else {
        assert now == before;
      }
    }
  }

  ghost predicate Occurs(job: Job, jobs: seq<Job>) {
    HasJob(jobs, job.jid, job.pid)
  }

  // ----- the shell between prompts -----

  /** The list `jobs` with the job at place `i` replaced by `kept`. */
  function Replaced(jobs: seq<Job>, i: nat, kept: seq<Job>): seq<Job>
    requires i < |jobs|
  {
    jobs[..i] + kept + jobs[i + 1..]
  }

  /** A job after the shell has waited for it in the foreground. */
  function Waited(job: Job, s: Status): seq<Job> {
    match s
    case Stopped(_) => [job.(state := STOPPED)]
    case Signaled(_) => []
    case Exited(_) => []
    case _ => [job]
  }

  function Announced(jid: int, pid: int, s: Status): seq<Message> {
    match s
    case Signaled(sig) => [Killed(jid, pid, sig)]
    case Stopped(sig) => [Suspended(jid, pid, sig)]
    case _ => []
  }

  /** The list operation complains when the job is not in the list. */
  function Complaint(found: bool, pid: int, s: Status): seq<Message> {
    if !found && (Terminated(s) || s.Stopped?) then [Unknown(pid)] else []
  }

  lemma ReplacedOrdered(jobs: seq<Job>, i: nat, kept: seq<Job>, bound: int)
    requires i < |jobs| && Ordered(jobs) && |kept| <= 1 &&
             (kept != [] ==> kept[0].jid == jobs[i].jid && kept[0].pid == jobs[i].pid)
    requires forall k :: 0 <= k < |jobs| ==> jobs[k].jid <= bound
    ensures Ordered(Replaced(jobs, i, kept))
    ensures forall k :: 0 <= k < |Replaced(jobs, i, kept)| ==> Replaced(jobs, i, kept)[k].jid <= bound
    ensures AllReal(jobs) ==> AllReal(Replaced(jobs, i, kept))
  {
    var r, gap := Replaced(jobs, i, kept), 1 - |kept|;
    forall a, b | 0 <= a < b < |r| ensures Before(r, a, b) {
      assert Before(jobs, if a < i then a else a + gap, if b < i then b else b + gap);
    }
  }

  lemma ReplacedForms(jobs: seq<Job>, i: nat, job: Job)
    requires i < |jobs|
    ensures Replaced(jobs, i, []) == Without(jobs, i)
    ensures Replaced(jobs, i, [job]) == jobs[i := job]
    ensures Replaced(jobs, i, [jobs[i]]) == jobs
  {
  }

  /** Polling the next job in place extends the survivors by it. */
  lemma PollNext(base: seq<Job>, jobs: seq<Job>, poll: int -> Status, k: nat)
    requires k < |jobs|
    ensures
      var done, done' := base + Survivors(jobs[..k], poll), base + Survivors(jobs[..k + 1], poll);
      var s := poll(jobs[k].pid);
      && Replaced(done + jobs[k..], |done|, Polled(jobs[k], s)) == done' + jobs[k + 1..]
      && |done'| == |done| + |Polled(jobs[k], s)|
  {
    assert jobs[..k + 1][..k] == jobs[..k];
    var done, kept := base + Survivors(jobs[..k], poll), Polled(jobs[k], poll(jobs[k].pid));
    assert base + Survivors(jobs[..k + 1], poll) == done + kept;
    assert (done + jobs[k..])[..|done|] == done;
    assert (done + jobs[k..])[|done| + 1..] == jobs[k + 1..];
  }

  /** The next job is found behind the survivors. */
  lemma NextIsThere(base: seq<Job>, jobs: seq<Job>, poll: int -> Status, k: nat)
    requires k < |jobs| && Ordered(base + jobs) && jobs[k].pid > 0
    ensures var done := base + Survivors(jobs[..k], poll); PidAt(done + jobs[k..], jobs[k].pid) == |done|
  {
    var done, all := base + Survivors(jobs[..k], poll), base + jobs;
    SplitOrdered(base, jobs, k);
    SurvivorsOrdered(jobs[..k], poll);
    forall i | 0 <= i < |done| ensures done[i].pid != jobs[k].pid {
      if i < |base| {
        assert Before(all, i, |base| + k);
      } else {
        assert Occurs(Survivors(jobs[..k], poll)[i - |base|], jobs[..k]);
        var m :| 0 <= m < k && jobs[..k][m].pid == done[i].pid;
        assert Before(all, |base| + m, |base| + k);
      }
    }
    PidAtUnique(done + jobs[k..], jobs[k].pid, |done|);
  }

  lemma SplitOrdered(base: seq<Job>, jobs: seq<Job>, k: nat)
    requires Ordered(base + jobs) && k <= |jobs|
    ensures Ordered(base) && Ordered(jobs[..k]) && Ordered(jobs[k..])
  {
    var all := base + jobs;
    PrefixOrdered(all, |base|);
    assert all[..|base|] == base;
    forall i | 0 <= i < |jobs| ensures jobs[i].jid > 0 { assert all[|base| + i] == jobs[i]; }
    forall i, j | 0 <= i < j < k ensures Before(jobs[..k], i, j) { assert Before(all, |base| + i, |base| + j); }
    forall i, j | 0 <= i < j < |jobs| - k ensures Before(jobs[k..], i, j) {
      assert Before(all, |base| + k + i, |base| + k + j);
    }
  }

  /** What is left of an ordered list, part by part, is ordered. */
  lemma JoinOrdered(x: seq<Job>, y: seq<Job>, a: seq<Job>, b: seq<Job>)
    requires Ordered(a + b) && Ordered(x) && Ordered(y) && AllOccur(x, a) && AllOccur(y, b)
    ensures Ordered(x + y) && AllOccur(x + y, a + b)
  {
    forall i, j | 0 <= i < j < |x + y| ensures Before(x + y, i, j) {
      if j < |x| {
        assert Before(x, i, j);
      } else if |x| <= i {
        assert Before(y, i - |x|, j - |x|);
      } else {
        assert Occurs(x[i], a) && Occurs(y[j - |x|], b);
        var m :| 0 <= m < |a| && a[m].jid == x[i].jid && a[m].pid == x[i].pid;
        var n :| 0 <= n < |b| && b[n].jid == y[j - |x|].jid && b[n].pid == y[j - |x|].pid;
        assert Before(a + b, m, |a| + n);
      }
    }
    forall i | 0 <= i < |x + y| ensures Occurs((x + y)[i], a + b) {
      if i < |x| {
        assert Occurs(x[i], a);
        var m :| 0 <= m < |a| && a[m].jid == x[i].jid && a[m].pid == x[i].pid;
        assert (a + b)[m] == a[m];
      } else {
        assert Occurs(y[i - |x|], b);
        var n :| 0 <= n < |b| && b[n].jid == y[i - |x|].jid && b[n].pid == y[i - |x|].pid;
        assert (a + b)[|a| + n] == b[n];
      }
    }
  }

  ghost predicate AllOccur(x: seq<Job>, a: seq<Job>) {
    forall i :: 0 <= i < |x| ==> Occurs(x[i], a)
  }

  lemma AllOccurSelf(a: seq<Job>)
    ensures AllOccur(a, a)
  {
  }

  /** The list after a round that started behind `base` and looked at the first k of `jobs`. */
  ghost function Round(base: seq<Job>, jobs: seq<Job>, poll: int -> Status, k: nat): seq<Job>
    requires k <= |jobs|
  {
    base + Survivors(jobs[..k], poll) + jobs[k..]
  }

  lemma RoundOrdered(base: seq<Job>, jobs: seq<Job>, poll: int -> Status, k: nat)
    requires Ordered(base + jobs) && k <= |jobs|
    ensures Ordered(Round(base, jobs, poll, k)) && AllOccur(Round(base, jobs, poll, k), base + jobs)
  {
    SplitOrdered(base, jobs, k);
    SurvivorsOrdered(jobs[..k], poll);
    AllOccurSelf(base);
    AllOccurSelf(jobs[k..]);
    var head := base + jobs[..k];
    assert head + jobs[k..] == base + jobs;
    PrefixOrdered(base + jobs, |base| + k);
    assert (base + jobs)[..|base| + k] == head;
    JoinOrdered(base, Survivors(jobs[..k], poll), base, jobs[..k]);
    JoinOrdered(base + Survivors(jobs[..k], poll), jobs[k..], head, jobs[k..]);
  }

  class Shell {
    const aloj: JobList
    var jobId: int
    ghost var output: seq<Message>     // what has been written
    ghost var polls: seq<int>          // the process ids waitpid was asked about without blocking

    /** Job ids grow along the list up to `jobId`. */
    ghost predicate Sane()
      reads this, aloj, aloj.repr
    {
      && aloj.Valid() && Ordered(aloj.jobs) && jobId >= 0
      && (forall i :: 0 <= i < |aloj.jobs| ==> aloj.jobs[i].jid <= jobId)
    }

    /** Between prompts: every job has a process and the iterator is at the head. */
    ghost predicate Ready()
      reads this, aloj, aloj.repr
    {
      Sane() && AllReal(aloj.jobs) && aloj.at == 0 && aloj.current == aloj.head
    }

    /** main (sh.c:31-35). */
    constructor ()
      ensures Ready() && aloj.jobs == [] && fresh(aloj) && fresh(aloj.repr) && jobId == 0 && output == [] && polls == []
    {
      aloj := new JobList();
      jobId, output, polls := 0, [], [];
    }

    /**
     The parent's part of fork_process (sh.c:55, 113): a new number, and the job at the tail.  A
     failed fork, with pid -1, adds a job as well, and the shell is then not ready any more.
     */
    method Launch(pid: int, command: string)
      requires Sane() && (pid > 0 ==> PidAt(aloj.jobs, pid) == |aloj.jobs|)
      modifies this, aloj, aloj.repr
      ensures Sane() && jobId == old(jobId) + 1 && fresh(aloj.repr - old(aloj.repr))
      ensures aloj.jobs == old(aloj.jobs) + [Job(jobId, pid, RUNNING, command)]
      ensures old(Ready()) ==> (Ready() <==> pid > 0)
    {
      jobId := jobId + 1;
      AppendOrdered(aloj.jobs, Job(jobId, pid, RUNNING, command));
      var r := aloj.AddJob(jobId, pid, Chars(RUNNING), Chars(command));
      assert aloj.jobs[|aloj.jobs| - 1].pid == pid;
    }

    /** reap_help (reap.c:12-92). */
    method ReapHelp(pid: int, poll: int -> Status)
      requires aloj.Valid()
      requires var i := PidAt(aloj.jobs, pid); i < |aloj.jobs| ==> aloj.jobs[i].jid > 0
      modifies this`output, this`polls, aloj, aloj.repr
      ensures aloj.Valid() && aloj.repr == old(aloj.repr)
      ensures
        var i, jobs := PidAt(old(aloj.jobs), pid), old(aloj.jobs);
        if i == |jobs| then
          aloj.jobs == jobs && aloj.at == old(aloj.at) && polls == old(polls) && output == old(output) + [Unknown(pid)]
        else
          && aloj.jobs == Replaced(jobs, i, Polled(jobs[i], poll(pid)))
          && aloj.at == (if Terminated(poll(pid)) && i < old(aloj.at) then old(aloj.at) - 1 else old(aloj.at))
          && polls == old(polls) + [pid] && output == old(output) + Report(jobs[i], poll(pid))
    {
      var jid := aloj.GetJid(pid);
      if jid < 0 {
        output := output + [Unknown(pid)];
        return;
      }
      polls := polls + [pid];
      Apply(pid, jid, poll(pid));
    }

    /** The status of one job takes effect (reap.c:24-85). */
    method Apply(pid: int, jid: int, status: Status)
      requires aloj.Valid() && PidAt(aloj.jobs, pid) < |aloj.jobs| && jid == aloj.jobs[PidAt(aloj.jobs, pid)].jid
      modifies this`output, aloj, aloj.repr
      ensures aloj.Valid() && aloj.repr == old(aloj.repr)
      ensures
        var i, jobs := PidAt(old(aloj.jobs), pid), old(aloj.jobs);
        && aloj.jobs == Replaced(jobs, i, Polled(jobs[i], status))
        && aloj.at == (if Terminated(status) && i < old(aloj.at) then old(aloj.at) - 1 else old(aloj.at))
        && output == old(output) + Report(jobs[i], status)
    {
      Say(jid, pid, status, aloj.jobs[PidAt(aloj.jobs, pid)]);
      Dispose(pid, status);
    }

    /** What is written about it. */
    method Say(jid: int, pid: int, status: Status, ghost job: Job)
      requires job.jid == jid && job.pid == pid
      modifies this`output
      ensures output == old(output) + Report(job, status)
    {
      match status {
        case Stopped(sig) => output := output + [Suspended(jid, pid, sig)];
        case Signaled(sig) => output := output + [Killed(jid, pid, sig)];
        case Exited(code) => output := output + [Ended(jid, pid, code)];
        case Continued => output := output + [Resumed(jid, pid)];
        case Strange => output := output + [Unknown(pid)];
        case _ =>
      }
    }

    /** What becomes of its entry. */
    method Dispose(pid: int, status: Status)
      requires aloj.Valid() && PidAt(aloj.jobs, pid) < |aloj.jobs|
      modifies aloj, aloj.repr
      ensures aloj.Valid() && aloj.repr == old(aloj.repr)
      ensures
        var i, jobs := PidAt(old(aloj.jobs), pid), old(aloj.jobs);
        && aloj.jobs == Replaced(jobs, i, Polled(jobs[i], status))
        && aloj.at == (if Terminated(status) && i < old(aloj.at) then old(aloj.at) - 1 else old(aloj.at))
    {
      ghost var i, jobs := PidAt(aloj.jobs, pid), aloj.jobs;
      var r;
      match status {
        case Stopped(_) =>
          ReplacedForms(jobs, i, jobs[i].(state := STOPPED));
          r := aloj.UpdatePid(pid, STOPPED);
        case Signaled(_) =>
          ReplacedForms(jobs, i, jobs[i]);
          r := aloj.RemovePid(pid);
        case Exited(_) =>
          ReplacedForms(jobs, i, jobs[i]);
          r := aloj.RemovePid(pid);
        case Continued =>
          ReplacedForms(jobs, i, jobs[i].(state := RUNNING));
          r := aloj.UpdatePid(pid, RUNNING);
        case _ =>
          ReplacedForms(jobs, i, jobs[i]);
      }
    }

    /**
     reap (reap.c:94-104): every job once, in order, although entries vanish under the iterator.
     In general the round starts at the iterator and ends at the first job without a process,
     where it leaves the iterator behind that job.
     */
    method Reap(poll: int -> Status)
      requires Sane()
      modifies this`output, this`polls, aloj, aloj.repr
      ensures Sane() && aloj.repr == old(aloj.repr)
      ensures
        var base, jobs := old(aloj.jobs)[..old(aloj.at)], old(aloj.jobs)[old(aloj.at)..];
        var n := FirstUnreal(jobs);
        && aloj.jobs == Round(base, jobs, poll, n)
        && aloj.at == (if n == |jobs| then 0 else |base + Survivors(jobs[..n], poll)| + 1)
        && polls == old(polls) + Pids(jobs[..n]) && output == old(output) + Reports(jobs[..n], poll)
      ensures old(Ready()) ==> Ready() && aloj.jobs == Survivors(old(aloj.jobs), poll)
      ensures old(Ready()) ==>
                polls == old(polls) + Pids(old(aloj.jobs)) && output == old(output) + Reports(old(aloj.jobs), poll)
    {
      ghost var base, jobs := aloj.jobs[..aloj.at], aloj.jobs[aloj.at..];
      assert base + jobs == aloj.jobs;
      var pid := aloj.GetNextPid();
      MidwayStarts(base, jobs, poll, aloj.at, pid);
      ReapAll(pid, poll, base, jobs);
      RoundOrdered(base, jobs, poll, FirstUnreal(jobs));
      RoundBounded(base, jobs, poll, FirstUnreal(jobs), jobId);
      if old(Ready()) {
        RoundReal(jobs, poll);
      }
    }

    /** wait_child (reap.c:106-146): the outcome of waiting for one job in the foreground. */
    method WaitChild(pid: int, status: Status)
      requires Sane()
      modifies this`output, aloj, aloj.repr
      ensures Sane() && aloj.repr == old(aloj.repr) && (old(Ready()) ==> Ready())
      ensures
        var i, jobs := PidAt(old(aloj.jobs), pid), old(aloj.jobs);
        && aloj.jobs == (if i < |jobs| then Replaced(jobs, i, Waited(jobs[i], status)) else jobs)
        && output == old(output) + Announced(if i < |jobs| then jobs[i].jid else -1, pid, status)
                     + Complaint(i < |jobs|, pid, status)
    {
      ghost var i, jobs := PidAt(aloj.jobs, pid), aloj.jobs;
      if i < |jobs| {
        ReplacedOrdered(jobs, i, Waited(jobs[i], status), jobId);
      }
      Settle(pid, status);
    }

    method Settle(pid: int, status: Status)
      requires aloj.Valid()
      modifies this`output, aloj, aloj.repr
      ensures aloj.Valid() && aloj.repr == old(aloj.repr) && (old(aloj.at) == 0 ==> aloj.at == 0)
      ensures
        var i, jobs := PidAt(old(aloj.jobs), pid), old(aloj.jobs);
        && aloj.jobs == (if i < |jobs| then Replaced(jobs, i, Waited(jobs[i], status)) else jobs)
        && output == old(output) + Announced(if i < |jobs| then jobs[i].jid else -1, pid, status)
                     + Complaint(i < |jobs|, pid, status)
    {
      ghost var i, jobs := PidAt(aloj.jobs, pid), aloj.jobs;
      var jid := aloj.GetJid(pid);
      output := output + Announced(jid, pid, status);
      if Terminated(status) {
        Drop(pid);
      } else if status.Stopped? {
        Suspend(pid);
      } else if i < |jobs| {
        ReplacedForms(jobs, i, jobs[i]);
      }
    }

    /** Mark a job as stopped, or complain (reap.c:139-144). */
    method Suspend(pid: int)
      requires aloj.Valid()
      modifies this`output, aloj, aloj.repr
      ensures aloj.Valid() && aloj.repr == old(aloj.repr) && aloj.at == old(aloj.at)
      ensures
        var i, jobs := PidAt(old(aloj.jobs), pid), old(aloj.jobs);
        && aloj.jobs == (if i < |jobs| then Replaced(jobs, i, [jobs[i].(state := STOPPED)]) else jobs)
        && output == old(output) + (if i < |jobs| then [] else [Unknown(pid)])
    {
      ghost var i, jobs := PidAt(aloj.jobs, pid), aloj.jobs;
      if i < |jobs| {
        ReplacedForms(jobs, i, jobs[i].(state := STOPPED));
      }
      var r := aloj.UpdatePid(pid, STOPPED);
      if r < 0 { output := output + [Unknown(pid)]; }
    }

    /** Remove a job, or complain (reap.c:113-118, 126-131). */
    method Drop(pid: int)
      requires aloj.Valid()
      modifies this`output, aloj, aloj.repr
      ensures aloj.Valid() && aloj.repr == old(aloj.repr)
      ensures old(aloj.at) == 0 ==> aloj.at == 0
      ensures
        var i, jobs := PidAt(old(aloj.jobs), pid), old(aloj.jobs);
        && aloj.jobs == (if i < |jobs| then Replaced(jobs, i, []) else jobs)
        && output == old(output) + (if i < |jobs| then [] else [Unknown(pid)])
    {
      ghost var i, jobs := PidAt(aloj.jobs, pid), aloj.jobs;
      if i < |jobs| {
        ReplacedForms(jobs, i, jobs[i]);
      }
      var r := aloj.RemovePid(pid);
      if r < 0 { output := output + [Unknown(pid)]; }
    }

    method ReapAll(first: int, poll: int -> Status, ghost base: seq<Job>, ghost jobs: seq<Job>)
      requires aloj.Valid() && Ordered(base + jobs) && Midway(base, jobs, poll, 0, aloj.jobs, aloj.at, first)
      modifies this`output, this`polls, aloj, aloj.repr
      ensures aloj.Valid() && aloj.repr == old(aloj.repr)
      ensures
        var n := FirstUnreal(jobs);
        && aloj.jobs == Round(base, jobs, poll, n)
        && aloj.at == (if n == |jobs| then 0 else |base + Survivors(jobs[..n], poll)| + 1)
        && polls == old(polls) + Pids(jobs[..n]) && output == old(output) + Reports(jobs[..n], poll)
    {
      var pid := first;
      ghost var k := 0;
      while pid > 0
        invariant aloj.Valid() && aloj.repr == old(aloj.repr)
        invariant k <= |jobs| && AllReal(jobs[..k]) && Midway(base, jobs, poll, k, aloj.jobs, aloj.at, pid)
        invariant polls == old(polls) + Pids(jobs[..k]) && output == old(output) + Reports(jobs[..k], poll)
        decreases |jobs| - k
      {
        ghost var polled, written := polls, output;
        RealNext(jobs, k);
        pid := ReapOne(pid, poll, base, jobs, k);
        LogsGrow(jobs, poll, k, old(polls), polled, polls, old(output), written, output);
        k := k + 1;
      }
      FirstUnrealIs(jobs, k);
    }

    /** One round of the loop (reap.c:100-102), at the k-th of the jobs from the iterator on. */
    method ReapOne(pid: int, poll: int -> Status, ghost base: seq<Job>, ghost jobs: seq<Job>, ghost k: nat)
      returns (pid': int)
      requires aloj.Valid() && Ordered(base + jobs) && k < |jobs| && pid > 0
      requires Midway(base, jobs, poll, k, aloj.jobs, aloj.at, pid)
      modifies this`output, this`polls, aloj, aloj.repr
      ensures aloj.Valid() && aloj.repr == old(aloj.repr)
      ensures Midway(base, jobs, poll, k + 1, aloj.jobs, aloj.at, pid')
      ensures polls == old(polls) + [jobs[k].pid] && output == old(output) + Report(jobs[k], poll(jobs[k].pid))
    {
      MidwayNext(base, jobs, poll, k, aloj.jobs, aloj.at, pid);
      ReapHelp(pid, poll);
      MidwayFetch(base, jobs, poll, k + 1, aloj.jobs, aloj.at);
      pid' := aloj.GetNextPid();
    }
  }

  lemma {:induction false} FirstUnrealIs(jobs: seq<Job>, k: nat)
    requires k <= |jobs| && AllReal(jobs[..k]) && (k < |jobs| ==> jobs[k].pid <= 0)
    ensures FirstUnreal(jobs) == k
  {
    if k > 0 {
      assert jobs[0] == jobs[..k][0];
      assert jobs[1..][..k - 1] == jobs[..k][1..];
      FirstUnrealIs(jobs[1..], k - 1);
    }
  }

  lemma RealNext(jobs: seq<Job>, k: nat)
    requires k < |jobs| && AllReal(jobs[..k]) && jobs[k].pid > 0
    ensures AllReal(jobs[..k + 1])
  {
    assert forall i :: 0 <= i < k ==> jobs[..k + 1][i] == jobs[..k][i];
  }

  /** The k-th job has just been fetched, the ones before it have been dealt with. */
  ghost predicate Midway(base: seq<Job>, jobs: seq<Job>, poll: int -> Status, k: nat, list: seq<Job>, at: nat, pid: int)
    requires k <= |jobs|
  {
    && list == Round(base, jobs, poll, k)
    && if k < |jobs| then pid == jobs[k].pid && at == |base + Survivors(jobs[..k], poll)| + 1
       else pid == -1 && at == 0
  }

  lemma MidwayStarts(base: seq<Job>, jobs: seq<Job>, poll: int -> Status, at: nat, pid: int)
    requires if jobs == [] then pid == -1 && at == 0 else pid == jobs[0].pid && at == |base| + 1
    ensures Midway(base, jobs, poll, 0, base + jobs, at, pid)
  {
    assert base + Survivors(jobs[..0], poll) == base;
  }

  /** Where the list operations find the job that was fetched, and what they leave. */
  lemma MidwayNext(base: seq<Job>, jobs: seq<Job>, poll: int -> Status, k: nat, list: seq<Job>, at: nat, pid: int)
    requires Ordered(base + jobs) && k < |jobs| && pid > 0 && Midway(base, jobs, poll, k, list, at, pid)
    ensures
      var i := PidAt(list, pid);
      && i < |list| && i + 1 == at && list[i] == jobs[k] && list[i].jid > 0
      && Replaced(list, i, Polled(list[i], poll(pid))) == Round(base, jobs, poll, k + 1)
      && (at - if Terminated(poll(pid)) then 1 else 0) == |base + Survivors(jobs[..k + 1], poll)|
  {
    NextIsThere(base, jobs, poll, k);
    PollNext(base, jobs, poll, k);
    assert (base + jobs)[|base| + k] == jobs[k];
  }

  lemma MidwayFetch(base: seq<Job>, jobs: seq<Job>, poll: int -> Status, k: nat, list: seq<Job>, at: nat)
    requires k <= |jobs| && list == Round(base, jobs, poll, k) && at == |base + Survivors(jobs[..k], poll)|
    ensures at <= |list| && (at == |list| <==> k == |jobs|)
    ensures at < |list| ==> list[at] == jobs[k]
  {
  }

  lemma RoundBounded(base: seq<Job>, jobs: seq<Job>, poll: int -> Status, k: nat, bound: int)
    requires Ordered(base + jobs) && k <= |jobs| && forall i :: 0 <= i < |base + jobs| ==> (base + jobs)[i].jid <= bound
    ensures forall i :: 0 <= i < |Round(base, jobs, poll, k)| ==> Round(base, jobs, poll, k)[i].jid <= bound
  {
    var now := Round(base, jobs, poll, k);
    RoundOrdered(base, jobs, poll, k);
    forall i | 0 <= i < |now| ensures now[i].jid <= bound {
      assert Occurs(now[i], base + jobs);
    }
  }

  /** With the iterator at the head and a process behind every job, a round is the whole list. */
  lemma {:induction false} RoundReal(jobs: seq<Job>, poll: int -> Status)
    requires Ordered(jobs) && AllReal(jobs)
    ensures Round([], jobs, poll, |jobs|) == Survivors(jobs, poll) && AllReal(Survivors(jobs, poll))
    ensures jobs[..|jobs|] == jobs
  {
    assert jobs[..|jobs|] == jobs;
    SurvivorsOrdered(jobs, poll);
    var now := Survivors(jobs, poll);
    forall i | 0 <= i < |now| ensures now[i].pid > 0 {
      assert Occurs(now[i], jobs);
    }
  }

  /** The logs after one more job. */
  lemma LogsGrow(jobs: seq<Job>, poll: int -> Status, k: nat,
                 p0: seq<int>, p1: seq<int>, p2: seq<int>, o0: seq<Message>, o1: seq<Message>, o2: seq<Message>)
    requires k < |jobs| && p1 == p0 + Pids(jobs[..k]) && p2 == p1 + [jobs[k].pid]
    requires o1 == o0 + Reports(jobs[..k], poll) && o2 == o1 + Report(jobs[k], poll(jobs[k].pid))
    ensures p2 == p0 + Pids(jobs[..k + 1]) && o2 == o0 + Reports(jobs[..k + 1], poll)
  {
    assert jobs[..k + 1][..k] == jobs[..k];
    assert Pids(jobs[..k + 1]) == Pids(jobs[..k]) + [jobs[k].pid];
  }
}
