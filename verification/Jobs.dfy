/**
 The job list of shell_2/jobs.c: a singly linked list with a built-in iterator, `current`,
 that survives insertion and removal.
 */
module Jobs {

  datatype Job = Job(jid: int, pid: int, state: string, command: string)

  /** A `char *` argument. */
  datatype Text = Null | Chars(chars: string)

  class JobElement {
    const jid: int
    const pid: int
    const command: string
    var state: string
    var next: JobElement?

    constructor (jid: int, pid: int, state: string, command: string)
      ensures this.jid == jid && this.pid == pid && this.state == state && this.command == command && next == null
    {
      this.jid, this.pid, this.state, this.command, next := jid, pid, state, command, null;
    }

    ghost function Value(): Job
      reads this
    {
      Job(jid, pid, state, command)
    }
  }

  /** The node at place `i`, null behind the last. */
  ghost function NodeAt(nodes: seq<JobElement>, i: nat): JobElement? {
    if i < |nodes| then nodes[i] else null
  }

  ghost predicate Linked(nodes: seq<JobElement>, i: nat)
    requires i < |nodes|
    reads nodes[i]
  {
    nodes[i].next == NodeAt(nodes, i + 1)
  }

  ghost predicate Distinct(nodes: seq<JobElement>) {
    forall i, j :: 0 <= i < j < |nodes| ==> nodes[i] != nodes[j]
  }

  ghost function Without<T>(s: seq<T>, i: nat): (r: seq<T>)
    requires i < |s|
    ensures |r| == |s| - 1
    ensures forall k :: 0 <= k < |r| ==> r[k] == s[if k < i then k else k + 1]
  {
    s[..i] + s[i + 1..]
  }

  lemma NodesWithout(nodes: seq<JobElement>, i: nat)
    requires i < |nodes| && Distinct(nodes)
    ensures Distinct(Without(nodes, i))
    ensures forall k: nat :: NodeAt(Without(nodes, i), k) == NodeAt(nodes, if k < i then k else k + 1)
  {
  }

  /** The place of the first job with process id `pid`, or the length. */
  ghost function PidAt(jobs: seq<Job>, pid: int): (i: nat)
    ensures i <= |jobs|
    ensures forall k :: 0 <= k < i ==> jobs[k].pid != pid
    ensures i < |jobs| ==> jobs[i].pid == pid
  {
    if jobs == [] || jobs[0].pid == pid then 0
    else
      var r := PidAt(jobs[1..], pid);
      assert forall k :: 1 <= k < r + 1 ==> jobs[k] == jobs[1..][k - 1];
      r + 1
  }

  lemma PidAtUnique(jobs: seq<Job>, pid: int, i: nat)
    requires i <= |jobs| && (forall k :: 0 <= k < i ==> jobs[k].pid != pid) && (i < |jobs| ==> jobs[i].pid == pid)
    ensures PidAt(jobs, pid) == i
  {
  }

  class JobList {
    var head: JobElement?
    var current: JobElement?
    ghost var nodes: seq<JobElement>
    ghost var jobs: seq<Job>       // what the list holds
    ghost var at: nat              // the place of `current`; |jobs| when it is null
    ghost var repr: set<JobElement>

    ghost predicate Valid()
      reads this, repr
    {
      && at <= |nodes| == |jobs| && Distinct(nodes) && (forall i :: 0 <= i < |nodes| ==> nodes[i] in repr)
      && head == NodeAt(nodes, 0) && current == NodeAt(nodes, at)
      && (forall i {:trigger Linked(nodes, i)} :: 0 <= i < |nodes| ==> Linked(nodes, i))
      && (forall i :: 0 <= i < |nodes| ==> jobs[i] == nodes[i].Value())
    }

    /** init_job_list (jobs.c:24-29). */
    constructor ()
      ensures Valid() && jobs == [] && at == 0 && repr == {}
    {
      head, current, nodes, jobs, at, repr := null, null, [], [], 0, {};
    }

    /** add_job (jobs.c:72-107): at the tail; the iterator is set only when the list was empty. */
    method AddJob(jid: int, pid: int, state: Text, command: Text) returns (r: int)
      requires Valid()
      modifies this, repr
      ensures Valid() && fresh(repr - old(repr))
      ensures if state.Null? || command.Null? then r == -1 && jobs == old(jobs) && at == old(at)
              else r == 0 && jobs == old(jobs) + [Job(jid, pid, state.chars, command.chars)]
      ensures r == 0 ==> at == if old(jobs) != [] && old(at) == |old(jobs)| then |jobs| else old(at)
    {
      if state.Null? || command.Null? {
        return -1;
      }
      Append(jid, pid, state.chars, command.chars);
      return 0;
    }

    /** A new element at the tail (jobs.c:77-104). */
    method Append(jid: int, pid: int, state: string, command: string)
      requires Valid()
      modifies this, repr
      ensures Valid() && fresh(repr - old(repr))
      ensures jobs == old(jobs) + [Job(jid, pid, state, command)]
      ensures at == if old(jobs) != [] && old(at) == |old(jobs)| then |jobs| else old(at)
    {
      var added := new JobElement(jid, pid, state, command);
      if head == null {
        head, current := added, added;
      } else {
        var cur := head;
        ghost var i := 0;
        while cur.next != null
          invariant i < |nodes| && cur == nodes[i]
          decreases |nodes| - i
        {
          assert Linked(nodes, i);
          cur := cur.next;
          i := i + 1;
        }
        assert Linked(nodes, i);
        assert i == |nodes| - 1;
        cur.next := added;
        at := if at == |nodes| then |nodes| + 1 else at;
      }
      ghost var was := nodes;
      jobs := jobs + [added.Value()];
      nodes := nodes + [added];
      repr := repr + {added};
      forall k | 0 <= k < |nodes| ensures Linked(nodes, k) {
        if k < |was| {
          assert old(Linked(was, k));
        }
      }
    }

    /** remove_job_pid (jobs.c:152-191): the first with this pid; the iterator steps over it. */
    method RemovePid(pid: int) returns (r: int)
      requires Valid()
      modifies this, repr
      ensures Valid() && repr == old(repr)
      ensures
        var i := PidAt(old(jobs), pid);
        if i < |old(jobs)| then
          r == 0 && jobs == Without(old(jobs), i) && at == if i < old(at) then old(at) - 1 else old(at)
        else
          r == -1 && jobs == old(jobs) && at == old(at)
    {
      var prev: JobElement? := null;
      var cur := head;
      ghost var i := 0;
      while cur != null
        invariant i <= |nodes| && cur == NodeAt(nodes, i) && prev == if i == 0 then null else nodes[i - 1]
        invariant forall k :: 0 <= k < i ==> jobs[k].pid != pid
        decreases |nodes| - i
      {
        assert Linked(nodes, i);
        if cur.pid == pid {
          PidAtUnique(jobs, pid, i);
          Unlink(prev, cur, i);
          return 0;
        }
        prev := cur;
        cur := cur.next;
        i := i + 1;
      }
      PidAtUnique(jobs, pid, i);
      return -1;
    }

    /** The three links that may point to `cur` (jobs.c:161-169). */
    method Bypass(prev: JobElement?, cur: JobElement)
      requires prev != cur
      modifies this`head, this`current, if prev != null then {prev} else {}
      ensures prev != null ==> prev.next == old(cur.next) && prev.state == old(prev.state)
      ensures head == if old(head) == cur then old(cur.next) else old(head)
      ensures current == if old(current) == cur then old(cur.next) else old(current)
    {
      if prev != null { prev.next := cur.next; }
      if head == cur { head := cur.next; }
      if current == cur { current := cur.next; }
    }

    /** The node at place `i` leaves the list. */
    method Unlink(prev: JobElement?, cur: JobElement, ghost i: nat)
      requires Valid() && i < |nodes| && cur == nodes[i] && prev == if i == 0 then null else nodes[i - 1]
      modifies this, repr
      ensures Valid() && repr == old(repr) && nodes == Without(old(nodes), i) && jobs == Without(old(jobs), i)
      ensures at == if i < old(at) then old(at) - 1 else old(at)
    {
      assert Linked(nodes, i);
      Bypass(prev, cur);
      forall k | 0 <= k < |nodes| && k != i - 1 ensures Linked(nodes, k) {
        assert old(Linked(nodes, k));
      }
      Forget(i);
    }

    /** The node at place `i`, which no link leads to any more, is not counted in. */
    ghost method Forget(i: nat)
      requires i < |nodes| == |jobs| && at <= |nodes| && Distinct(nodes) &&
               (forall k :: 0 <= k < |nodes| ==> nodes[k] in repr)
      requires forall k {:trigger Linked(nodes, k)} :: 0 <= k < |nodes| && k != i - 1 ==> Linked(nodes, k)
      requires i > 0 ==> nodes[i - 1].next == NodeAt(nodes, i + 1)
      requires forall k :: 0 <= k < |nodes| ==> jobs[k] == nodes[k].Value()
      requires head == NodeAt(nodes, if i == 0 then 1 else 0) && current == NodeAt(nodes, if at == i then i + 1 else at)
      modifies this`nodes, this`jobs, this`at
      ensures Valid() && nodes == Without(old(nodes), i) && jobs == Without(old(jobs), i)
      ensures at == if i < old(at) then old(at) - 1 else old(at)
    {
      ghost var was := nodes;
      NodesWithout(nodes, i);
      nodes, jobs := Without(nodes, i), Without(jobs, i);
      at := if i < at then at - 1 else at;
      forall k | 0 <= k < |nodes| ensures Linked(nodes, k) {
        assert k != i - 1 ==> Linked(was, if k < i then k else k + 1);
      }
    }

    /** update_job_pid (jobs.c:219-241). */
    method UpdatePid(pid: int, state: string) returns (r: int)
      requires Valid()
      modifies this, repr
      ensures Valid() && repr == old(repr) && nodes == old(nodes) && at == old(at)
      ensures
        var i := PidAt(old(jobs), pid);
        if i < |old(jobs)| then r == 0 && jobs == old(jobs)[i := old(jobs)[i].(state := state)]
        else r == -1 && jobs == old(jobs)
    {
      var cur := head;
      ghost var i := 0;
      while cur != null
        invariant i <= |nodes| && cur == NodeAt(nodes, i)
        invariant forall k :: 0 <= k < i ==> jobs[k].pid != pid
        decreases |nodes| - i
      {
        assert Linked(nodes, i);
        if cur.pid == pid {
          PidAtUnique(jobs, pid, i);
          cur.state := state;
          jobs := jobs[i := jobs[i].(state := state)];
          return 0;
        }
        cur := cur.next;
        i := i + 1;
      }
      PidAtUnique(jobs, pid, i);
      return -1;
    }

    /** get_job_jid (jobs.c:262-277). */
    method GetJid(pid: int) returns (jid: int)
      requires Valid()
      ensures var i := PidAt(jobs, pid); jid == if i < |jobs| then jobs[i].jid else -1
    {
      var cur := head;
      ghost var i := 0;
      while cur != null
        invariant i <= |nodes| && cur == NodeAt(nodes, i)
        invariant forall k :: 0 <= k < i ==> jobs[k].pid != pid
        decreases |nodes| - i
      {
        assert Linked(nodes, i);
        if cur.pid == pid {
          PidAtUnique(jobs, pid, i);
          return cur.jid;
        }
        cur := cur.next;
        i := i + 1;
      }
      PidAtUnique(jobs, pid, i);
      return -1;
    }

    /** get_job_pid (jobs.c:244-259). */
    method GetPid(jid: int) returns (pid: int)
      requires Valid()
      ensures (forall k :: 0 <= k < |jobs| ==> jobs[k].jid != jid) ==> pid == -1
      ensures forall i :: 0 <= i < |jobs| && jobs[i].jid == jid && (forall k :: 0 <= k < i ==> jobs[k].jid != jid) ==>
              pid == jobs[i].pid
    {
      var cur := head;
      ghost var i := 0;
      while cur != null
        invariant i <= |nodes| && cur == NodeAt(nodes, i)
        invariant forall k :: 0 <= k < i ==> jobs[k].jid != jid
        decreases |nodes| - i
      {
        assert Linked(nodes, i);
        if cur.jid == jid {
          return cur.pid;
        }
        cur := cur.next;
        i := i + 1;
      }
      return -1;
    }

    /** get_next_pid (jobs.c:285-298): circular, with -1 once per round. */
    method GetNextPid() returns (pid: int)
      requires Valid()
      modifies this
      ensures Valid() && repr == old(repr) && nodes == old(nodes) && jobs == old(jobs)
      ensures if old(at) == |jobs| then pid == -1 && at == 0
              else pid == jobs[old(at)].pid && at == old(at) + 1
    {
      if current == null {
        current := head;
        at := 0;
        return -1;
      }
      assert Linked(nodes, at);
      pid := current.pid;
      current := current.next;
      at := at + 1;
    }
  }
}
