/** The part of Linux the supervisor talks to: per-process CPU affinity and
    scheduling parameters, kept as a map from pid to state, and the signals
    sent with kill(). Values of the constants are those of Linux's
    <sched.h> and <signal.h>. */
module Os {

  import opened Wrappers

  const SCHED_OTHER: int := 0
  const SCHED_FIFO: int := 1
  const SCHED_RR: int := 2
  const SCHED_BATCH: int := 3
  const SCHED_IDLE: int := 5

  /** sched_get_priority_min / max for SCHED_FIFO and SCHED_RR. */
  const RT_PRIORITY_MIN: int := 1
  const RT_PRIORITY_MAX: int := 99

  const SIGINT: int := 2

  /** A process's affinity mask and scheduling parameters. */
  datatype Task = Task(mask: set<int>, policy: int, priority: int)

  /** The parameters sched_setscheduler accepts: a real-time policy with a
      priority in [1, 99], or another known policy with priority 0. The
      supervisor does not check this itself; the kernel does. */
  predicate KernelAcceptsScheduling(policy: int, priority: int)
  {
    || ((policy == SCHED_FIFO || policy == SCHED_RR) && RT_PRIORITY_MIN <= priority <= RT_PRIORITY_MAX)
    || ((policy == SCHED_OTHER || policy == SCHED_BATCH || policy == SCHED_IDLE) && priority == 0)
  }

  class Kernel {
    /** sysconf(_SC_NPROCESSORS_ONLN). */
    const onlineCpus: int
    var tasks: map<int, Task>
    /** (pid, signal) for every kill() call, in call order. */
    var signals: seq<(int, int)>
    /** (pid, program) for every child forked and exec'd, in fork order. */
    var launched: seq<(int, string)>

    constructor (onlineCpus: int, tasks: map<int, Task>)
      ensures this.onlineCpus == onlineCpus && this.tasks == tasks && signals == [] && launched == []
    {
      this.onlineCpus := onlineCpus;
      this.tasks := tasks;
      signals := [];
      launched := [];
    }

    /** fork() followed by execvp(program) in the child: the parent gets the
        child's pid (`pid`, chosen by the kernel) and the child runs
        `program`. */
    method ForkExec(pid: int, program: string)
      modifies this`launched
      ensures launched == old(launched) + [(pid, program)]
    {
      launched := launched + [(pid, program)];
    }

    /** sched_getaffinity: fails for a pid that is not a process. */
    method SchedGetAffinity(pid: int) returns (mask: Option<set<int>>)
      ensures mask == if pid in tasks then Some(tasks[pid].mask) else None
    {
      mask := if pid in tasks then Some(tasks[pid].mask) else None;
    }

    /** sched_setaffinity: replaces the mask of an existing process. */
    method SchedSetAffinity(pid: int, mask: set<int>) returns (ok: bool)
      modifies this`tasks
      ensures ok == (pid in old(tasks))
      ensures tasks == if ok then old(tasks)[pid := old(tasks)[pid].(mask := mask)] else old(tasks)
    {
      ok := pid in tasks;
      if ok {
        tasks := tasks[pid := tasks[pid].(mask := mask)];
      }
    }

    /** sched_getscheduler: -1 (here `None`) for a pid that is not a process. */
    method SchedGetScheduler(pid: int) returns (policy: Option<int>)
      ensures policy == if pid in tasks then Some(tasks[pid].policy) else None
    {
      policy := if pid in tasks then Some(tasks[pid].policy) else None;
    }

    /** sched_setscheduler: sets policy and priority when the process exists
        and the kernel accepts the pair. */
    method SchedSetScheduler(pid: int, policy: int, priority: int) returns (ok: bool)
      modifies this`tasks
      ensures ok == (pid in old(tasks) && KernelAcceptsScheduling(policy, priority))
      ensures tasks == if ok then old(tasks)[pid := old(tasks)[pid].(policy := policy, priority := priority)]
                       else old(tasks)
    {
      ok := pid in tasks && KernelAcceptsScheduling(policy, priority);
      if ok {
        tasks := tasks[pid := tasks[pid].(policy := policy, priority := priority)];
      }
    }

    /** kill(pid, sig): recorded; its result is not looked at by the caller. */
    method Kill(pid: int, sig: int)
      modifies this`signals
      ensures signals == old(signals) + [(pid, sig)]
    {
      signals := signals + [(pid, sig)];
    }
  }
}
