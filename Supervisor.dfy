/** The supervisor (src/main_D.cpp): the three children it records, the
    affinity and scheduling operations and their menus applied to values
    already read from the terminal, the censure and fps commands it sends
    to the workers, and the terminate-all step. */
module Supervisor {

  import opened Wrappers
  import opened Os
  import Ipc

  const N_OF_SUBPROCESSES: nat := 3

  /** The programs forked in order; childrenPids[i] is the pid of the i-th. */
  const CHILD_PROGRAMS: seq<string> := ["./A.out", "./B.out", "./C.out"]

  /** The launches the supervisor makes, pairing childrenPids[i] with the
      program it runs. */
  function Launches(children: seq<int>): (launches: seq<(int, string)>)
    requires |children| == N_OF_SUBPROCESSES
    ensures |launches| == N_OF_SUBPROCESSES
  {
    [(children[0], CHILD_PROGRAMS[0]), (children[1], CHILD_PROGRAMS[1]), (children[2], CHILD_PROGRAMS[2])]
  }

  /** The spawn of main (lines 278-307): fork and exec A, B and C in that
      order, recording each fork's result in childrenPids. `forkPids` are
      the pids the kernel hands out. Afterwards childrenPids[i] is the
      process running CHILD_PROGRAMS[i]. */
  method SpawnChildren(kernel: Kernel, forkPids: seq<int>) returns (children: seq<int>)
    requires |forkPids| == N_OF_SUBPROCESSES
    modifies kernel`launched
    ensures children == forkPids
    ensures |kernel.launched| == |old(kernel.launched)| + N_OF_SUBPROCESSES
    ensures kernel.launched[..|old(kernel.launched)|] == old(kernel.launched)
    ensures forall i :: 0 <= i < N_OF_SUBPROCESSES ==>
      kernel.launched[|old(kernel.launched)| + i] == (children[i], CHILD_PROGRAMS[i])
    ensures kernel.launched == old(kernel.launched) + Launches(children)
  {
    var pids: seq<int> := [];
    var pid := forkPids[0];
    kernel.ForkExec(pid, "./A.out");
    pids := pids + [pid];
    pid := forkPids[1];
    kernel.ForkExec(pid, "./B.out");
    pids := pids + [pid];
    pid := forkPids[2];
    kernel.ForkExec(pid, "./C.out");
    pids := pids + [pid];
    children := pids;
    assert kernel.launched == old(kernel.launched) + Launches(children);
  }

  // ---------------------------------------------------------------- affinity

  /** What setAffinity reports: success, the range message, or the failure
      of sched_setaffinity. */
  datatype AffinityOutcome = Applied | CpuOutOfRange | SetAffinityFailed

  /** setAffinity(pid, cpu): a cpu outside [0, online CPUs) is refused with
      the affinity untouched; otherwise the mask becomes exactly {cpu}. */
  method SetAffinity(kernel: Kernel, pid: int, cpu: int) returns (outcome: AffinityOutcome)
    modifies kernel`tasks
    ensures outcome == CpuOutOfRange <==> (cpu < 0 || cpu >= kernel.onlineCpus)
    ensures outcome == Applied <==> (0 <= cpu < kernel.onlineCpus && pid in old(kernel.tasks))
    ensures kernel.tasks == if outcome == Applied
                            then old(kernel.tasks)[pid := old(kernel.tasks)[pid].(mask := {cpu})]
                            else old(kernel.tasks)
  {
    if cpu < 0 || cpu >= kernel.onlineCpus {
      return CpuOutOfRange;
    }
    var mask: set<int> := {};
    mask := mask + {cpu};
    assert mask == {cpu};
    var ok := kernel.SchedSetAffinity(pid, mask);
    outcome := if ok then Applied else SetAffinityFailed;
  }

  /** The bits printAffinity prints for a mask: CPU_ISSET(i) for i in
      [0, n). */
  function AffinityBits(mask: set<int>, n: int): (bits: seq<int>)
    ensures |bits| == if n <= 0 then 0 else n
    decreases n
  {
    if n <= 0 then [] else AffinityBits(mask, n - 1) + [if n - 1 in mask then 1 else 0]
  }

  /** One bit per online CPU, bit i is 1 exactly when CPU i is in the mask
      and 0 otherwise. */
  lemma {:induction false} AffinityBitsMeaning(mask: set<int>, n: int, i: int)
    requires 0 <= i < n
    ensures AffinityBits(mask, n)[i] == 1 <==> i in mask
    ensures AffinityBits(mask, n)[i] == 0 <==> i !in mask
    decreases n
  {
    if i < n - 1 {
      AffinityBitsMeaning(mask, n - 1, i);
    }
  }

  /** The printed bits determine the mask on the online CPUs. */
  lemma AffinityBitsRecoverMask(mask: set<int>, n: int)
    requires n >= 0
    ensures (set i | 0 <= i < n && AffinityBits(mask, n)[i] == 1) == (set i | 0 <= i < n && i in mask)
  {
    forall i | 0 <= i < n {
      AffinityBitsMeaning(mask, n, i);
    }
  }

  /** printAffinity(pid): the bits it prints, or `None` when
      sched_getaffinity fails. */
  method PrintAffinity(kernel: Kernel, pid: int) returns (bits: Option<seq<int>>)
    ensures bits == if pid in kernel.tasks then Some(AffinityBits(kernel.tasks[pid].mask, kernel.onlineCpus)) else None
  {
    var mask := kernel.SchedGetAffinity(pid);
    if mask == None {
      return None;
    }
    var nOfProcs := kernel.onlineCpus;
    var line: seq<int> := [];
    var i := 0;
    while i < nOfProcs
      invariant 0 <= i <= if nOfProcs < 0 then 0 else nOfProcs
      invariant line == AffinityBits(mask.value, i)
    {
      line := line + [if i in mask.value then 1 else 0];
      i := i + 1;
    }
    if nOfProcs < 0 {
      assert AffinityBits(mask.value, nOfProcs) == [] == line;
    }
    bits := Some(line);
  }

  // -------------------------------------------------------------- scheduling

  const UNKNOWN_POLICY: string := "Error: unknown scheduling policy"

  /** The switch of printScheduling. */
  function SchedulingName(policy: int): (name: string)
    ensures !KnownPolicy(policy) ==> name == UNKNOWN_POLICY
  {
    if policy == SCHED_OTHER then "Standard round-robin"
    else if policy == SCHED_BATCH then "Batch"
    else if policy == SCHED_IDLE then "Idle job"
    else if policy == SCHED_FIFO then "FIFO"
    else if policy == SCHED_RR then "Round-robin with priority"
    else UNKNOWN_POLICY
  }

  predicate KnownPolicy(policy: int)
  {
    policy == SCHED_OTHER || policy == SCHED_BATCH || policy == SCHED_IDLE ||
    policy == SCHED_FIFO || policy == SCHED_RR
  }

  /** The five policies get five different names, and exactly the other
      values get the error text. */
  lemma SchedulingNamesDistinct(p: int, q: int)
    ensures KnownPolicy(p) <==> SchedulingName(p) != UNKNOWN_POLICY
    ensures KnownPolicy(p) && KnownPolicy(q) && p != q ==> SchedulingName(p) != SchedulingName(q)
  {
    assert "Standard round-robin"[0] != UNKNOWN_POLICY[0];
    assert "Batch"[0] != UNKNOWN_POLICY[0];
    assert "Idle job"[0] != UNKNOWN_POLICY[0];
    assert "FIFO"[0] != UNKNOWN_POLICY[0];
    assert |"Round-robin with priority"| != |UNKNOWN_POLICY|;
    assert "Standard round-robin"[0] != "Round-robin with priority"[0];
    assert "Batch"[0] != "Round-robin with priority"[0];
    assert "Idle job"[0] != "Round-robin with priority"[0];
    assert "FIFO"[0] != "Round-robin with priority"[0];
    assert |"Standard round-robin"| != |"Batch"| && |"Standard round-robin"| != |"Idle job"|;
    assert |"Standard round-robin"| != |"FIFO"| && |"Batch"| != |"Idle job"|;
    assert |"Batch"| != |"FIFO"| && |"Idle job"| != |"FIFO"|;
  }

  /** printScheduling(pid): the name printed, or `None` when
      sched_getscheduler fails. */
  method PrintScheduling(kernel: Kernel, pid: int) returns (name: Option<string>)
    ensures name == if pid in kernel.tasks then Some(SchedulingName(kernel.tasks[pid].policy)) else None
  {
    var result := kernel.SchedGetScheduler(pid);
    if result == None {
      return None;
    }
    name := Some(SchedulingName(result.value));
  }

  /** setScheduling(pid, policy, priority): whether sched_setscheduler
      succeeded (on failure an error is printed and nothing changes). */
  method SetScheduling(kernel: Kernel, pid: int, policy: int, priority: int) returns (ok: bool)
    modifies kernel`tasks
    ensures ok == (pid in old(kernel.tasks) && KernelAcceptsScheduling(policy, priority))
    ensures kernel.tasks == if ok then old(kernel.tasks)[pid := old(kernel.tasks)[pid].(policy := policy, priority := priority)]
                            else old(kernel.tasks)
  {
    ok := kernel.SchedSetScheduler(pid, policy, priority);
  }

  // ------------------------------------------------------------------ menus

  /** The retry condition of the process prompt: `option - '0'` outside
      [1, 3]. */
  predicate RejectsProcessOption(option: char)
  {
    (option as int - '0' as int) < 1 || (option as int - '0' as int) > 3
  }

  /** The switch that picks the child: '1'..'3' select childrenPids[0..2]. */
  function ChildIndex(option: char): (index: Option<nat>)
    ensures index.Some? <==> '1' <= option <= '3'
    ensures index.Some? ==> index.value < N_OF_SUBPROCESSES && index.value == option as int - '1' as int
  {
    match option
    case '1' => Some(0)
    case '2' => Some(1)
    case '3' => Some(2)
    case _ => None
  }

  /** The retry loop and the switch agree: an option passes the prompt
      exactly when it selects a child, and it selects child option - '1',
      which is the process labelled 'A' + index on the menu and was
      spawned from that letter's program. */
  lemma ProcessOptionSelectsChild(option: char)
    ensures !RejectsProcessOption(option) <==> ChildIndex(option).Some?
    ensures ChildIndex(option).Some? ==>
      var i := ChildIndex(option).value;
      i < N_OF_SUBPROCESSES && i == option as int - '1' as int &&
      CHILD_PROGRAMS[i][2] as int == 'A' as int + i
  {
  }

  /** The retry condition of the policy prompt: `option - '0'` outside
      [1, 5]. */
  predicate RejectsPolicyOption(option: char)
  {
    (option as int - '0' as int) < 1 || (option as int - '0' as int) > 5
  }

  /** The policy switch of changeSchedulingMenu. */
  function PolicyOfOption(option: char): (policy: Option<int>)
    ensures policy.Some? <==> '1' <= option <= '5'
    ensures policy.Some? ==> KnownPolicy(policy.value)
  {
    match option
    case '1' => Some(SCHED_OTHER)
    case '2' => Some(SCHED_BATCH)
    case '3' => Some(SCHED_IDLE)
    case '4' => Some(SCHED_FIFO)
    case '5' => Some(SCHED_RR)
    case _ => None
  }

  /** Policy and priority passed to setScheduling: the priority typed in is
      used for SCHED_FIFO and SCHED_RR only; otherwise it stays 0. */
  function SchedulingRequest(option: char, enteredPriority: int): (request: Option<(int, int)>)
    ensures request.Some? <==> PolicyOfOption(option).Some?
    ensures request.Some? ==> request.value.0 == PolicyOfOption(option).value
    ensures request.Some? && request.value.0 != SCHED_FIFO && request.value.0 != SCHED_RR ==> request.value.1 == 0
  {
    match PolicyOfOption(option)
    case None => None
    case Some(policy) =>
      Some((policy, if policy == SCHED_FIFO || policy == SCHED_RR then enteredPriority else 0))
  }

  /** The policy prompt accepts exactly the options the switch maps; the
      five options give five different known policies; and the priority is
      the entered one exactly for the real-time policies. */
  lemma SchedulingOptionMeaning(option: char, other: char, enteredPriority: int)
    ensures !RejectsPolicyOption(option) <==> PolicyOfOption(option).Some?
    ensures PolicyOfOption(option).Some? ==> KnownPolicy(PolicyOfOption(option).value)
    ensures PolicyOfOption(option).Some? && PolicyOfOption(other).Some? && option != other ==>
      PolicyOfOption(option) != PolicyOfOption(other)
    ensures SchedulingRequest(option, enteredPriority).Some? ==>
      var (policy, priority) := SchedulingRequest(option, enteredPriority).value;
      && policy == PolicyOfOption(option).value
      && (option == '4' || option == '5' ==> priority == enteredPriority)
      && (option != '4' && option != '5' ==> priority == 0)
  {
  }

  /** changeAffinityMenu after the prompts have been answered: `None` when
      the process option is refused (the prompt asks again). */
  method ChangeAffinityMenu(kernel: Kernel, children: seq<int>, option: char, core: int)
      returns (outcome: Option<AffinityOutcome>)
    requires |children| == N_OF_SUBPROCESSES
    modifies kernel`tasks
    ensures RejectsProcessOption(option) <==> outcome == None
    ensures !RejectsProcessOption(option) ==> outcome == Some(
      if core < 0 || core >= kernel.onlineCpus then CpuOutOfRange
      else if children[option as int - '1' as int] in old(kernel.tasks) then Applied
      else SetAffinityFailed)
    ensures outcome == Some(Applied) ==> (
      && ChildIndex(option).Some?
      && var pid := children[ChildIndex(option).value];
      && pid in old(kernel.tasks)
      && kernel.tasks == old(kernel.tasks)[pid := old(kernel.tasks)[pid].(mask := {core})])
    ensures outcome != Some(Applied) ==> kernel.tasks == old(kernel.tasks)
  {
    ProcessOptionSelectsChild(option);
    var index := ChildIndex(option);
    if index == None {
      return None;
    }
    var pidToChange := children[index.value];
    var result := SetAffinity(kernel, pidToChange, core);
    outcome := Some(result);
  }

  /** changeSchedulingMenu after the prompts have been answered: `None` when
      an option is refused, otherwise whether setScheduling succeeded. */
  method ChangeSchedulingMenu(kernel: Kernel, children: seq<int>, processOption: char,
                              policyOption: char, enteredPriority: int) returns (ok: Option<bool>)
    requires |children| == N_OF_SUBPROCESSES
    modifies kernel`tasks
    ensures ok == None <==> RejectsProcessOption(processOption) || RejectsPolicyOption(policyOption)
    ensures !RejectsProcessOption(processOption) && !RejectsPolicyOption(policyOption) ==>
      var (policy, priority) := SchedulingRequest(policyOption, enteredPriority).value;
      ok == Some(children[processOption as int - '1' as int] in old(kernel.tasks) &&
                 KernelAcceptsScheduling(policy, priority))
    ensures ok == Some(true) ==> (
      && ChildIndex(processOption).Some? && SchedulingRequest(policyOption, enteredPriority).Some?
      && var pid := children[ChildIndex(processOption).value];
      && var (policy, priority) := SchedulingRequest(policyOption, enteredPriority).value;
      && pid in old(kernel.tasks) && KernelAcceptsScheduling(policy, priority)
      && kernel.tasks == old(kernel.tasks)[pid := old(kernel.tasks)[pid].(policy := policy, priority := priority)])
    ensures ok != Some(true) ==> kernel.tasks == old(kernel.tasks)
  {
    ProcessOptionSelectsChild(processOption);
    SchedulingOptionMeaning(policyOption, policyOption, enteredPriority);
    var index := ChildIndex(processOption);
    var request := SchedulingRequest(policyOption, enteredPriority);
    if index == None || request == None {
      return None;
    }
    var pidToChange := children[index.value];
    var (policy, priority) := request.value;
    var result := SetScheduling(kernel, pidToChange, policy, priority);
    ok := Some(result);
  }

  /** The retry condition of the censure prompt, negated: 0 (fill) and 1
      (blur) are the only modes sent. */
  predicate CensureModeAccepted(mode: int)
  {
    !(mode != 0 && mode != 1)
  }

  /** changeCensureMenu after a value has been read: send it when it is
      accepted; a refused value is not sent (the prompt asks again). */
  method ChangeCensureMenu(queue: Ipc.MessageQueue<int>, mode: int) returns (sent: bool)
    modifies queue
    ensures sent <==> mode == 0 || mode == 1
    ensures queue.messages == old(queue.messages) + (if sent then [mode] else [])
  {
    sent := CensureModeAccepted(mode);
    if sent {
      queue.Send(mode);
    }
  }

  /** changeFpsMenu after a value has been read: any integer is sent, 0 and
      negative ones included. */
  method ChangeFpsMenu(queue: Ipc.MessageQueue<int>, fps: int)
    modifies queue
    ensures queue.messages == old(queue.messages) + [fps]
  {
    queue.Send(fps);
  }

  // ---------------------------------------------------------------- shutdown

  /** One SIGINT per child, in childrenPids order. */
  function Interrupts(children: seq<int>): (sent: seq<(int, int)>)
    ensures |sent| == |children|
  {
    if children == [] then [] else Interrupts(children[..|children| - 1]) + [(children[|children| - 1], SIGINT)]
  }

  lemma {:induction false} InterruptsEach(children: seq<int>, j: nat)
    requires j < |children|
    ensures Interrupts(children)[j] == (children[j], SIGINT)
    decreases |children|
  {
    if j < |children| - 1 {
      InterruptsEach(children[..|children| - 1], j);
    }
  }

  /** Menu option '5': kill(childrenPids[i], SIGINT) for i = 0, 1, 2, then
      return 0. */
  method TerminateAll(kernel: Kernel, children: seq<int>) returns (exitCode: int)
    requires |children| == N_OF_SUBPROCESSES
    modifies kernel`signals
    ensures exitCode == 0
    ensures kernel.signals == old(kernel.signals) + Interrupts(children)
  {
    var i := 0;
    while i < N_OF_SUBPROCESSES
      invariant 0 <= i <= N_OF_SUBPROCESSES
      invariant kernel.signals == old(kernel.signals) + Interrupts(children[..i])
    {
      assert children[..i + 1][..i] == children[..i];
      kernel.Kill(children[i], SIGINT);
      i := i + 1;
    }
    assert children[..i] == children;
    exitCode := 0;
  }

  /** The i-th SIGINT of the exit path goes to the process that runs
      CHILD_PROGRAMS[i]: terminate-all reaches A, B and C, in that order. */
  lemma ExitSignalsEveryProgram(children: seq<int>)
    requires |children| == N_OF_SUBPROCESSES
    ensures forall i :: 0 <= i < N_OF_SUBPROCESSES ==>
      Launches(children)[i].1 == CHILD_PROGRAMS[i] && Interrupts(children)[i] == (Launches(children)[i].0, SIGINT)
  {
    TerminateSignalsEachChild(children);
  }

  /** Each of the three children gets exactly one SIGINT, in spawn order. */
  lemma TerminateSignalsEachChild(children: seq<int>)
    requires |children| == N_OF_SUBPROCESSES
    ensures Interrupts(children) == [(children[0], SIGINT), (children[1], SIGINT), (children[2], SIGINT)]
  {
    InterruptsEach(children, 0);
    InterruptsEach(children, 1);
    InterruptsEach(children, 2);
  }
  /** Spawn followed by the exit option, as main runs them when '5' is the
      first choice: every program launched gets exactly one SIGINT, sent to
      the pid that runs it, in launch order, and main returns 0. */
  method SpawnThenExit(kernel: Kernel, forkPids: seq<int>) returns (exitCode: int)
    requires |forkPids| == N_OF_SUBPROCESSES
    modifies kernel`launched, kernel`signals
    ensures exitCode == 0
    ensures kernel.launched == old(kernel.launched) + Launches(forkPids)
    ensures |kernel.signals| == |old(kernel.signals)| + N_OF_SUBPROCESSES
    ensures kernel.signals[..|old(kernel.signals)|] == old(kernel.signals)
    ensures forall i :: 0 <= i < N_OF_SUBPROCESSES ==>
      var (pid, program) := kernel.launched[|old(kernel.launched)| + i];
      program == CHILD_PROGRAMS[i] && kernel.signals[|old(kernel.signals)| + i] == (pid, SIGINT)
  {
    var children := SpawnChildren(kernel, forkPids);
    exitCode := TerminateAll(kernel, children);
    TerminateSignalsEachChild(children);
  }


  // -------------------------------------------------------------- main menu

  datatype MenuAction = ChangeCensure | ChangeAffinity | ChangeScheduling | SetFpsCap | Exit | InvalidOption

  /** The switch of main's menu loop. */
  function MenuActionOf(option: char): (action: MenuAction)
    ensures action == Exit <==> option == '5'
    ensures action == InvalidOption <==> !('1' <= option <= '5')
  {
    match option
    case '1' => ChangeCensure
    case '2' => ChangeAffinity
    case '3' => ChangeScheduling
    case '4' => SetFpsCap
    case '5' => Exit
    case _ => InvalidOption
  }

  /** Everything one pass of the menu loop reads from the terminal. */
  datatype MenuInput = MenuInput(option: char, mode: int, processOption: char, core: int,
                                 policyOption: char, priority: int, fps: int)

  /** One pass of main's menu loop: `Some(0)` when it returns from main. */
  method MenuStep(kernel: Kernel, censureQueue: Ipc.MessageQueue<int>, fpsQueue: Ipc.MessageQueue<int>,
                  children: seq<int>, input: MenuInput) returns (exitCode: Option<int>)
    requires |children| == N_OF_SUBPROCESSES && censureQueue != fpsQueue
    modifies kernel`tasks, kernel`signals, censureQueue, fpsQueue
    ensures exitCode == Some(0) <==> MenuActionOf(input.option) == Exit
    ensures exitCode != Some(0) ==> exitCode == None && kernel.signals == old(kernel.signals)
    ensures MenuActionOf(input.option) == Exit ==>
      kernel.signals == old(kernel.signals) + Interrupts(children) && kernel.tasks == old(kernel.tasks)
    ensures MenuActionOf(input.option) != ChangeCensure ==> censureQueue.messages == old(censureQueue.messages)
    ensures MenuActionOf(input.option) == SetFpsCap <==> fpsQueue.messages == old(fpsQueue.messages) + [input.fps]
    ensures MenuActionOf(input.option) != SetFpsCap ==> fpsQueue.messages == old(fpsQueue.messages)
    ensures MenuActionOf(input.option) !in {ChangeAffinity, ChangeScheduling} ==> kernel.tasks == old(kernel.tasks)
    ensures MenuActionOf(input.option) == ChangeCensure ==>
      censureQueue.messages == old(censureQueue.messages) + (if input.mode == 0 || input.mode == 1 then [input.mode] else [])
    ensures MenuActionOf(input.option) == ChangeAffinity && !RejectsProcessOption(input.processOption) ==>
      var pid := children[input.processOption as int - '1' as int];
      kernel.tasks == if 0 <= input.core < kernel.onlineCpus && pid in old(kernel.tasks)
                      then old(kernel.tasks)[pid := old(kernel.tasks)[pid].(mask := {input.core})]
                      else old(kernel.tasks)
    ensures MenuActionOf(input.option) == ChangeScheduling && !RejectsProcessOption(input.processOption)
            && !RejectsPolicyOption(input.policyOption) ==>
      var pid := children[input.processOption as int - '1' as int];
      var (policy, priority) := SchedulingRequest(input.policyOption, input.priority).value;
      kernel.tasks == if pid in old(kernel.tasks) && KernelAcceptsScheduling(policy, priority)
                      then old(kernel.tasks)[pid := old(kernel.tasks)[pid].(policy := policy, priority := priority)]
                      else old(kernel.tasks)
    ensures MenuActionOf(input.option) in {ChangeAffinity, ChangeScheduling} && RejectsProcessOption(input.processOption) ==>
      kernel.tasks == old(kernel.tasks)
    ensures MenuActionOf(input.option) == ChangeScheduling && RejectsPolicyOption(input.policyOption) ==>
      kernel.tasks == old(kernel.tasks)
  {
    exitCode := None;
    match MenuActionOf(input.option) {
      case ChangeCensure =>
        var _ := ChangeCensureMenu(censureQueue, input.mode);
      case ChangeAffinity =>
        var _ := ChangeAffinityMenu(kernel, children, input.processOption, input.core);
      case ChangeScheduling =>
        var _ := ChangeSchedulingMenu(kernel, children, input.processOption, input.policyOption, input.priority);
      case SetFpsCap =>
        ChangeFpsMenu(fpsQueue, input.fps);
      case Exit =>
        var code := TerminateAll(kernel, children);
        exitCode := Some(code);
      case InvalidOption =>
    }
  }
}
