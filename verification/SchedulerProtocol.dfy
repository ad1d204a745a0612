/** The SMP scheduling protocol of system/process/scheduler.c as an interleaved step
    system over any number of CPUs. Every lock-protected section is one step; reading one
    other CPU's `current_process` in the `active_elsewhere` scan, storing the chosen task's
    state, and storing `current_process` are separate steps, so any other CPU may act
    between them. */
module SchedulerProtocol {
  import opened Common

  /** A process_t: pid 0 is the idle task of one CPU, anything else an ordinary task. */
  datatype Task = Idle(cpu: nat) | Proc(pid: nat)

  /** PROCESS_DEAD is never stored by the modelled code. */
  datatype Status = Ready | Running | Zombie | Blocked | Sleeping

  /** The scheduler's fields of an ordinary task; affinity -1 means any CPU. */
  datatype Info = Info(status: Status, cpu: nat, affinity: int, queued: bool)

  /** Where a CPU stands between two switches. */
  datatype Phase =
    | Executing                        // the current task runs its own code
    | Committed                        // it stored BLOCKED, SLEEPING or ZOMBIE; schedule() comes next
    | Leaving                          // in schedule(), before sched_pick_next returns
    | Scanning(next: Task, seen: nat)  // a task was picked; CPUs below `seen` were inspected
    | Rejected(next: Task)             // found active elsewhere; about to be queued again
    | Chosen(next: Task)               // will run; its state is not stored yet
    | Marked(next: Task)               // RUNNING stored; current_process not stored yet
    | Switched                         // current_process stored; check_pending_task comes next

  datatype Core = Core(rq: multiset<Task>, sleepers: multiset<Task>,
                       pending: Option<Task>, current: Task, phase: Phase)

  datatype State = State(cores: seq<Core>, tasks: map<Task, Info>)

  /** The task a CPU has picked and not yet published. */
  function Hand(p: Phase): Option<Task> {
    match p
    case Scanning(t, _) => Some(t)
    case Rejected(t) => Some(t)
    case Chosen(t) => Some(t)
    case Marked(t) => Some(t)
    case _ => None
  }

  // ---------------------------------------------------------------- locked sections

  /** __sched_enqueue_locked: a task whose is_queued flag is set is left alone. */
  function Enqueue(s: State, c: nat, t: Task): State
    requires c < |s.cores| && t in s.tasks
  {
    if s.tasks[t].queued then s else
    State(s.cores[c := s.cores[c].(rq := s.cores[c].rq + multiset{t})],
          s.tasks[t := s.tasks[t].(queued := true, cpu := c)])
  }

  /** __sched_remove_locked. */
  function Remove(s: State, c: nat, t: Task): State
    requires c < |s.cores| && t in s.tasks
  {
    if !s.tasks[t].queued then s else
    State(s.cores[c := s.cores[c].(rq := s.cores[c].rq - multiset{t})],
          s.tasks[t := s.tasks[t].(queued := false)])
  }

  function SetStatus(s: State, t: Task, st: Status): State
    requires t in s.tasks
  {
    s.(tasks := s.tasks[t := s.tasks[t].(status := st)])
  }

  function SetPhase(s: State, c: nat, p: Phase): State
    requires c < |s.cores|
  {
    s.(cores := s.cores[c := s.cores[c].(phase := p)])
  }

  function SetPending(s: State, c: nat, p: Option<Task>): State
    requires c < |s.cores|
  {
    s.(cores := s.cores[c := s.cores[c].(pending := p)])
  }

  // ---------------------------------------------------------------- steps

  datatype Action =
    | Create(t: Task, affinity: int, target: nat)
    | Block(c: nat)
    | Sleep(c: nat)
    | Exit(c: nat)
    | Enter(c: nat)
    | Pick(c: nat, t: Task)
    | Steal(c: nat, victim: nat, t: Task)
    | PickNothing(c: nat)
    | Scan(c: nat)
    | SpuriousHit(c: nat)
    | Requeue(c: nat)
    | Mark(c: nat)
    | Publish(c: nat)
    | CheckPending(c: nat)
    | Wake(t: Task, target: nat)
    | TickWake(c: nat, t: Task)

  predicate AllowedOn(affinity: int, c: nat) {
    affinity == -1 || affinity == c
  }

  predicate HasCpu(s: State, c: nat) {
    c < |s.cores|
  }

  /** When a step can be taken. `freshCpu` says that sched_wake_task's unlocked read of a
      sleeping task's cpu_id is still current once the lock is held. */
  predicate Enabled(s: State, a: Action, freshCpu: bool) {
    match a
    case Create(t, affinity, target) =>
      t.Proc? && t !in s.tasks && HasCpu(s, target) && AllowedOn(affinity, target)
    case Block(c) => HasCpu(s, c) && s.cores[c].phase.Executing? && s.cores[c].current in s.tasks
    case Sleep(c) => HasCpu(s, c) && s.cores[c].phase.Executing? && s.cores[c].current in s.tasks
    case Exit(c) => HasCpu(s, c) && s.cores[c].phase.Executing? && s.cores[c].current in s.tasks
    case Enter(c) => HasCpu(s, c) && (s.cores[c].phase.Executing? || s.cores[c].phase.Committed?)
    case Pick(c, t) =>
      HasCpu(s, c) && s.cores[c].phase.Leaving? && t in s.cores[c].rq && t in s.tasks
    case Steal(c, v, t) =>
      HasCpu(s, c) && HasCpu(s, v) && v != c && s.cores[c].phase.Leaving? &&
      t in s.cores[v].rq && t in s.tasks && AllowedOn(s.tasks[t].affinity, c)
    case PickNothing(c) => HasCpu(s, c) && s.cores[c].phase.Leaving?
    case Scan(c) => HasCpu(s, c) && s.cores[c].phase.Scanning?
    case SpuriousHit(c) => HasCpu(s, c) && s.cores[c].phase.Scanning?
    case Requeue(c) =>
      HasCpu(s, c) && s.cores[c].phase.Rejected? && s.cores[c].phase.next in s.tasks
    case Mark(c) => HasCpu(s, c) && s.cores[c].phase.Chosen?
    case Publish(c) => HasCpu(s, c) && s.cores[c].phase.Marked?
    case CheckPending(c) => HasCpu(s, c) && s.cores[c].phase.Switched?
    case Wake(t, target) =>
      HasCpu(s, target) && t in s.tasks &&
      AllowedOn(s.tasks[t].affinity, target) &&
      (freshCpu && s.tasks[t].status.Sleeping? ==> s.tasks[t].cpu == target)
    case TickWake(c, t) => HasCpu(s, c) && t in s.cores[c].sleepers && t in s.tasks
  }

  /** schedule() up to the call of sched_pick_next. */
  function EnterSchedule(s: State, c: nat): State
    requires HasCpu(s, c)
  {
    var curr := s.cores[c].current;
    if curr.Proc? && curr in s.tasks && s.tasks[curr].status.Running? then
      var s1 := SetStatus(s, curr, Ready);
      var s2 := match s1.cores[c].pending
                case Some(o) => if o in s1.tasks && s1.tasks[o].status.Ready? then Enqueue(s1, c, o) else s1
                case None => s1;
      SetPhase(SetPending(s2, c, Some(curr)), c, Leaving)
    else
      SetPhase(SetPending(s, c, None), c, Leaving)
  }

  /** sched_pick_next returning t, and the zombie test of schedule()'s loop. */
  function TakeFrom(s: State, c: nat, from: nat, t: Task): State
    requires HasCpu(s, c) && HasCpu(s, from) && t in s.tasks
  {
    var s1 := Remove(s, from, t);
    SetPhase(s1, c, if s.tasks[t].status.Zombie? then Leaving else Scanning(t, 0))
  }

  /** One iteration of the active_elsewhere loop; the loop ends at num_cpus. */
  function ScanOne(s: State, c: nat): State
    requires HasCpu(s, c) && s.cores[c].phase.Scanning?
  {
    var t, i := s.cores[c].phase.next, s.cores[c].phase.seen;
    if i >= |s.cores| then SetPhase(s, c, Chosen(t))
    else if i != c && s.cores[i].current == t then SetPhase(s, c, Rejected(t))
    else SetPhase(s, c, Scanning(t, i + 1))
  }

  function MarkRunning(s: State, c: nat): State
    requires HasCpu(s, c) && s.cores[c].phase.Chosen?
  {
    var t := s.cores[c].phase.next;
    var s1 := if t in s.tasks then s.(tasks := s.tasks[t := s.tasks[t].(cpu := c, status := Running)]) else s;
    SetPhase(s1, c, Marked(t))
  }

  function RunPending(s: State, c: nat): State
    requires HasCpu(s, c)
  {
    var s1 := SetPending(s, c, None);
    var s2 := match s.cores[c].pending
              case Some(p) => if p in s.tasks && s.tasks[p].status.Ready? then Enqueue(s1, c, p) else s1
              case None => s1;
    SetPhase(s2, c, Executing)
  }

  /** Unlink t from one CPU's sleep list if it is there, make it READY and queue it. */
  function WakeOn(s: State, k: nat, t: Task): State
    requires HasCpu(s, k) && t in s.tasks
  {
    var s1 := s.(cores := s.cores[k := s.cores[k].(sleepers := s.cores[k].sleepers - multiset{t})]);
    Enqueue(SetStatus(s1, t, Ready), k, t)
  }

  function CreateOn(s: State, t: Task, affinity: int, k: nat): State
    requires HasCpu(s, k)
  {
    Enqueue(s.(tasks := s.tasks[t := Info(Ready, k, affinity, false)]), k, t)
  }

  function BlockSelf(s: State, c: nat): State
    requires HasCpu(s, c) && s.cores[c].current in s.tasks
  {
    SetPhase(SetStatus(s, s.cores[c].current, Blocked), c, Committed)
  }

  /** sched_sleep_current. */
  function SleepSelf(s: State, c: nat): State
    requires HasCpu(s, c) && s.cores[c].current in s.tasks
  {
    var t := s.cores[c].current;
    var s1 := Remove(SetStatus(s, t, Sleeping), c, t);
    var s2 := s1.(cores := s1.cores[c := s1.cores[c].(sleepers := s1.cores[c].sleepers + multiset{t})]);
    SetPhase(SetPending(s2, c, None), c, Committed)
  }

  /** process_exit up to its call of schedule(). */
  function ExitSelf(s: State, c: nat): State
    requires HasCpu(s, c) && s.cores[c].current in s.tasks
  {
    var t := s.cores[c].current;
    SetPhase(SetPending(Remove(SetStatus(s, t, Zombie), c, t), c, None), c, Committed)
  }

  function RequeueRejected(s: State, c: nat): State
    requires HasCpu(s, c) && s.cores[c].phase.Rejected? && s.cores[c].phase.next in s.tasks
  {
    SetPhase(Enqueue(s, c, s.cores[c].phase.next), c, Chosen(Idle(c)))
  }

  function PublishMarked(s: State, c: nat): State
    requires HasCpu(s, c) && s.cores[c].phase.Marked?
  {
    s.(cores := s.cores[c := s.cores[c].(current := s.cores[c].phase.next, phase := Switched)])
  }

  /** sched_wake_task: only BLOCKED and SLEEPING tasks react. */
  function WakeTask(s: State, t: Task, k: nat): State
    requires HasCpu(s, k) && t in s.tasks
  {
    if s.tasks[t].status.Sleeping? then WakeOn(s, k, t)
    else if s.tasks[t].status.Blocked? then Enqueue(SetStatus(s, t, Ready), k, t)
    else s
  }

  function Apply(s: State, a: Action): State
    requires Enabled(s, a, false)
  {
    match a
    case Create(t, affinity, k) => CreateOn(s, t, affinity, k)
    case Block(c) => BlockSelf(s, c)
    case Sleep(c) => SleepSelf(s, c)
    case Exit(c) => ExitSelf(s, c)
    case Enter(c) => EnterSchedule(s, c)
    case Pick(c, t) => TakeFrom(s, c, c, t)
    case Steal(c, v, t) => TakeFrom(s, c, v, t)
    case PickNothing(c) => SetPhase(s, c, Chosen(Idle(c)))
    case Scan(c) => ScanOne(s, c)
    case SpuriousHit(c) => SetPhase(s, c, Rejected(s.cores[c].phase.next))
    case Requeue(c) => RequeueRejected(s, c)
    case Mark(c) => MarkRunning(s, c)
    case Publish(c) => PublishMarked(s, c)
    case CheckPending(c) => RunPending(s, c)
    case Wake(t, k) => WakeTask(s, t, k)
    case TickWake(c, t) => WakeOn(s, c, t)
  }

  /** After init_multitasking on every CPU: idle tasks current, nothing queued. */
  predicate Initial(s: State) {
    && s.tasks == map[]
    && forall c | 0 <= c < |s.cores| ::
         s.cores[c] == Core(multiset{}, multiset{}, None, Idle(c), Executing)
  }

  // ---------------------------------------------------------------- invariant

  /** The one place a task is at: on a runqueue, in a CPU's just-picked slot, in a CPU's
      pending slot, executing on a CPU, on a sleep list, or off the scheduler (blocked or
      exited). */
  datatype Place = Queued(c: int) | Held(c: int) | Pending(c: int) | Runs(c: int) | Asleep(c: int) | Off

  type Places = map<Task, Place>

  ghost predicate At(pl: Places, t: Task, p: Place) {
    t in pl && pl[t] == p
  }

  predicate Runnable(p: Phase) {
    p.Executing? || p.Switched?
  }

  /** What a task's place says about its fields. */
  ghost predicate TaskOk(s: State, pl: Places, t: Task)
    requires t in s.tasks && t in pl
  {
    var i := s.tasks[t];
    && t.Proc? && i.cpu < |s.cores| && AllowedOn(i.affinity, i.cpu)
    && i.queued == pl[t].Queued?
    && (!pl[t].Off? ==> 0 <= pl[t].c < |s.cores| && AllowedOn(i.affinity, pl[t].c))
    && match pl[t]
       case Queued(c) => i.status.Ready? && i.cpu == c
       case Held(c) => if s.cores[c].phase.Marked? then i.status.Running? && i.cpu == c else i.status.Ready?
       case Pending(c) => i.status.Ready?
       case Runs(c) => i.status.Running? && i.cpu == c
       case Asleep(c) => i.status.Sleeping? && i.cpu == c
       case Off => i.status.Blocked? || i.status.Zombie?
  }

  /** A CPU's lists and slots hold a task exactly when it is placed there, and once. */
  ghost predicate CellOk(s: State, pl: Places, c: int, t: Task)
    requires 0 <= c < |s.cores|
  {
    var k := s.cores[c];
    && k.rq[t] == (if At(pl, t, Queued(c)) then 1 else 0)
    && k.sleepers[t] == (if At(pl, t, Asleep(c)) then 1 else 0)
    && (t.Proc? ==>
          && (At(pl, t, Pending(c)) <==> k.pending == Some(t))
          && (At(pl, t, Held(c)) <==> Hand(k.phase) == Some(t))
          && (At(pl, t, Runs(c)) <==> k.current == t && Runnable(k.phase)))
  }

  ghost predicate CoreOk(s: State, c: int)
    requires 0 <= c < |s.cores|
  {
    var k := s.cores[c];
    && (k.current == Idle(c) || (k.current.Proc? && k.current in s.tasks && AllowedOn(s.tasks[k.current].affinity, c)))
    && (k.pending.Some? ==> k.pending.value.Proc? && !k.phase.Executing? && !k.phase.Committed?)
    && (Hand(k.phase).Some? && Hand(k.phase).value.Idle? ==>
          Hand(k.phase).value == Idle(c) && (k.phase.Chosen? || k.phase.Marked?))
  }

  /** Two CPUs have different current tasks, and a CPU already inspected by the scan, or
      any other CPU once the scan is over, does not run the pick. */
  ghost predicate PairOk(s: State, c: int, d: int)
    requires 0 <= c < |s.cores| && 0 <= d < |s.cores|
  {
    var p := s.cores[c].phase;
    c != d ==>
      && s.cores[c].current != s.cores[d].current
      && (p.Scanning? && d < p.seen ==> s.cores[d].current != p.next)
      && (p.Chosen? || p.Marked? ==> s.cores[d].current != p.next)
  }

  ghost predicate Inv(s: State, pl: Places) {
    && pl.Keys == s.tasks.Keys
    && (forall t | t in pl :: TaskOk(s, pl, t))
    && (forall c, t | 0 <= c < |s.cores| :: CellOk(s, pl, c, t))
    && (forall c | 0 <= c < |s.cores| :: CoreOk(s, c))
    && (forall c, d | 0 <= c < |s.cores| && 0 <= d < |s.cores| :: PairOk(s, c, d))
  }

  /** The invariant at the CPU c and task t a step acts on, at any two CPUs d and e, and
      at any task u. */
  ghost predicate Around(s: State, pl: Places, c: int, t: Task, d: int, e: int, u: Task) {
    && pl.Keys == s.tasks.Keys
    && 0 <= c < |s.cores| && 0 <= d < |s.cores| && 0 <= e < |s.cores|
    && (t in pl ==> TaskOk(s, pl, t)) && (u in pl ==> TaskOk(s, pl, u))
    && CellOk(s, pl, c, t) && CellOk(s, pl, c, u) && CellOk(s, pl, d, u) && CellOk(s, pl, d, t)
    && CoreOk(s, c) && CoreOk(s, d) && CoreOk(s, e) && PairOk(s, d, e) && PairOk(s, e, d)
  }

  ghost predicate Kept(s: State, pl: Places, d: int, e: int, u: Task) {
    && pl.Keys == s.tasks.Keys
    && 0 <= d < |s.cores| && 0 <= e < |s.cores|
    && (u in pl ==> TaskOk(s, pl, u))
    && CellOk(s, pl, d, u) && CoreOk(s, d) && PairOk(s, d, e)
  }

  lemma CreateKeepsCell(s: State, pl: Places, t: Task, affinity: int, c: nat, d: int, e: int, u: Task)
    requires HasCpu(s, c) && t.Proc? && t !in s.tasks && AllowedOn(affinity, c)
    requires Around(s, pl, c, t, d, e, u)
    ensures CellOk(CreateOn(s, t, affinity, c), pl[t := Queued(c)], d, u)
  {
  }

  lemma CreateKeeps(s: State, pl: Places, t: Task, affinity: int, c: nat, d: int, e: int, u: Task)
    requires HasCpu(s, c) && t.Proc? && t !in s.tasks && AllowedOn(affinity, c)
    requires Around(s, pl, c, t, d, e, u)
    ensures Kept(CreateOn(s, t, affinity, c), pl[t := Queued(c)], d, e, u)
  {
    CreateKeepsCell(s, pl, t, affinity, c, d, e, u);
  }

  lemma BlockKeeps(s: State, pl: Places, c: nat, d: int, e: int, u: Task)
    requires HasCpu(s, c) && s.cores[c].phase.Executing? && s.cores[c].current in s.tasks
    requires Around(s, pl, c, s.cores[c].current, d, e, u)
    ensures Kept(BlockSelf(s, c), pl[s.cores[c].current := Off], d, e, u)
  {
  }

  lemma SleepKeeps(s: State, pl: Places, c: nat, d: int, e: int, u: Task)
    requires HasCpu(s, c) && s.cores[c].phase.Executing? && s.cores[c].current in s.tasks
    requires Around(s, pl, c, s.cores[c].current, d, e, u)
    ensures Kept(SleepSelf(s, c), pl[s.cores[c].current := Asleep(c)], d, e, u)
  {
  }

  lemma ExitKeeps(s: State, pl: Places, c: nat, d: int, e: int, u: Task)
    requires HasCpu(s, c) && s.cores[c].phase.Executing? && s.cores[c].current in s.tasks
    requires Around(s, pl, c, s.cores[c].current, d, e, u)
    ensures Kept(ExitSelf(s, c), pl[s.cores[c].current := Off], d, e, u)
  {
  }

  lemma PreemptKeeps(s: State, pl: Places, c: nat, d: int, e: int, u: Task)
    requires HasCpu(s, c) && s.cores[c].phase.Executing? && s.cores[c].current.Proc?
    requires Around(s, pl, c, s.cores[c].current, d, e, u)
    ensures Kept(EnterSchedule(s, c), pl[s.cores[c].current := Pending(c)], d, e, u)
  {
  }

  lemma PickNothingKeeps(s: State, pl: Places, c: nat, d: int, e: int, u: Task)
    requires HasCpu(s, c) && s.cores[c].phase.Leaving?
    requires Around(s, pl, c, Idle(c), d, e, u)
    ensures Kept(SetPhase(s, c, Chosen(Idle(c))), pl, d, e, u)
  {
  }

  lemma RequeueKeeps(s: State, pl: Places, c: nat, d: int, e: int, u: Task)
    requires HasCpu(s, c) && s.cores[c].phase.Rejected? && s.cores[c].phase.next in s.tasks
    requires Around(s, pl, c, s.cores[c].phase.next, d, e, u)
    ensures Kept(RequeueRejected(s, c), pl[s.cores[c].phase.next := Queued(c)], d, e, u)
  {
  }

  lemma PublishKeepsCell(s: State, pl: Places, c: nat, d: int, e: int, u: Task)
    requires HasCpu(s, c) && s.cores[c].phase.Marked?
    requires Around(s, pl, c, s.cores[c].phase.next, d, e, u)
    ensures CellOk(PublishMarked(s, c), (if s.cores[c].phase.next.Proc? then pl[s.cores[c].phase.next := Runs(c)] else pl), d, u)
  {
  }

  lemma PublishKeeps(s: State, pl: Places, c: nat, d: int, e: int, u: Task)
    requires HasCpu(s, c) && s.cores[c].phase.Marked?
    requires Around(s, pl, c, s.cores[c].phase.next, d, e, u)
    ensures Kept(PublishMarked(s, c), (if s.cores[c].phase.next.Proc? then pl[s.cores[c].phase.next := Runs(c)] else pl), d, e, u)
  {
    PublishKeepsCell(s, pl, c, d, e, u);
  }

  lemma RunPendingKeepsCell(s: State, pl: Places, c: nat, t: Task, d: int, e: int, u: Task)
    requires HasCpu(s, c) && s.cores[c].phase.Switched? && s.cores[c].pending == Some(t)
    requires Around(s, pl, c, t, d, e, u)
    ensures CellOk(RunPending(s, c), pl[t := Queued(c)], d, u)
  {
  }

  lemma RunPendingKeeps(s: State, pl: Places, c: nat, t: Task, d: int, e: int, u: Task)
    requires HasCpu(s, c) && s.cores[c].phase.Switched? && s.cores[c].pending == Some(t)
    requires Around(s, pl, c, t, d, e, u)
    ensures Kept(RunPending(s, c), pl[t := Queued(c)], d, e, u)
  {
    RunPendingKeepsCell(s, pl, c, t, d, e, u);
  }

  lemma NoPendingKeeps(s: State, pl: Places, c: nat, d: int, e: int, u: Task)
    requires HasCpu(s, c) && s.cores[c].phase.Switched? && s.cores[c].pending.None?
    requires Around(s, pl, c, Idle(c), d, e, u)
    ensures Kept(RunPending(s, c), pl, d, e, u)
  {
  }

  lemma GiveKeeps(s: State, pl: Places, c: nat, d: int, e: int, u: Task)
    requires HasCpu(s, c) && (s.cores[c].phase.Committed? || s.cores[c].phase.Executing?)
    requires s.cores[c].current in s.tasks ==> !s.tasks[s.cores[c].current].status.Running?
    requires Around(s, pl, c, s.cores[c].current, d, e, u)
    ensures Kept(EnterSchedule(s, c), pl, d, e, u)
  {
  }

  lemma PickKeepsCell(s: State, pl: Places, c: nat, t: Task, d: int, e: int, u: Task)
    requires HasCpu(s, c) && s.cores[c].phase.Leaving? && t in s.cores[c].rq && t in s.tasks
    requires Around(s, pl, c, t, d, e, u)
    ensures CellOk(TakeFrom(s, c, c, t), pl[t := Held(c)], d, u)
  {
  }

  lemma PickKeeps(s: State, pl: Places, c: nat, t: Task, d: int, e: int, u: Task)
    requires HasCpu(s, c) && s.cores[c].phase.Leaving? && t in s.cores[c].rq && t in s.tasks
    requires Around(s, pl, c, t, d, e, u)
    ensures Kept(TakeFrom(s, c, c, t), pl[t := Held(c)], d, e, u)
  {
    PickKeepsCell(s, pl, c, t, d, e, u);
  }

  predicate CanSteal(s: State, c: nat, v: nat, t: Task) {
    && HasCpu(s, c) && HasCpu(s, v) && v != c && s.cores[c].phase.Leaving? && t in s.tasks
    && t in s.cores[v].rq && AllowedOn(s.tasks[t].affinity, c)
  }

  lemma StealKeepsCell(s: State, pl: Places, c: nat, v: nat, t: Task, d: int, e: int, u: Task)
    requires CanSteal(s, c, v, t) && CellOk(s, pl, v, t) && CellOk(s, pl, v, u)
    requires Around(s, pl, c, t, d, e, u)
    ensures CellOk(TakeFrom(s, c, v, t), pl[t := Held(c)], d, u)
  {
  }

  lemma StealKeeps(s: State, pl: Places, c: nat, v: nat, t: Task, d: int, e: int, u: Task)
    requires CanSteal(s, c, v, t) && CellOk(s, pl, v, t) && CellOk(s, pl, v, u)
    requires Around(s, pl, c, t, d, e, u)
    requires CellOk(TakeFrom(s, c, v, t), pl[t := Held(c)], d, u)
    ensures Kept(TakeFrom(s, c, v, t), pl[t := Held(c)], d, e, u)
  {
  }

  lemma ScanEndKeeps(s: State, pl: Places, c: nat, d: int, e: int, u: Task)
    requires HasCpu(s, c) && s.cores[c].phase.Scanning? && s.cores[c].phase.seen >= |s.cores|
    requires Around(s, pl, c, s.cores[c].phase.next, d, e, u)
    ensures Kept(ScanOne(s, c), pl, d, e, u)
  {
  }

  lemma ScanHitKeeps(s: State, pl: Places, c: nat, d: int, e: int, u: Task)
    requires HasCpu(s, c) && s.cores[c].phase.Scanning?
    requires Around(s, pl, c, s.cores[c].phase.next, d, e, u)
    ensures Kept(SetPhase(s, c, Rejected(s.cores[c].phase.next)), pl, d, e, u)
  {
  }

  lemma ScanMissKeeps(s: State, pl: Places, c: nat, i: nat, d: int, e: int, u: Task)
    requires HasCpu(s, c) && s.cores[c].phase.Scanning? && s.cores[c].phase.seen == i && i < |s.cores|
    requires i == c || s.cores[i].current != s.cores[c].phase.next
    requires Around(s, pl, c, s.cores[c].phase.next, d, e, u)
    ensures Kept(SetPhase(s, c, Scanning(s.cores[c].phase.next, i + 1)), pl, d, e, u)
  {
  }

  lemma WakeSleeperKeepsCell(s: State, pl: Places, t: Task, c: nat, d: int, e: int, u: Task)
    requires HasCpu(s, c) && t in s.tasks && s.tasks[t].status.Sleeping? && s.tasks[t].cpu == c
    requires Around(s, pl, c, t, d, e, u)
    ensures CellOk(WakeOn(s, c, t), pl[t := Queued(c)], d, u)
  {
  }

  lemma WakeSleeperKeeps(s: State, pl: Places, t: Task, c: nat, d: int, e: int, u: Task)
    requires HasCpu(s, c) && t in s.tasks && s.tasks[t].status.Sleeping? && s.tasks[t].cpu == c
    requires Around(s, pl, c, t, d, e, u)
    ensures Kept(WakeOn(s, c, t), pl[t := Queued(c)], d, e, u)
  {
    WakeSleeperKeepsCell(s, pl, t, c, d, e, u);
  }

  lemma WakeBlockedKeepsCell(s: State, pl: Places, t: Task, c: nat, d: int, e: int, u: Task)
    requires HasCpu(s, c) && t in s.tasks && AllowedOn(s.tasks[t].affinity, c) && s.tasks[t].status.Blocked?
    requires Around(s, pl, c, t, d, e, u)
    ensures CellOk(Enqueue(SetStatus(s, t, Ready), c, t), pl[t := Queued(c)], d, u)
  {
  }

  lemma WakeBlockedKeeps(s: State, pl: Places, t: Task, c: nat, d: int, e: int, u: Task)
    requires HasCpu(s, c) && t in s.tasks && AllowedOn(s.tasks[t].affinity, c) && s.tasks[t].status.Blocked?
    requires Around(s, pl, c, t, d, e, u)
    ensures Kept(Enqueue(SetStatus(s, t, Ready), c, t), pl[t := Queued(c)], d, e, u)
  {
    WakeBlockedKeepsCell(s, pl, t, c, d, e, u);
  }

  lemma MarkTaskKeeps(s: State, pl: Places, c: nat, d: int, e: int, u: Task)
    requires HasCpu(s, c) && s.cores[c].phase.Chosen? && s.cores[c].phase.next.Proc?
    requires Around(s, pl, c, s.cores[c].phase.next, d, e, u)
    ensures Kept(MarkRunning(s, c), pl, d, e, u)
  {
  }

  lemma MarkIdleKeeps(s: State, pl: Places, c: nat, d: int, e: int, u: Task)
    requires HasCpu(s, c) && s.cores[c].phase.Chosen? && s.cores[c].phase.next.Idle?
    requires Around(s, pl, c, s.cores[c].phase.next, d, e, u)
    ensures Kept(MarkRunning(s, c), pl, d, e, u)
  {
  }

  predicate InRange(s: State, d: int, e: int) {
    0 <= d < |s.cores| && 0 <= e < |s.cores|
  }

  lemma AroundFromInv(s: State, pl: Places, c: int, t: Task, d: int, e: int, u: Task)
    requires Inv(s, pl) && 0 <= c < |s.cores| && InRange(s, d, e)
    ensures Around(s, pl, c, t, d, e, u)
  {
  }

  lemma InvFromKept(s: State, pl: Places)
    requires |s.cores| > 0 && forall d, e, u | InRange(s, d, e) :: Kept(s, pl, d, e, u)
    ensures Inv(s, pl)
  {
    assert Kept(s, pl, 0, 0, Idle(0));
    forall t | t in pl ensures TaskOk(s, pl, t) { assert Kept(s, pl, 0, 0, t); }
    forall c, t | 0 <= c < |s.cores| ensures CellOk(s, pl, c, t) { assert Kept(s, pl, c, c, t); }
    forall c | 0 <= c < |s.cores| ensures CoreOk(s, c) { assert Kept(s, pl, c, c, Idle(0)); }
    forall c, d | InRange(s, c, d) ensures PairOk(s, c, d) { assert Kept(s, pl, c, d, Idle(0)); }
  }

  /** A task about to leave its CPU is not RUNNING anywhere, however early it was woken. */
  lemma CommittedNotRunning(s: State, pl: Places, c: nat)
    requires Inv(s, pl) && HasCpu(s, c) && s.cores[c].phase.Committed? && s.cores[c].current in s.tasks
    ensures !s.tasks[s.cores[c].current].status.Running?
  {
    var t := s.cores[c].current;
    assert TaskOk(s, pl, t);
    var x := if s.tasks[t].status.Running? then pl[t].c else c;
    assert CellOk(s, pl, x, t) && CellOk(s, pl, c, t) && PairOk(s, x, c);
  }

  lemma EnterStep(s: State, pl: Places, c: nat) returns (pl': Places)
    requires Inv(s, pl) && HasCpu(s, c) && (s.cores[c].phase.Executing? || s.cores[c].phase.Committed?)
    ensures Inv(EnterSchedule(s, c), pl')
  {
    var s' := EnterSchedule(s, c);
    if s.cores[c].phase.Executing? && s.cores[c].current.Proc? {
      pl' := pl[s.cores[c].current := Pending(c)];
      forall d, e, u | InRange(s, d, e) ensures Kept(s', pl', d, e, u) {
        AroundFromInv(s, pl, c, s.cores[c].current, d, e, u);
        PreemptKeeps(s, pl, c, d, e, u);
      }
    } else {
      pl' := pl;
      if s.cores[c].phase.Committed? && s.cores[c].current in s.tasks { CommittedNotRunning(s, pl, c); }
      assert CoreOk(s, c);
      forall d, e, u | InRange(s, d, e) ensures Kept(s', pl', d, e, u) {
        AroundFromInv(s, pl, c, s.cores[c].current, d, e, u);
        GiveKeeps(s, pl, c, d, e, u);
      }
    }
    InvFromKept(s', pl');
  }

  lemma ScanEndStep(s: State, pl: Places, c: nat)
    requires Inv(s, pl) && HasCpu(s, c) && s.cores[c].phase.Scanning? && s.cores[c].phase.seen >= |s.cores|
    ensures Inv(ScanOne(s, c), pl)
  {
    var s' := ScanOne(s, c);
    forall d, e, u | InRange(s, d, e) ensures Kept(s', pl, d, e, u) {
      AroundFromInv(s, pl, c, s.cores[c].phase.next, d, e, u);
      ScanEndKeeps(s, pl, c, d, e, u);
    }
    InvFromKept(s', pl);
  }

  lemma HitStep(s: State, pl: Places, c: nat)
    requires Inv(s, pl) && HasCpu(s, c) && s.cores[c].phase.Scanning?
    ensures Inv(SetPhase(s, c, Rejected(s.cores[c].phase.next)), pl)
  {
    var s' := SetPhase(s, c, Rejected(s.cores[c].phase.next));
    forall d, e, u | InRange(s, d, e) ensures Kept(s', pl, d, e, u) {
      AroundFromInv(s, pl, c, s.cores[c].phase.next, d, e, u);
      ScanHitKeeps(s, pl, c, d, e, u);
    }
    InvFromKept(s', pl);
  }

  lemma ScanMissStep(s: State, pl: Places, c: nat, i: nat)
    requires Inv(s, pl) && HasCpu(s, c) && s.cores[c].phase.Scanning? && s.cores[c].phase.seen == i && i < |s.cores|
    requires i == c || s.cores[i].current != s.cores[c].phase.next
    ensures Inv(SetPhase(s, c, Scanning(s.cores[c].phase.next, i + 1)), pl)
  {
    var s' := SetPhase(s, c, Scanning(s.cores[c].phase.next, i + 1));
    forall d, e, u | InRange(s, d, e) ensures Kept(s', pl, d, e, u) {
      AroundFromInv(s, pl, c, s.cores[c].phase.next, d, e, u);
      ScanMissKeeps(s, pl, c, i, d, e, u);
    }
    InvFromKept(s', pl);
  }

  lemma ScanStep(s: State, pl: Places, c: nat)
    requires Inv(s, pl) && HasCpu(s, c) && s.cores[c].phase.Scanning?
    ensures Inv(ScanOne(s, c), pl)
  {
    var i := s.cores[c].phase.seen;
    if i >= |s.cores| { ScanEndStep(s, pl, c); }
    else if i != c && s.cores[i].current == s.cores[c].phase.next { HitStep(s, pl, c); }
    else { ScanMissStep(s, pl, c, i); }
  }

  lemma PendingStep(s: State, pl: Places, c: nat) returns (pl': Places)
    requires Inv(s, pl) && HasCpu(s, c) && s.cores[c].phase.Switched?
    ensures Inv(RunPending(s, c), pl')
  {
    var s' := RunPending(s, c);
    if s.cores[c].pending.Some? {
      var t := s.cores[c].pending.value;
      pl' := pl[t := Queued(c)];
      forall d, e, u | InRange(s, d, e) ensures Kept(s', pl', d, e, u) {
        AroundFromInv(s, pl, c, t, d, e, u);
        RunPendingKeeps(s, pl, c, t, d, e, u);
      }
    } else {
      pl' := pl;
      forall d, e, u | InRange(s, d, e) ensures Kept(s', pl', d, e, u) {
        AroundFromInv(s, pl, c, Idle(c), d, e, u);
        NoPendingKeeps(s, pl, c, d, e, u);
      }
    }
    InvFromKept(s', pl');
  }

  lemma WakeStep(s: State, pl: Places, t: Task, k: nat) returns (pl': Places)
    requires Inv(s, pl) && Enabled(s, Wake(t, k), true)
    ensures Inv(WakeTask(s, t, k), pl')
  {
    var s' := WakeTask(s, t, k);
    if s.tasks[t].status.Sleeping? {
      pl' := pl[t := Queued(k)];
      forall d, e, u | InRange(s, d, e) ensures Kept(s', pl', d, e, u) {
        AroundFromInv(s, pl, k, t, d, e, u);
        WakeSleeperKeeps(s, pl, t, k, d, e, u);
      }
    } else if s.tasks[t].status.Blocked? {
      pl' := pl[t := Queued(k)];
      forall d, e, u | InRange(s, d, e) ensures Kept(s', pl', d, e, u) {
        AroundFromInv(s, pl, k, t, d, e, u);
        WakeBlockedKeeps(s, pl, t, k, d, e, u);
      }
    } else {
      pl' := pl;
      return;
    }
    InvFromKept(s', pl');
  }

  lemma CreateStep(s: State, pl: Places, t: Task, affinity: int, k: nat) returns (pl': Places)
    requires Inv(s, pl) && Enabled(s, Create(t, affinity, k), true)
    ensures Inv(CreateOn(s, t, affinity, k), pl')
  {
    var s' := CreateOn(s, t, affinity, k);
    pl' := pl[t := Queued(k)];
    forall d, e, u | InRange(s, d, e) ensures Kept(s', pl', d, e, u) {
      AroundFromInv(s, pl, k, t, d, e, u);
      CreateKeeps(s, pl, t, affinity, k, d, e, u);
    }
    InvFromKept(s', pl');
  }

  lemma BlockStep(s: State, pl: Places, c: nat) returns (pl': Places)
    requires Inv(s, pl) && HasCpu(s, c) && s.cores[c].phase.Executing? && s.cores[c].current in s.tasks
    ensures Inv(BlockSelf(s, c), pl')
  {
    var s' := BlockSelf(s, c);
    pl' := pl[s.cores[c].current := Off];
    forall d, e, u | InRange(s, d, e) ensures Kept(s', pl', d, e, u) {
      AroundFromInv(s, pl, c, s.cores[c].current, d, e, u);
      BlockKeeps(s, pl, c, d, e, u);
    }
    InvFromKept(s', pl');
  }

  lemma SleepStep(s: State, pl: Places, c: nat) returns (pl': Places)
    requires Inv(s, pl) && HasCpu(s, c) && s.cores[c].phase.Executing? && s.cores[c].current in s.tasks
    ensures Inv(SleepSelf(s, c), pl')
  {
    var s' := SleepSelf(s, c);
    pl' := pl[s.cores[c].current := Asleep(c)];
    forall d, e, u | InRange(s, d, e) ensures Kept(s', pl', d, e, u) {
      AroundFromInv(s, pl, c, s.cores[c].current, d, e, u);
      SleepKeeps(s, pl, c, d, e, u);
    }
    InvFromKept(s', pl');
  }

  lemma ExitStep(s: State, pl: Places, c: nat) returns (pl': Places)
    requires Inv(s, pl) && HasCpu(s, c) && s.cores[c].phase.Executing? && s.cores[c].current in s.tasks
    ensures Inv(ExitSelf(s, c), pl')
  {
    var s' := ExitSelf(s, c);
    pl' := pl[s.cores[c].current := Off];
    forall d, e, u | InRange(s, d, e) ensures Kept(s', pl', d, e, u) {
      AroundFromInv(s, pl, c, s.cores[c].current, d, e, u);
      ExitKeeps(s, pl, c, d, e, u);
    }
    InvFromKept(s', pl');
  }

  lemma TakeStep(s: State, pl: Places, c: nat, v: nat, t: Task) returns (pl': Places)
    requires Inv(s, pl) && HasCpu(s, c) && HasCpu(s, v) && s.cores[c].phase.Leaving? && t in s.tasks
    requires t in s.cores[v].rq && (v == c || AllowedOn(s.tasks[t].affinity, c))
    ensures Inv(TakeFrom(s, c, v, t), pl')
  {
    var s' := TakeFrom(s, c, v, t);
    pl' := pl[t := Held(c)];
    forall d, e, u | InRange(s, d, e) ensures Kept(s', pl', d, e, u) {
      AroundFromInv(s, pl, c, t, d, e, u);
      if v == c {
        PickKeeps(s, pl, c, t, d, e, u);
      } else {
        StealKeepsCell(s, pl, c, v, t, d, e, u);
        StealKeeps(s, pl, c, v, t, d, e, u);
      }
    }
    InvFromKept(s', pl');
  }

  lemma PickNothingStep(s: State, pl: Places, c: nat)
    requires Inv(s, pl) && HasCpu(s, c) && s.cores[c].phase.Leaving?
    ensures Inv(SetPhase(s, c, Chosen(Idle(c))), pl)
  {
    var s' := SetPhase(s, c, Chosen(Idle(c)));
    forall d, e, u | InRange(s, d, e) ensures Kept(s', pl, d, e, u) {
      AroundFromInv(s, pl, c, Idle(c), d, e, u);
      PickNothingKeeps(s, pl, c, d, e, u);
    }
    InvFromKept(s', pl);
  }

  lemma RequeueStep(s: State, pl: Places, c: nat) returns (pl': Places)
    requires Inv(s, pl) && HasCpu(s, c) && s.cores[c].phase.Rejected? && s.cores[c].phase.next in s.tasks
    ensures Inv(RequeueRejected(s, c), pl')
  {
    var s' := RequeueRejected(s, c);
    pl' := pl[s.cores[c].phase.next := Queued(c)];
    forall d, e, u | InRange(s, d, e) ensures Kept(s', pl', d, e, u) {
      AroundFromInv(s, pl, c, s.cores[c].phase.next, d, e, u);
      RequeueKeeps(s, pl, c, d, e, u);
    }
    InvFromKept(s', pl');
  }

  lemma MarkStep(s: State, pl: Places, c: nat)
    requires Inv(s, pl) && HasCpu(s, c) && s.cores[c].phase.Chosen?
    ensures Inv(MarkRunning(s, c), pl)
  {
    var s' := MarkRunning(s, c);
    forall d, e, u | InRange(s, d, e) ensures Kept(s', pl, d, e, u) {
      AroundFromInv(s, pl, c, s.cores[c].phase.next, d, e, u);
      if s.cores[c].phase.next.Proc? { MarkTaskKeeps(s, pl, c, d, e, u); } else { MarkIdleKeeps(s, pl, c, d, e, u); }
    }
    InvFromKept(s', pl);
  }

  lemma PublishStep(s: State, pl: Places, c: nat) returns (pl': Places)
    requires Inv(s, pl) && HasCpu(s, c) && s.cores[c].phase.Marked?
    ensures Inv(PublishMarked(s, c), pl')
  {
    var s' := PublishMarked(s, c);
    pl' := if s.cores[c].phase.next.Proc? then pl[s.cores[c].phase.next := Runs(c)] else pl;
    forall d, e, u | InRange(s, d, e) ensures Kept(s', pl', d, e, u) {
      AroundFromInv(s, pl, c, s.cores[c].phase.next, d, e, u);
      PublishKeeps(s, pl, c, d, e, u);
    }
    InvFromKept(s', pl');
  }

  /** Every step keeps the invariant. */
  lemma {:induction false} StepKeeps(s: State, a: Action, pl: Places) returns (pl': Places)
    requires Inv(s, pl) && Enabled(s, a, true)
    ensures Inv(Apply(s, a), pl')
  {
    pl' := pl;
    match a {
      case Create(t, affinity, k) => pl' := CreateStep(s, pl, t, affinity, k);
      case Block(c) => pl' := BlockStep(s, pl, c);
      case Sleep(c) => pl' := SleepStep(s, pl, c);
      case Exit(c) => pl' := ExitStep(s, pl, c);
      case Enter(c) => pl' := EnterStep(s, pl, c);
      case Pick(c, t) => pl' := TakeStep(s, pl, c, c, t);
      case Steal(c, v, t) => pl' := TakeStep(s, pl, c, v, t);
      case PickNothing(c) => PickNothingStep(s, pl, c);
      case Scan(c) => ScanStep(s, pl, c);
      case SpuriousHit(c) => HitStep(s, pl, c);
      case Requeue(c) => pl' := RequeueStep(s, pl, c);
      case Mark(c) => MarkStep(s, pl, c);
      case Publish(c) => pl' := PublishStep(s, pl, c);
      case CheckPending(c) => pl' := PendingStep(s, pl, c);
      case Wake(t, k) => pl' := WakeStep(s, pl, t, k);
      case TickWake(c, t) =>
        assert CellOk(s, pl, c, t) && TaskOk(s, pl, t);
        pl' := WakeStep(s, pl, t, c);
    }
  }

  // ---------------------------------------------------------------- whole runs

  /** A run: booting, then one step after another. */
  datatype Run = Boot(s: State) | After(before: Run, a: Action)

  /** The state a run has reached. */
  function Now(r: Run): State {
    match r
    case Boot(s) => s
    case After(b, a) => if Enabled(Now(b), a, false) then Apply(Now(b), a) else Now(b)
  }

  /** The run starts at boot and takes only enabled steps. */
  predicate IsRun(r: Run, freshCpu: bool) {
    match r
    case Boot(s) => Initial(s)
    case After(b, a) => IsRun(b, freshCpu) && Enabled(Now(b), a, freshCpu)
  }

  lemma {:induction false} RunInv(r: Run) returns (pl: Places)
    requires IsRun(r, true)
    ensures Inv(Now(r), pl)
  {
    match r
    case Boot(s) =>
      pl := map[];
    case After(b, a) =>
      var before := RunInv(b);
      pl := StepKeeps(Now(b), a, before);
  }

  /** In no state of any run is a task current_process on two CPUs. */
  lemma {:induction false} NeverOnTwoCpus(r: Run, c: nat, d: nat)
    requires IsRun(r, true)
    requires HasCpu(Now(r), c) && HasCpu(Now(r), d) && c != d
    ensures Now(r).cores[c].current != Now(r).cores[d].current
  {
    var pl := RunInv(r);
    assert PairOk(Now(r), c, d);
  }

  /** Occurrences of a task on one CPU as waiting to run: on the runqueue, just picked, pending. */
  function WaitsOn(k: Core, t: Task): nat {
    k.rq[t]
    + (if Hand(k.phase) == Some(t) && !k.phase.Marked? then 1 else 0)
    + (if k.pending == Some(t) then 1 else 0)
  }

  /** Occurrences as running: about to be published, or executing. */
  function RunsOn(k: Core, t: Task): nat {
    (if k.phase == Marked(t) then 1 else 0)
    + (if k.current == t && Runnable(k.phase) then 1 else 0)
  }

  function Total(cores: seq<Core>, f: Core -> nat): nat {
    if cores == [] then 0 else f(cores[0]) + Total(cores[1..], f)
  }

  lemma {:induction false} TotalOne(cores: seq<Core>, f: Core -> nat, x: int)
    requires forall c | 0 <= c < |cores| :: f(cores[c]) == if c == x then 1 else 0
    ensures Total(cores, f) == if 0 <= x < |cores| then 1 else 0
  {
    if cores != [] {
      TotalOne(cores[1..], f, x - 1);
    }
  }

  /** No task is lost or duplicated: in every state of every run a READY task is waiting in
      exactly one place on all CPUs together, a RUNNING task is executing in exactly one,
      a SLEEPING task is on exactly one sleep list, and no task is anywhere else. */
  lemma {:induction false} NoTaskLostOrDuplicated(r: Run, t: Task)
    requires IsRun(r, true) && t in Now(r).tasks
    ensures var s := Now(r);
            && Total(s.cores, k => WaitsOn(k, t)) == (if s.tasks[t].status.Ready? then 1 else 0)
            && Total(s.cores, k => RunsOn(k, t)) == (if s.tasks[t].status.Running? then 1 else 0)
            && Total(s.cores, (k: Core) => k.sleepers[t]) == (if s.tasks[t].status.Sleeping? then 1 else 0)
  {
    var s := Now(r);
    var pl := RunInv(r);
    assert TaskOk(s, pl, t);
    var x := if pl[t].Off? then -1 else pl[t].c;
    var st := s.tasks[t].status;
    forall c | 0 <= c < |s.cores|
      ensures WaitsOn(s.cores[c], t) == if c == (if st.Ready? then x else -1) then 1 else 0
      ensures RunsOn(s.cores[c], t) == if c == (if st.Running? then x else -1) then 1 else 0
      ensures s.cores[c].sleepers[t] == if c == (if st.Sleeping? then x else -1) then 1 else 0
    {
      assert CellOk(s, pl, c, t);
    }
    TotalOne(s.cores, k => WaitsOn(k, t), if st.Ready? then x else -1);
    TotalOne(s.cores, k => RunsOn(k, t), if st.Running? then x else -1);
    TotalOne(s.cores, (k: Core) => k.sleepers[t], if st.Sleeping? then x else -1);
  }

  /** The task a step is about, if it is about one. */
  function Subject(s: State, a: Action): Option<Task>
    requires Enabled(s, a, false)
  {
    match a
    case Create(t, _, _) => Some(t)
    case Block(c) => Some(s.cores[c].current)
    case Sleep(c) => Some(s.cores[c].current)
    case Exit(c) => Some(s.cores[c].current)
    case Enter(c) => Some(s.cores[c].current)
    case Pick(_, t) => Some(t)
    case Steal(_, _, t) => Some(t)
    case Requeue(c) => Some(s.cores[c].phase.next)
    case Mark(c) => Some(s.cores[c].phase.next)
    case CheckPending(c) => s.cores[c].pending
    case Wake(t, _) => Some(t)
    case TickWake(_, t) => Some(t)
    case _ => None
  }

  predicate HasStatus(s: State, t: Task, st: Status, queued: bool) {
    t in s.tasks && s.tasks[t].status == st && s.tasks[t].queued == queued
  }

  predicate ReadyOn(s: State, t: Task, c: nat) {
    HasStatus(s, t, Ready, true) && s.tasks[t].cpu == c
  }

  predicate InPhase(s: State, c: nat, p: Phase) {
    HasCpu(s, c) && s.cores[c].phase == p
  }

  /** What one step does to the task it is about and to the CPU that takes it. */
  predicate Effect(s: State, s': State, a: Action)
    requires Enabled(s, a, false)
  {
    match a
    case Create(t, affinity, k) => ReadyOn(s', t, k) && s'.tasks[t].affinity == affinity
    case Block(c) => HasStatus(s', s.cores[c].current, Blocked, false) && InPhase(s', c, Committed)
    case Sleep(c) =>
      var t := s.cores[c].current;
      HasStatus(s', t, Sleeping, false) && s'.tasks[t].cpu == c && InPhase(s', c, Committed)
    case Exit(c) => HasStatus(s', s.cores[c].current, Zombie, false) && InPhase(s', c, Committed)
    case Enter(c) =>
      var t := s.cores[c].current;
      && InPhase(s', c, Leaving)
      && if s.cores[c].phase.Executing? && t.Proc?
         then HasStatus(s', t, Ready, false) && s'.cores[c].pending == Some(t)
         else s'.tasks == s.tasks && s'.cores[c].pending == None
    case Pick(c, t) => HasStatus(s', t, Ready, false) && InPhase(s', c, Scanning(t, 0))
    case Steal(c, v, t) => HasStatus(s', t, Ready, false) && InPhase(s', c, Scanning(t, 0))
    case Requeue(c) => ReadyOn(s', s.cores[c].phase.next, c) && InPhase(s', c, Chosen(Idle(c)))
    case Mark(c) =>
      var t := s.cores[c].phase.next;
      InPhase(s', c, Marked(t)) && (t.Proc? ==> HasStatus(s', t, Running, false) && s'.tasks[t].cpu == c)
    case Publish(c) =>
      InPhase(s', c, Switched) && s'.cores[c].current == s.cores[c].phase.next && s'.tasks == s.tasks
    case CheckPending(c) =>
      && InPhase(s', c, Executing) && s'.cores[c].pending == None
      && (s.cores[c].pending.Some? ==> ReadyOn(s', s.cores[c].pending.value, c))
    case Wake(t, k) =>
      if s.tasks[t].status.Blocked? || s.tasks[t].status.Sleeping? then ReadyOn(s', t, k) else s' == s
    case TickWake(c, t) => s.tasks[t].status == Sleeping && ReadyOn(s', t, c)
    case _ => s'.tasks == s.tasks
  }

  /** The CPU that takes a step, or the one a new or woken task goes to. */
  function CpuOf(a: Action): nat {
    match a
    case Create(_, _, k) => k
    case Wake(_, k) => k
    case _ => a.c
  }

  /** The invariant at the task a step is about and at the CPU that takes it. */
  ghost predicate SubjectOk(s: State, pl: Places, a: Action)
    requires Enabled(s, a, false)
  {
    && HasCpu(s, CpuOf(a)) && CoreOk(s, CpuOf(a))
    && (Subject(s, a).Some? ==>
          var t := Subject(s, a).value;
          && (t in s.tasks ==> t in pl && TaskOk(s, pl, t))
          && (t.Proc? && !a.Create? ==> t in s.tasks)
          && CellOk(s, pl, CpuOf(a), t)
          && (a.Steal? ==> CellOk(s, pl, a.victim, t))
          && (a.Enter? && s.cores[a.c].phase.Committed? && t in s.tasks ==> !s.tasks[t].status.Running?))
  }

  lemma SubjectIsOk(s: State, pl: Places, a: Action)
    requires Inv(s, pl) && Enabled(s, a, false)
    ensures SubjectOk(s, pl, a)
  {
    assert CoreOk(s, CpuOf(a));
    if Subject(s, a).Some? {
      assert CellOk(s, pl, CpuOf(a), Subject(s, a).value);
    }
    if a.Enter? && s.cores[a.c].phase.Committed? && s.cores[a.c].current in s.tasks {
      CommittedNotRunning(s, pl, a.c);
    }
  }

  lemma {:induction false} EffectOf(s: State, pl: Places, a: Action)
    requires Enabled(s, a, false) && SubjectOk(s, pl, a)
    ensures Effect(s, Apply(s, a), a)
  {
  }

  /** A step leaves every task alone but the one it is about. */
  predicate OthersKept(s: State, s': State, a: Action)
    requires Enabled(s, a, false)
  {
    forall u | u in s.tasks && Subject(s, a) != Some(u) :: u in s'.tasks && s'.tasks[u] == s.tasks[u]
  }

  lemma {:induction false} OthersOf(s: State, pl: Places, a: Action)
    requires Enabled(s, a, false) && SubjectOk(s, pl, a)
    ensures OthersKept(s, Apply(s, a), a)
  {
  }

  /** One inspection of the scan: the pick is chosen exactly when no CPU is left to inspect,
      and given up exactly when another CPU, the inspected one, runs it. */
  lemma ScanEffect(s: State, c: nat)
    requires Enabled(s, Scan(c), false)
    ensures var p, s' := s.cores[c].phase, Apply(s, Scan(c));
            && s'.tasks == s.tasks && HasCpu(s', c) && Hand(s'.cores[c].phase) == Some(p.next)
            && (s'.cores[c].phase.Chosen? <==> p.seen >= |s.cores|)
            && (s'.cores[c].phase.Rejected? <==>
                  p.seen < |s.cores| && p.seen != c && s.cores[p.seen].current == p.next)
            && (s'.cores[c].phase.Scanning? ==> s'.cores[c].phase.seen == p.seen + 1)
  {
  }

  /** What every step of every run does, said of the task fields: a woken BLOCKED or
      SLEEPING task becomes READY and is queued where it was woken; a task that blocks,
      sleeps or exits is on no runqueue; a picked one leaves its queue; a handed-over one
      is queued by the CPU that left it. No other task changes. */
  lemma {:induction false} StepEffect(r: Run, a: Action)
    requires IsRun(After(r, a), true)
    ensures Enabled(Now(r), a, false)
    ensures Effect(Now(r), Now(After(r, a)), a) && OthersKept(Now(r), Now(After(r, a)), a)
  {
    var pl := RunInv(r);
    SubjectIsOk(Now(r), pl, a);
    EffectOf(Now(r), pl, a);
    OthersOf(Now(r), pl, a);
  }

  /** In every state of every run a task is on CPU c's runqueue exactly if its is_queued
      flag is set and its cpu_id is c, and on c's sleep list exactly if it is SLEEPING and
      its cpu_id is c; and never twice. */
  lemma {:induction false} FieldsTellLists(r: Run, t: Task, c: nat)
    requires IsRun(r, true) && t in Now(r).tasks && HasCpu(Now(r), c)
    ensures var s := Now(r);
            && s.cores[c].rq[t] == (if s.tasks[t].queued && s.tasks[t].cpu == c then 1 else 0)
            && s.cores[c].sleepers[t] ==
                 (if s.tasks[t].status.Sleeping? && s.tasks[t].cpu == c then 1 else 0)
  {
    var pl := RunInv(r);
    assert TaskOk(Now(r), pl, t) && CellOk(Now(r), pl, c, t);
  }

  /** A pinned task is only ever queued, sleeping, picked, pending or current on its CPU. */
  lemma {:induction false} PinnedStaysHome(r: Run, t: Task, c: nat)
    requires IsRun(r, true) && t in Now(r).tasks && HasCpu(Now(r), c)
    requires Now(r).tasks[t].affinity >= 0 && Now(r).tasks[t].affinity != c
    ensures var k := Now(r).cores[c];
            t !in k.rq && t !in k.sleepers && k.pending != Some(t) && Hand(k.phase) != Some(t) && k.current != t
  {
    var pl := RunInv(r);
    assert TaskOk(Now(r), pl, t) && CellOk(Now(r), pl, c, t) && CoreOk(Now(r), c);
  }

  /** Whenever schedule() is entered pending_task is empty, and a caller that still runs is
      on no runqueue: the branch that puts an older pending task back is never taken. */
  lemma {:induction false} PendingEmptyOnEntry(r: Run, c: nat)
    requires IsRun(After(r, Enter(c)), true)
    ensures HasCpu(Now(r), c) && Now(r).cores[c].pending == None
    ensures Now(r).cores[c].phase.Executing? && Now(r).cores[c].current.Proc? ==>
              Now(r).cores[c].current in Now(r).tasks && !Now(r).tasks[Now(r).cores[c].current].queued
  {
    var pl := RunInv(r);
    var t := Now(r).cores[c].current;
    assert CoreOk(Now(r), c) && CellOk(Now(r), pl, c, t);
    if t in pl { assert TaskOk(Now(r), pl, t); }
  }
}
