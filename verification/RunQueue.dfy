/** The per-CPU runqueues and sleep lists of system/process/scheduler.c: doubly linked
    lists threaded through process_t, a bitmap of non-empty lists, and a task counter.
    This file states when the representation is well formed, over snapshots of the link
    fields, and proves that each relinking keeps it so; Scheduler.dfy holds the code. */
module RunQueue {
  import opened Common

  const PRIO_COUNT := 6

  datatype Status = Ready | Running | Zombie | Dead | Blocked | Sleeping

  /** The scheduler's fields of process_t: run queue links, is_queued, cpu_id, priority,
      affinity, last_queued, vruntime, state, sleep link and wake tick. */
  datatype Task = Task(prev: Ptr, next: Ptr, queued: bool, cpu: nat, prio: nat, affinity: int, stamp: nat,
                       vruntime: nat, state: Status, sleepNext: Ptr, wakeTick: nat)

  /** The memory holding the tasks. */
  type Tasks = map<Ptr, Task>

  /** runqueue_t. */
  datatype Queue = Queue(head: Ptr, tail: Ptr)

  /** cpu_runqueue_t without its lock; active_queues is the set of its 1-bits. */
  datatype CpuQueues = CpuQueues(queues: seq<Queue>, active: set<nat>, sleepHead: Ptr, total: int, minVruntime: nat)

  /** The list a priority value belongs to: values past the last list share it. */
  function Clamp(prio: nat): (p: nat)
    ensures p < PRIO_COUNT
    ensures prio < 6 ==> p == prio
    ensures prio >= 6 ==> p == 5
  {
    if prio >= PRIO_COUNT then PRIO_COUNT - 1 else prio
  }

  // ---------------------------------------------------------------- well-formedness

  /** Entry i of a queue: linked to its neighbours, flagged with its CPU and priority, and
      queued no earlier than the entry before it. */
  ghost predicate NodeOk(m: Tasks, s: seq<Ptr>, i: int, c: int, p: int, now: nat) {
    && 0 <= i < |s| && s[i] in m && s[i] != NULL
    && m[s[i]].queued && m[s[i]].cpu == c && Clamp(m[s[i]].prio) == p
    && m[s[i]].prev == Before(s, i) && m[s[i]].next == After(s, i)
    && m[s[i]].stamp <= now
    && (i > 0 ==> s[i - 1] in m && m[s[i - 1]].stamp <= m[s[i]].stamp)
  }

  ghost predicate ListOk(m: Tasks, q: Queue, s: seq<Ptr>, c: int, p: int, now: nat) {
    q == Queue(First(s), Last(s)) && forall i | 0 <= i < |s| :: NodeOk(m, s, i, c, p, now)
  }

  ghost predicate SleeperOk(m: Tasks, s: seq<Ptr>, i: int, c: int) {
    && 0 <= i < |s| && s[i] in m && s[i] != NULL
    && m[s[i]].state.Sleeping? && m[s[i]].cpu == c && !m[s[i]].queued && m[s[i]].sleepNext == After(s, i)
  }

  ghost predicate SleepListOk(m: Tasks, head: Ptr, s: seq<Ptr>, c: int) {
    head == First(s) && forall i | 0 <= i < |s| :: SleeperOk(m, s, i, c)
  }

  function Total(ls: seq<seq<Ptr>>): nat
    requires |ls| == PRIO_COUNT
  {
    |ls[0]| + |ls[1]| + |ls[2]| + |ls[3]| + |ls[4]| + |ls[5]|
  }

  /** Bit p is set iff list p is non-empty, and the counter is the sum of the lengths. */
  ghost predicate CountersOk(k: CpuQueues, ls: seq<seq<Ptr>>) {
    && |k.queues| == |ls| == PRIO_COUNT
    && (forall p: nat :: p in k.active <==> p < PRIO_COUNT && ls[p] != [])
    && k.total == Total(ls)
  }

  /** A queued task is on the list its cpu_id and priority name; a sleeping one on the
      sleep list of its CPU. */
  ghost predicate TaskOk(m: Tasks, lists: seq<seq<seq<Ptr>>>, asleep: seq<seq<Ptr>>, t: Ptr) {
    && t in m
    && (m[t].queued ==>
          m[t].cpu < |lists| && Clamp(m[t].prio) < |lists[m[t].cpu]| && t in lists[m[t].cpu][Clamp(m[t].prio)])
    && (m[t].state.Sleeping? ==> m[t].cpu < |asleep| && t in asleep[m[t].cpu])
  }

  ghost predicate CpuOk(m: Tasks, k: CpuQueues, ls: seq<seq<Ptr>>, sleepers: seq<Ptr>, c: int, now: nat) {
    && CountersOk(k, ls)
    && (forall p | 0 <= p < PRIO_COUNT :: ListOk(m, k.queues[p], ls[p], c, p, now))
    && SleepListOk(m, k.sleepHead, sleepers, c)
  }

  ghost predicate Wf(cpus: seq<CpuQueues>, lists: seq<seq<seq<Ptr>>>, asleep: seq<seq<Ptr>>, m: Tasks, now: nat) {
    && |cpus| == |lists| == |asleep|
    && (forall c | 0 <= c < |cpus| :: CpuOk(m, cpus[c], lists[c], asleep[c], c, now))
    && NULL !in m && (forall t | t in m :: TaskOk(m, lists, asleep, t))
  }

  // ---------------------------------------------------------------- enqueue

  /** The link stores of __sched_enqueue_locked. */
  function EnqueuedTasks(m: Tasks, tail: Ptr, t: Ptr, c: nat, prio: nat, affinity: int, now: nat, minV: nat): Tasks
    requires t in m && (tail != NULL ==> tail in m)
  {
    var m1 := if tail == NULL then m else m[tail := m[tail].(next := t)];
    m1[t := m[t].(prev := tail, next := NULL, queued := true, cpu := c, prio := prio, affinity := affinity, stamp := now,
                  vruntime := if m[t].vruntime < minV then minV else m[t].vruntime)]
  }

  function Appended(q: Queue, t: Ptr): Queue {
    if q.tail == NULL then Queue(t, t) else Queue(q.head, t)
  }

  function EnqueuedCpu(k: CpuQueues, p: nat, t: Ptr): CpuQueues
    requires p < |k.queues| && p < PRIO_COUNT
  {
    k.(queues := k.queues[p := Appended(k.queues[p], t)], active := k.active + {p}, total := k.total + 1)
  }

  /** Lists whose tasks' links did not change stay well formed. */
  lemma ListFrame(m: Tasks, m': Tasks, q: Queue, s: seq<Ptr>, c: int, p: int, now: nat, now': nat)
    requires ListOk(m, q, s, c, p, now) && now <= now'
    requires forall t | t in s :: t in m && t in m' && m'[t] == m[t]
    ensures ListOk(m', q, s, c, p, now')
  {
    forall i | 0 <= i < |s| ensures NodeOk(m', s, i, c, p, now') {
      assert NodeOk(m, s, i, c, p, now) && s[i] in s && (i > 0 ==> s[i - 1] in s);
    }
  }

  lemma SleepFrame(m: Tasks, m': Tasks, head: Ptr, s: seq<Ptr>, c: int)
    requires SleepListOk(m, head, s, c)
    requires forall t | t in s :: t in m && t in m' && m'[t] == m[t]
    ensures SleepListOk(m', head, s, c)
  {
    forall i | 0 <= i < |s| ensures SleeperOk(m', s, i, c) {
      assert SleeperOk(m, s, i, c) && s[i] in s;
    }
  }

  /** The tail of a list has no other occurrence in it. */
  lemma TailOnce(m: Tasks, q: Queue, s: seq<Ptr>, c: int, p: int, now: nat, i: int)
    requires ListOk(m, q, s, c, p, now) && 0 <= i < |s| - 1
    ensures s[i] != s[|s| - 1]
  {
    assert NodeOk(m, s, i, c, p, now) && NodeOk(m, s, i + 1, c, p, now) && NodeOk(m, s, |s| - 1, c, p, now);
  }

  lemma AppendKeeps(m: Tasks, q: Queue, s: seq<Ptr>, t: Ptr, c: nat, prio: nat, affinity: int, now: nat, now': nat, minV: nat)
    requires ListOk(m, q, s, c, Clamp(prio), now) && now <= now' && t in m && t != NULL && !m[t].queued
    ensures (q.tail != NULL ==> q.tail in m)
    ensures ListOk(EnqueuedTasks(m, q.tail, t, c, prio, affinity, now', minV), Appended(q, t), s + [t], c, Clamp(prio), now')
  {
    var p := Clamp(prio);
    if s != [] { assert NodeOk(m, s, |s| - 1, c, p, now); }
    var s', m' := s + [t], EnqueuedTasks(m, q.tail, t, c, prio, affinity, now', minV);
    forall i | 0 <= i < |s'| ensures NodeOk(m', s', i, c, p, now') {
      if i < |s| { assert NodeOk(m, s, i, c, p, now); }
      if i < |s| - 1 { TailOnce(m, q, s, c, p, now, i); }
      if 0 < i { assert NodeOk(m, s, i - 1, c, p, now); }
      if 1 < i { assert NodeOk(m, s, i - 2, c, p, now); }
    }
  }

  /** A task is only on the list its own fields name. */
  lemma OnlyHome(m: Tasks, q: Queue, s: seq<Ptr>, c: int, p: int, now: nat, t: Ptr)
    requires ListOk(m, q, s, c, p, now) && t in s
    ensures t in m && m[t].queued && m[t].cpu == c && Clamp(m[t].prio) == p
  {
    var i :| 0 <= i < |s| && s[i] == t;
    assert NodeOk(m, s, i, c, p, now);
  }

  lemma SleeperHome(m: Tasks, head: Ptr, s: seq<Ptr>, c: int, t: Ptr)
    requires SleepListOk(m, head, s, c) && t in s
    ensures t in m && m[t].state.Sleeping? && m[t].cpu == c && !m[t].queued
  {
    var i :| 0 <= i < |s| && s[i] == t;
    assert SleeperOk(m, s, i, c);
  }

  /** CPU c's lists after a change that left every task's links alone except tasks of list
      p and tasks on no list; other CPUs are the case p == -1. */
  lemma CpuFrame(m: Tasks, m': Tasks, k: CpuQueues, ls: seq<seq<Ptr>>, sl: seq<Ptr>, c: int, now: nat, now': nat,
                 changed: set<Ptr>, p: int)
    requires CpuOk(m, k, ls, sl, c, now) && now <= now' && m.Keys == m'.Keys
    requires forall t | t in m && t !in changed :: m'[t] == m[t]
    requires forall t | t in changed :: t in m && !m[t].state.Sleeping? && (m[t].queued ==> m[t].cpu == c ==> Clamp(m[t].prio) == p)
    ensures forall q | 0 <= q < PRIO_COUNT && q != p :: ListOk(m', k.queues[q], ls[q], c, q, now')
    ensures SleepListOk(m', k.sleepHead, sl, c)
  {
    forall q | 0 <= q < PRIO_COUNT && q != p ensures ListOk(m', k.queues[q], ls[q], c, q, now') {
      forall t | t in ls[q] ensures t in m && t in m' && m'[t] == m[t] {
        OnlyHome(m, k.queues[q], ls[q], c, q, now, t);
      }
      ListFrame(m, m', k.queues[q], ls[q], c, q, now, now');
    }
    forall t | t in sl ensures t in m && t in m' && m'[t] == m[t] {
      SleeperHome(m, k.sleepHead, sl, c, t);
    }
    SleepFrame(m, m', k.sleepHead, sl, c);
  }

  lemma CountersAppend(k: CpuQueues, ls: seq<seq<Ptr>>, p: nat, t: Ptr)
    requires CountersOk(k, ls) && p < PRIO_COUNT
    ensures CountersOk(EnqueuedCpu(k, p, t), ls[p := ls[p] + [t]])
  {
  }

  /** Replacing one list of one CPU, where only tasks of that list and tasks on no list
      change, keeps everything else well formed. */
  lemma Relink(cpus: seq<CpuQueues>, lists: seq<seq<seq<Ptr>>>, asleep: seq<seq<Ptr>>, m: Tasks, now: nat,
               c: nat, p: nat, k': CpuQueues, s': seq<Ptr>, m': Tasks, now': nat, changed: set<Ptr>)
    requires Wf(cpus, lists, asleep, m, now) && now <= now' && c < |cpus| && p < PRIO_COUNT && m'.Keys == m.Keys
    requires forall t | t in m && t !in changed :: m'[t] == m[t]
    requires forall t | t in changed ::
               && t in m && !m[t].state.Sleeping? && (m[t].queued ==> m[t].cpu == c && Clamp(m[t].prio) == p)
               && !m'[t].state.Sleeping? && (m'[t].queued ==> m'[t].cpu == c && Clamp(m'[t].prio) == p && t in s')
    requires |lists[c]| == PRIO_COUNT && |cpus[c].queues| == PRIO_COUNT
    requires CountersOk(k', lists[c][p := s']) && k'.sleepHead == cpus[c].sleepHead
    requires forall q | 0 <= q < PRIO_COUNT && q != p :: k'.queues[q] == cpus[c].queues[q]
    requires ListOk(m', k'.queues[p], s', c, p, now')
    requires forall t | t in lists[c][p] && t !in changed :: t in s'
    ensures Wf(cpus[c := k'], lists[c := lists[c][p := s']], asleep, m', now')
  {
    var cpus', lists' := cpus[c := k'], lists[c := lists[c][p := s']];
    forall d | 0 <= d < |cpus| ensures CpuOk(m', cpus'[d], lists'[d], asleep[d], d, now') {
      assert CpuOk(m, cpus[d], lists[d], asleep[d], d, now);
      CpuFrame(m, m', cpus[d], lists[d], asleep[d], d, now, now', changed, if d == c then p else -1);
    }
    forall u | u in m' ensures TaskOk(m', lists', asleep, u) {
      assert TaskOk(m, lists, asleep, u);
    }
  }

  lemma EnqueueKeeps(cpus: seq<CpuQueues>, lists: seq<seq<seq<Ptr>>>, asleep: seq<seq<Ptr>>, m: Tasks, now: nat,
                     c: nat, t: Ptr, prio: nat, affinity: int, now': nat)
    requires Wf(cpus, lists, asleep, m, now) && now <= now' && c < |cpus| && t in m && t != NULL && !m[t].queued && !m[t].state.Sleeping?
    ensures var p := Clamp(prio);
            && |cpus[c].queues| == |lists[c]| == PRIO_COUNT
            && (cpus[c].queues[p].tail != NULL ==> cpus[c].queues[p].tail in m && cpus[c].queues[p].tail != t)
            && Wf(cpus[c := EnqueuedCpu(cpus[c], p, t)], lists[c := lists[c][p := lists[c][p] + [t]]], asleep,
                  EnqueuedTasks(m, cpus[c].queues[p].tail, t, c, prio, affinity, now', cpus[c].minVruntime), now')
  {
    var p := Clamp(prio);
    assert CpuOk(m, cpus[c], lists[c], asleep[c], c, now);
    var k, q, s := cpus[c], cpus[c].queues[p], lists[c][p];
    AppendKeeps(m, q, s, t, c, prio, affinity, now, now', k.minVruntime);
    if s != [] {
      assert NodeOk(m, s, |s| - 1, c, p, now);
      SleepDisjoint(m, lists, asleep, q.tail, cpus, now);
    }
    CountersAppend(k, lists[c], p, t);
    Relink(cpus, lists, asleep, m, now, c, p, EnqueuedCpu(k, p, t), s + [t],
           EnqueuedTasks(m, q.tail, t, c, prio, affinity, now', k.minVruntime), now', if q.tail == NULL then {t} else {t, q.tail});
  }

  // ---------------------------------------------------------------- remove

  /** The link stores of __sched_remove_locked. */
  function RemovedTasks(m: Tasks, t: Ptr): Tasks
    requires t in m && (m[t].prev != NULL ==> m[t].prev in m) && (m[t].next != NULL ==> m[t].next in m)
  {
    var m1 := if m[t].prev == NULL then m else m[m[t].prev := m[m[t].prev].(next := m[t].next)];
    var m2 := if m[t].next == NULL then m1 else m1[m[t].next := m1[m[t].next].(prev := m[t].prev)];
    m2[t := m[t].(prev := NULL, next := NULL, queued := false)]
  }

  function Unlinked(q: Queue, l: Task): Queue {
    Queue(if l.prev == NULL then l.next else q.head, if l.next == NULL then l.prev else q.tail)
  }

  function RemovedCpu(k: CpuQueues, p: nat, l: Task): CpuQueues
    requires p < |k.queues|
  {
    var q := Unlinked(k.queues[p], l);
    k.(queues := k.queues[p := q],
       active := if q.head == NULL then k.active - {p} else k.active,
       total := if k.total > 0 then k.total - 1 else k.total)
  }

  /** No two entries of a list are the same task: their prev links would agree down to the
      head, whose prev link is NULL. */
  lemma {:induction false} EntriesApart(m: Tasks, q: Queue, s: seq<Ptr>, c: int, p: int, now: nat, i: int, j: int)
    requires ListOk(m, q, s, c, p, now) && 0 <= i < j < |s|
    ensures s[i] != s[j]
    decreases i
  {
    assert NodeOk(m, s, i, c, p, now) && NodeOk(m, s, j, c, p, now) && NodeOk(m, s, j - 1, c, p, now);
    if i > 0 {
      EntriesApart(m, q, s, c, p, now, i - 1, j - 1);
    }
  }

  /** Stamps do not decrease along a list. */
  lemma {:induction false} StampsAscend(m: Tasks, q: Queue, s: seq<Ptr>, c: int, p: int, now: nat, i: int, j: int)
    requires ListOk(m, q, s, c, p, now) && 0 <= i <= j < |s|
    ensures s[i] in m && s[j] in m && m[s[i]].stamp <= m[s[j]].stamp
    decreases j
  {
    assert NodeOk(m, s, i, c, p, now) && NodeOk(m, s, j, c, p, now);
    if i < j {
      StampsAscend(m, q, s, c, p, now, i, j - 1);
    }
  }

  lemma UnlinkKeepsNode(m: Tasks, q: Queue, s: seq<Ptr>, k: nat, c: int, p: int, now: nat, i: int)
    requires ListOk(m, q, s, c, p, now) && k < |s| && 0 <= i < |s| - 1
    requires s[k] in m && (k > 0 ==> s[k - 1] in m) && (k < |s| - 1 ==> s[k + 1] in m)
    requires m[s[k]].prev == Before(s, k) && m[s[k]].next == After(s, k)
    ensures NodeOk(RemovedTasks(m, s[k]), Without(s, k), i, c, p, now)
  {
    var s' := Without(s, k);
    var x := if i < k then i else i + 1;
    assert NodeOk(m, s, x, c, p, now) && s'[i] == s[x];
    if x < k { EntriesApart(m, q, s, c, p, now, x, k); } else { EntriesApart(m, q, s, c, p, now, k, x); }
    if x < k - 1 { EntriesApart(m, q, s, c, p, now, x, k - 1); }
    if x < k + 1 < |s| { EntriesApart(m, q, s, c, p, now, x, k + 1); }
    if x > k + 1 { EntriesApart(m, q, s, c, p, now, k + 1, x); }
    if k > 0 && x > k - 1 { EntriesApart(m, q, s, c, p, now, k - 1, x); }
    if i > 0 { StampsAscend(m, q, s, c, p, now, if i - 1 < k then i - 1 else i, x); }
  }

  lemma CountersRemove(k: CpuQueues, ls: seq<seq<Ptr>>, p: nat, l: Task, i: nat)
    requires CountersOk(k, ls) && p < PRIO_COUNT && i < |ls[p]| && NULL !in ls[p]
    requires k.queues[p] == Queue(First(ls[p]), Last(ls[p])) && l.prev == Before(ls[p], i) && l.next == After(ls[p], i)
    ensures CountersOk(RemovedCpu(k, p, l), ls[p := Without(ls[p], i)])
    ensures RemovedCpu(k, p, l).queues[p] == Queue(First(Without(ls[p], i)), Last(Without(ls[p], i)))
    ensures RemovedCpu(k, p, l).total == k.total - 1
  {
  }

  /** An entry of a list and its neighbours. */
  function Around(s: seq<Ptr>, i: nat): set<Ptr>
    requires i < |s|
  {
    {s[i]} + (if i > 0 then {s[i - 1]} else {}) + (if i < |s| - 1 then {s[i + 1]} else {})
  }

  lemma AroundHome(m: Tasks, q: Queue, s: seq<Ptr>, i: nat, c: int, p: int, now: nat)
    requires ListOk(m, q, s, c, p, now) && i < |s|
    ensures forall u | u in Around(s, i) :: u in m && m[u].queued && m[u].cpu == c && Clamp(m[u].prio) == p
    ensures s[i] in m && m[s[i]].prev == Before(s, i) && m[s[i]].next == After(s, i)
    ensures s[i] != NULL && m[s[i]].prev != s[i] && m[s[i]].next != s[i]
  {
    assert NodeOk(m, s, i, c, p, now);
    if i < |s| - 1 { assert NodeOk(m, s, i + 1, c, p, now); EntriesApart(m, q, s, c, p, now, i, i + 1); }
    if i > 0 { assert NodeOk(m, s, i - 1, c, p, now); EntriesApart(m, q, s, c, p, now, i - 1, i); }
  }

  lemma UnlinkKeeps(m: Tasks, q: Queue, s: seq<Ptr>, i: nat, c: int, p: int, now: nat)
    requires ListOk(m, q, s, c, p, now) && i < |s|
    requires s[i] in m && (i > 0 ==> s[i - 1] in m) && (i < |s| - 1 ==> s[i + 1] in m)
    requires m[s[i]].prev == Before(s, i) && m[s[i]].next == After(s, i)
    ensures forall x | 0 <= x < |s| - 1 :: NodeOk(RemovedTasks(m, s[i]), Without(s, i), x, c, p, now)
  {
    forall x | 0 <= x < |s| - 1 ensures NodeOk(RemovedTasks(m, s[i]), Without(s, i), x, c, p, now) {
      UnlinkKeepsNode(m, q, s, i, c, p, now, x);
    }
  }

  /** Removing entry i of list p keeps the representation; the counter never underflows. */
  lemma RemoveKeeps(cpus: seq<CpuQueues>, lists: seq<seq<seq<Ptr>>>, asleep: seq<seq<Ptr>>, m: Tasks, now: nat,
                    c: nat, p: nat, i: nat)
    requires Wf(cpus, lists, asleep, m, now) && c < |cpus| && p < PRIO_COUNT && p < |lists[c]| && i < |lists[c][p]|
    ensures var t := lists[c][p][i];
            && |cpus[c].queues| == |lists[c]| == PRIO_COUNT && t in m
            && (m[t].prev != NULL ==> m[t].prev in m && m[t].prev != t) && (m[t].next != NULL ==> m[t].next in m && m[t].next != t)
            && Clamp(m[t].prio) == p && m[t].cpu == c && m[t].queued
            && cpus[c].total > 0
            && Wf(cpus[c := RemovedCpu(cpus[c], p, m[t])], lists[c := lists[c][p := Without(lists[c][p], i)]], asleep,
                  RemovedTasks(m, t), now)
  {
    assert CpuOk(m, cpus[c], lists[c], asleep[c], c, now);
    var k, q, s := cpus[c], cpus[c].queues[p], lists[c][p];
    var t := s[i];
    AroundHome(m, q, s, i, c, p, now);
    forall u | u in Around(s, i) ensures !m[u].state.Sleeping? {
      SleepDisjoint(m, lists, asleep, u, cpus, now);
    }
    if NULL in s { OnlyHome(m, q, s, c, p, now, NULL); }
    CountersRemove(k, lists[c], p, m[t], i);
    UnlinkKeeps(m, q, s, i, c, p, now);
    WithoutKeeps(s, i);
    Relink(cpus, lists, asleep, m, now, c, p, RemovedCpu(k, p, m[t]), Without(s, i), RemovedTasks(m, t), now, Around(s, i));
  }

  // ---------------------------------------------------------------- sleep lists

  /** No two entries of a sleep list are the same task: their next links would agree up to
      the last entry, whose next link is NULL. */
  lemma {:induction false} SleepersApart(m: Tasks, head: Ptr, s: seq<Ptr>, c: int, i: int, j: int)
    requires SleepListOk(m, head, s, c) && 0 <= i < j < |s|
    ensures s[i] != s[j]
    decreases |s| - j
  {
    assert SleeperOk(m, s, i, c) && SleeperOk(m, s, j, c) && SleeperOk(m, s, i + 1, c);
    if j < |s| - 1 {
      SleepersApart(m, head, s, c, i + 1, j + 1);
    }
  }

  /** Changing one CPU's sleep list, where every changed task is queued nowhere. */
  lemma Resleep(cpus: seq<CpuQueues>, lists: seq<seq<seq<Ptr>>>, asleep: seq<seq<Ptr>>, m: Tasks, now: nat,
                c: nat, head': Ptr, s': seq<Ptr>, m': Tasks, changed: set<Ptr>)
    requires Wf(cpus, lists, asleep, m, now) && c < |cpus| && m'.Keys == m.Keys
    requires forall t | t in m && t !in changed :: m'[t] == m[t]
    requires forall t | t in changed ::
               && t in m && !m[t].queued && (m[t].state.Sleeping? ==> m[t].cpu == c)
               && !m'[t].queued && (m'[t].state.Sleeping? ==> m'[t].cpu == c && t in s')
    requires SleepListOk(m', head', s', c)
    requires forall t | t in asleep[c] && t !in changed :: t in s'
    ensures Wf(cpus[c := cpus[c].(sleepHead := head')], lists, asleep[c := s'], m', now)
  {
    var cpus', asleep' := cpus[c := cpus[c].(sleepHead := head')], asleep[c := s'];
    forall d | 0 <= d < |cpus| ensures CpuOk(m', cpus'[d], lists[d], asleep'[d], d, now) {
      assert CpuOk(m, cpus[d], lists[d], asleep[d], d, now);
      ResleepCpu(m, m', cpus[d], lists[d], asleep[d], d, now, changed, c);
    }
    forall u | u in m' ensures TaskOk(m', lists, asleep', u) {
      assert TaskOk(m, lists, asleep, u);
    }
  }

  lemma ResleepCpu(m: Tasks, m': Tasks, k: CpuQueues, ls: seq<seq<Ptr>>, sl: seq<Ptr>, d: int, now: nat,
                   changed: set<Ptr>, c: int)
    requires CpuOk(m, k, ls, sl, d, now) && m.Keys == m'.Keys
    requires forall t | t in m && t !in changed :: m'[t] == m[t]
    requires forall t | t in changed :: t in m && !m[t].queued && (m[t].state.Sleeping? ==> m[t].cpu == c)
    ensures forall q | 0 <= q < PRIO_COUNT :: ListOk(m', k.queues[q], ls[q], d, q, now)
    ensures d != c ==> SleepListOk(m', k.sleepHead, sl, d)
  {
    forall q | 0 <= q < PRIO_COUNT ensures ListOk(m', k.queues[q], ls[q], d, q, now) {
      forall t | t in ls[q] ensures t in m && t in m' && m'[t] == m[t] {
        OnlyHome(m, k.queues[q], ls[q], d, q, now, t);
      }
      ListFrame(m, m', k.queues[q], ls[q], d, q, now, now);
    }
    if d != c {
      forall t | t in sl ensures t in m && t in m' && m'[t] == m[t] {
        SleeperHome(m, k.sleepHead, sl, d, t);
      }
      SleepFrame(m, m', k.sleepHead, sl, d);
    }
  }

  /** sched_sleep_current's stores: an unqueued, awake task of CPU c goes to the front. */
  lemma SleepKeeps(cpus: seq<CpuQueues>, lists: seq<seq<seq<Ptr>>>, asleep: seq<seq<Ptr>>, m: Tasks, now: nat,
                   c: nat, t: Ptr, wake: nat)
    requires Wf(cpus, lists, asleep, m, now) && c < |cpus| && t in m && t != NULL
    requires !m[t].queued && !m[t].state.Sleeping? && m[t].cpu == c
    ensures Wf(cpus[c := cpus[c].(sleepHead := t)], lists, asleep[c := [t] + asleep[c]],
               m[t := m[t].(state := Sleeping, wakeTick := wake, sleepNext := cpus[c].sleepHead)], now)
  {
    assert CpuOk(m, cpus[c], lists[c], asleep[c], c, now);
    var s, s', m' := asleep[c], [t] + asleep[c], m[t := m[t].(state := Sleeping, wakeTick := wake, sleepNext := cpus[c].sleepHead)];
    forall i | 0 <= i < |s'| ensures SleeperOk(m', s', i, c) {
      if i > 0 { assert SleeperOk(m, s, i - 1, c); }
    }
    Resleep(cpus, lists, asleep, m, now, c, t, s', m', {t});
  }

  /** Unlinking entry i of a sleep list. */
  function UnsleptTasks(m: Tasks, s: seq<Ptr>, i: nat): Tasks
    requires i < |s| && s[i] in m && (i > 0 ==> s[i - 1] in m)
  {
    var m1 := if i == 0 then m else m[s[i - 1] := m[s[i - 1]].(sleepNext := m[s[i]].sleepNext)];
    m1[s[i] := m[s[i]].(sleepNext := NULL)]
  }

  /** Unlinking entry i of a sleep list and making the task READY. */
  function WokenTasks(m: Tasks, s: seq<Ptr>, i: nat): Tasks
    requires i < |s| && s[i] in m && (i > 0 ==> s[i - 1] in m)
  {
    var m1 := UnsleptTasks(m, s, i);
    m1[s[i] := m1[s[i]].(state := Ready, wakeTick := 0)]
  }

  lemma WakeKeeps(cpus: seq<CpuQueues>, lists: seq<seq<seq<Ptr>>>, asleep: seq<seq<Ptr>>, m: Tasks, now: nat,
                  c: nat, i: nat)
    requires Wf(cpus, lists, asleep, m, now) && c < |cpus| && i < |asleep[c]|
    ensures asleep[c][i] in m && (i > 0 ==> asleep[c][i - 1] in m)
    ensures Wf(cpus[c := cpus[c].(sleepHead := if i == 0 then m[asleep[c][i]].sleepNext else cpus[c].sleepHead)], lists,
               asleep[c := Without(asleep[c], i)], WokenTasks(m, asleep[c], i), now)
  {
    assert CpuOk(m, cpus[c], lists[c], asleep[c], c, now);
    var s, s' := asleep[c], Without(asleep[c], i);
    assert SleeperOk(m, s, i, c) && (i > 0 ==> SleeperOk(m, s, i - 1, c));
    var m' := WokenTasks(m, s, i);
    forall x | 0 <= x < |s'| ensures SleeperOk(m', s', x, c) {
      var y := if x < i then x else x + 1;
      assert SleeperOk(m, s, y, c) && s'[x] == s[y];
      if y < i { SleepersApart(m, cpus[c].sleepHead, s, c, y, i); } else { SleepersApart(m, cpus[c].sleepHead, s, c, i, y); }
      if y < i - 1 { SleepersApart(m, cpus[c].sleepHead, s, c, y, i - 1); }
      if i > 0 && y > i { SleepersApart(m, cpus[c].sleepHead, s, c, i - 1, y); }
    }
    WithoutKeeps(s, i);
    Resleep(cpus, lists, asleep, m, now, c, if i == 0 then m[s[i]].sleepNext else cpus[c].sleepHead, s', m',
            if i == 0 then {s[i]} else {s[i], s[i - 1]});
  }

  /** A task that is on no list may change state, CPU and priority. */
  lemma OffListKeeps(cpus: seq<CpuQueues>, lists: seq<seq<seq<Ptr>>>, asleep: seq<seq<Ptr>>, m: Tasks, now: nat,
                     t: Ptr, l: Task)
    requires Wf(cpus, lists, asleep, m, now) && t in m && !m[t].queued && !m[t].state.Sleeping? && !l.queued && !l.state.Sleeping?
    ensures Wf(cpus, lists, asleep, m[t := l], now)
  {
    var m' := m[t := l];
    forall d | 0 <= d < |cpus| ensures CpuOk(m', cpus[d], lists[d], asleep[d], d, now) {
      assert CpuOk(m, cpus[d], lists[d], asleep[d], d, now);
      CpuFrame(m, m', cpus[d], lists[d], asleep[d], d, now, now, {t}, -1);
    }
    forall u | u in m' ensures TaskOk(m', lists, asleep, u) {
      assert TaskOk(m, lists, asleep, u);
    }
  }

  /** A new task on no list. */
  lemma AdoptKeeps(cpus: seq<CpuQueues>, lists: seq<seq<seq<Ptr>>>, asleep: seq<seq<Ptr>>, m: Tasks, now: nat, t: Ptr, l: Task)
    requires Wf(cpus, lists, asleep, m, now) && t != NULL && t !in m && !l.queued && !l.state.Sleeping?
    ensures Wf(cpus, lists, asleep, m[t := l], now)
  {
    var m' := m[t := l];
    forall d | 0 <= d < |cpus| ensures CpuOk(m', cpus[d], lists[d], asleep[d], d, now) {
      assert CpuOk(m, cpus[d], lists[d], asleep[d], d, now);
      forall p | 0 <= p < PRIO_COUNT ensures ListOk(m', cpus[d].queues[p], lists[d][p], d, p, now) {
        forall u | u in lists[d][p] ensures u in m && m'[u] == m[u] { OnlyHome(m, cpus[d].queues[p], lists[d][p], d, p, now, u); }
        ListFrame(m, m', cpus[d].queues[p], lists[d][p], d, p, now, now);
      }
      forall u | u in asleep[d] ensures u in m && m'[u] == m[u] { SleeperHome(m, cpus[d].sleepHead, asleep[d], d, u); }
      SleepFrame(m, m', cpus[d].sleepHead, asleep[d], d);
    }
    forall u | u in m' ensures TaskOk(m', lists, asleep, u) { assert u != t ==> TaskOk(m, lists, asleep, u); }
  }

  /** A task that does not sleep, queued or not, changes its state. */
  lemma StateKeeps(cpus: seq<CpuQueues>, lists: seq<seq<seq<Ptr>>>, asleep: seq<seq<Ptr>>, m: Tasks, now: nat,
                   t: Ptr, st: Status, wake: nat)
    requires Wf(cpus, lists, asleep, m, now) && t in m && !m[t].state.Sleeping? && !st.Sleeping?
    ensures Wf(cpus, lists, asleep, m[t := m[t].(state := st, wakeTick := wake)], now)
  {
    var m' := m[t := m[t].(state := st, wakeTick := wake)];
    forall d | 0 <= d < |cpus| ensures CpuOk(m', cpus[d], lists[d], asleep[d], d, now) {
      assert CpuOk(m, cpus[d], lists[d], asleep[d], d, now);
      forall p | 0 <= p < PRIO_COUNT ensures ListOk(m', cpus[d].queues[p], lists[d][p], d, p, now) {
        forall i | 0 <= i < |lists[d][p]| ensures NodeOk(m', lists[d][p], i, d, p, now) { assert NodeOk(m, lists[d][p], i, d, p, now); }
      }
      forall u | u in asleep[d] ensures u in m && m'[u] == m[u] { SleeperHome(m, cpus[d].sleepHead, asleep[d], d, u); }
      SleepFrame(m, m', cpus[d].sleepHead, asleep[d], d);
    }
    forall u | u in m' ensures TaskOk(m', lists, asleep, u) { assert TaskOk(m, lists, asleep, u); }
  }

  /** A queued task does not sleep. */
  lemma SleepDisjoint(m: Tasks, lists: seq<seq<seq<Ptr>>>, asleep: seq<seq<Ptr>>, t: Ptr, cpus: seq<CpuQueues>, now: nat)
    requires Wf(cpus, lists, asleep, m, now) && t in m && m[t].queued
    ensures !m[t].state.Sleeping?
  {
    assert TaskOk(m, lists, asleep, t);
    if m[t].state.Sleeping? {
      var c := m[t].cpu;
      assert CpuOk(m, cpus[c], lists[c], asleep[c], c, now);
      SleeperHome(m, cpus[c].sleepHead, asleep[c], c, t);
    }
  }
}
