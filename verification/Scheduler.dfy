/** The runqueue operations of system/process/scheduler.c, in place on the task links. */
module Scheduler {
  import opened Common
  import opened RunQueue

  const STARVATION_THRESHOLD := 1250
  const SCHED_VRUNTIME_STEP := 100 * 1024
  const TICKS_MAX := 0xFFFF_FFFF_FFFF_FFFF

  type Lists = seq<seq<seq<Ptr>>>

  predicate Starved(stamp: nat, now: nat) {
    now > stamp && now - stamp > STARVATION_THRESHOLD
  }

  /** __builtin_ctz of a bitmap of list numbers. */
  function Lowest(s: set<nat>): (p: nat)
    requires exists q :: q < PRIO_COUNT && q in s
    ensures p < PRIO_COUNT && p in s && forall q | q in s :: p <= q
  {
    if 0 in s then 0 else if 1 in s then 1 else if 2 in s then 2 else if 3 in s then 3 else if 4 in s then 4 else 5
  }

  /** 31 - __builtin_clz of a bitmap of list numbers. */
  function Highest(s: set<nat>): (p: nat)
    requires exists q :: q < PRIO_COUNT && q in s
    ensures p < PRIO_COUNT && p in s && forall q | q < PRIO_COUNT && q in s :: q <= p
  {
    if 5 in s then 5 else if 4 in s then 4 else if 3 in s then 3 else if 2 in s then 2 else if 1 in s then 1 else 0
  }

  /** The lists after appending t to list p of CPU c. */
  ghost function Pushed(lists: Lists, c: nat, p: nat, t: Ptr): Lists
    requires c < |lists| && p < |lists[c]|
  {
    lists[c := lists[c][p := lists[c][p] + [t]]]
  }

  /** The lists after dropping entry i of list p of CPU c. */
  ghost function Dropped(lists: Lists, c: nat, p: nat, i: nat): Lists
    requires c < |lists| && p < |lists[c]| && i < |lists[c][p]|
  {
    lists[c := lists[c][p := Without(lists[c][p], i)]]
  }

  /** Some task of the list has waited past the threshold. */
  ghost predicate HoldsStarved(m: Tasks, s: seq<Ptr>, now: nat) {
    exists i :: 0 <= i < |s| && s[i] in m && Starved(m[s[i]].stamp, now)
  }

  /** The anti-starvation rule: the lowest priority holding a starved task if there is
      one, else the highest priority holding any task. */
  ghost predicate PickRule(m: Tasks, ls: seq<seq<Ptr>>, now: nat, p: nat)
    requires |ls| == PRIO_COUNT
  {
    && p < PRIO_COUNT && ls[p] != []
    && if exists q :: 0 <= q < PRIO_COUNT && HoldsStarved(m, ls[q], now) then
         HoldsStarved(m, ls[p], now) && forall q | 0 <= q < p :: !HoldsStarved(m, ls[q], now)
       else
         forall q | p < q < PRIO_COUNT :: ls[q] == []
  }

  /** Waiting times decrease along a list, so a list holds a starved task iff its head is
      one, and the head has waited longest. */
  lemma HeadWaitsLongest(m: Tasks, q: Queue, s: seq<Ptr>, c: int, p: int, now: nat, t: nat)
    requires ListOk(m, q, s, c, p, now)
    ensures HoldsStarved(m, s, t) <==> s != [] && s[0] in m && Starved(m[s[0]].stamp, t)
    ensures forall i | 0 <= i < |s| :: s[0] in m && s[i] in m && m[s[0]].stamp <= m[s[i]].stamp
  {
    forall i | 0 <= i < |s| ensures s[0] in m && s[i] in m && m[s[0]].stamp <= m[s[i]].stamp {
      StampsAscend(m, q, s, c, p, now, 0, i);
    }
  }

  /** The first task of a list was queued no later than any other. */
  ghost predicate WaitsLongest(m: Tasks, s: seq<Ptr>) {
    forall u | u in s :: u in m && s[0] in m && m[s[0]].stamp <= m[u].stamp
  }

  lemma OldestFirst(m: Tasks, q: Queue, s: seq<Ptr>, c: int, p: int, now: nat)
    requires ListOk(m, q, s, c, p, now)
    ensures WaitsLongest(m, s)
  {
    forall u | u in s ensures u in m && s[0] in m && m[s[0]].stamp <= m[u].stamp {
      var i :| 0 <= i < |s| && s[i] == u;
      StampsAscend(m, q, s, c, p, now, 0, i);
    }
  }

  // ---------------------------------------------------------------- the rule on tasks

  /** Task t is queued on CPU c. */
  predicate QueuedOn(m: Tasks, c: nat, t: Ptr) { t in m && m[t].queued && m[t].cpu == c }

  /** Priority a comes before priority b; all values from 5, PRIO_CRITICAL, on are alike. */
  predicate Outranks(a: nat, b: nat) { a > b && b < 5 }

  /** Neither comes before the other. */
  predicate Ties(a: nat, b: nat) { !Outranks(a, b) && !Outranks(b, a) }

  /** The task has waited more than 1250 ticks. */
  predicate Overdue(e: Task, now: nat) { now > e.stamp + 1250 }

  ghost predicate SomeOverdue(m: Tasks, c: nat, now: nat) {
    exists u :: QueuedOn(m, c, u) && Overdue(m[u], now)
  }

  /** What the pick of CPU c is to be, from the fields of its tasks: with an overdue task on the
      CPU it is overdue and no overdue task comes after it, otherwise none comes before it; and
      of the tasks that tie with it none was queued earlier. */
  ghost predicate BestChoice(m: Tasks, c: nat, now: nat, t: Ptr) {
    && QueuedOn(m, c, t)
    && (if SomeOverdue(m, c, now)
        then Overdue(m[t], now) && forall u | QueuedOn(m, c, u) && Overdue(m[u], now) :: !Outranks(m[t].prio, m[u].prio)
        else forall u | QueuedOn(m, c, u) :: !Outranks(m[u].prio, m[t].prio))
    && forall u | QueuedOn(m, c, u) && Ties(m[u].prio, m[t].prio) :: m[t].stamp <= m[u].stamp
  }

  /** A queued task is on the list of its priority, and every task of a list is queued. */
  lemma OnList(cpus: seq<CpuQueues>, lists: Lists, asleep: seq<seq<Ptr>>, m: Tasks, clock: nat, c: nat, u: Ptr)
    requires Wf(cpus, lists, asleep, m, clock) && c < |cpus|
    ensures |lists| == |cpus| && |lists[c]| == PRIO_COUNT
    ensures QueuedOn(m, c, u) ==> u in lists[c][Clamp(m[u].prio)]
    ensures forall p | 0 <= p < PRIO_COUNT && u in lists[c][p] :: QueuedOn(m, c, u) && Clamp(m[u].prio) == p
  {
    assert CpuOk(m, cpus[c], lists[c], asleep[c], c, clock);
    if QueuedOn(m, c, u) { assert TaskOk(m, lists, asleep, u); }
    forall p | 0 <= p < PRIO_COUNT && u in lists[c][p] ensures QueuedOn(m, c, u) && Clamp(m[u].prio) == p {
      OnlyHome(m, cpus[c].queues[p], lists[c][p], c, p, clock, u);
    }
  }

  lemma HoldsOverdue(cpus: seq<CpuQueues>, lists: Lists, asleep: seq<seq<Ptr>>, m: Tasks, clock: nat, c: nat, now: nat, u: Ptr)
    requires Wf(cpus, lists, asleep, m, clock) && c < |cpus|
    ensures |lists| == |cpus| && |lists[c]| == PRIO_COUNT
    ensures QueuedOn(m, c, u) && Overdue(m[u], now) ==> HoldsStarved(m, lists[c][Clamp(m[u].prio)], now)
  {
    OnList(cpus, lists, asleep, m, clock, c, u);
    if QueuedOn(m, c, u) && Overdue(m[u], now) {
      var s := lists[c][Clamp(m[u].prio)];
      var i :| 0 <= i < |s| && s[i] == u;
      assert Starved(m[s[i]].stamp, now);
    }
  }

  lemma StarvedIsOverdue(cpus: seq<CpuQueues>, lists: Lists, asleep: seq<seq<Ptr>>, m: Tasks, clock: nat, c: nat, now: nat, q: nat)
    requires Wf(cpus, lists, asleep, m, clock) && c < |cpus| && q < PRIO_COUNT
    ensures |lists| == |cpus| && |lists[c]| == PRIO_COUNT
    ensures HoldsStarved(m, lists[c][q], now) ==>
              SomeOverdue(m, c, now) && lists[c][q] != [] && lists[c][q][0] in m && Overdue(m[lists[c][q][0]], now)
  {
    assert CpuOk(m, cpus[c], lists[c], asleep[c], c, clock);
    var s := lists[c][q];
    HeadWaitsLongest(m, cpus[c].queues[q], s, c, q, clock, now);
    if HoldsStarved(m, s, now) {
      OnList(cpus, lists, asleep, m, clock, c, s[0]);
      assert s[0] in s && QueuedOn(m, c, s[0]) && Overdue(m[s[0]], now);
    }
  }

  /** The anti-starvation rule over lists is that choice. */
  lemma PickMeans(cpus: seq<CpuQueues>, lists: Lists, asleep: seq<seq<Ptr>>, m: Tasks, clock: nat, c: nat, now: nat, p: nat)
    requires Wf(cpus, lists, asleep, m, clock) && c < |cpus| && |lists| == |cpus| && |lists[c]| == PRIO_COUNT
    requires PickRule(m, lists[c], now, p) && WaitsLongest(m, lists[c][p])
    ensures BestChoice(m, c, now, lists[c][p][0])
  {
    var t := lists[c][p][0];
    assert t in lists[c][p];
    OnList(cpus, lists, asleep, m, clock, c, t);
    StarvedIsOverdue(cpus, lists, asleep, m, clock, c, now, p);
    if SomeOverdue(m, c, now) {
      var v :| QueuedOn(m, c, v) && Overdue(m[v], now);
      HoldsOverdue(cpus, lists, asleep, m, clock, c, now, v);
      forall u | QueuedOn(m, c, u) && Overdue(m[u], now) ensures !Outranks(m[t].prio, m[u].prio) {
        HoldsOverdue(cpus, lists, asleep, m, clock, c, now, u);
      }
    } else {
      forall q: nat | q < PRIO_COUNT ensures !HoldsStarved(m, lists[c][q], now) { StarvedIsOverdue(cpus, lists, asleep, m, clock, c, now, q); }
      forall u | QueuedOn(m, c, u) ensures !Outranks(m[u].prio, m[t].prio) { OnList(cpus, lists, asleep, m, clock, c, u); }
    }
    forall u | QueuedOn(m, c, u) && Ties(m[u].prio, m[t].prio) ensures m[t].stamp <= m[u].stamp {
      OnList(cpus, lists, asleep, m, clock, c, u);
    }
  }

  /** What may be stolen from CPU c: no task comes before it, and of those that tie with it none
      was queued later. */
  ghost predicate LastChoice(m: Tasks, c: nat, t: Ptr) {
    && QueuedOn(m, c, t)
    && forall u | QueuedOn(m, c, u) :: !Outranks(m[u].prio, m[t].prio) && (Ties(m[u].prio, m[t].prio) ==> m[u].stamp <= m[t].stamp)
  }

  lemma TailMeans(cpus: seq<CpuQueues>, lists: Lists, asleep: seq<seq<Ptr>>, m: Tasks, clock: nat, c: nat, p: nat)
    requires Wf(cpus, lists, asleep, m, clock) && c < |cpus| && |lists| == |cpus| && |lists[c]| == PRIO_COUNT && p < PRIO_COUNT
    requires lists[c][p] != [] && forall q | p < q < PRIO_COUNT :: lists[c][q] == []
    ensures LastChoice(m, c, Last(lists[c][p]))
  {
    assert CpuOk(m, cpus[c], lists[c], asleep[c], c, clock);
    var s := lists[c][p];
    var t := s[|s| - 1];
    assert t in s;
    OnList(cpus, lists, asleep, m, clock, c, t);
    forall u | QueuedOn(m, c, u) ensures !Outranks(m[u].prio, m[t].prio) && (Ties(m[u].prio, m[t].prio) ==> m[u].stamp <= m[t].stamp) {
      OnList(cpus, lists, asleep, m, clock, c, u);
      if Ties(m[u].prio, m[t].prio) {
        var i :| 0 <= i < |s| && s[i] == u;
        StampsAscend(m, cpus[c].queues[p], s, c, p, clock, i, |s| - 1);
      }
    }
  }

  lemma NoneQueued(cpus: seq<CpuQueues>, lists: Lists, asleep: seq<seq<Ptr>>, m: Tasks, clock: nat, c: nat)
    requires Wf(cpus, lists, asleep, m, clock) && c < |cpus|
    ensures |lists| == |cpus| && |lists[c]| == PRIO_COUNT
    ensures (forall q | 0 <= q < PRIO_COUNT :: lists[c][q] == []) <==> (forall u :: !QueuedOn(m, c, u))
  {
    assert CpuOk(m, cpus[c], lists[c], asleep[c], c, clock);
    forall u ensures QueuedOn(m, c, u) ==> lists[c][Clamp(m[u].prio)] != [] { OnList(cpus, lists, asleep, m, clock, c, u); }
    forall q | 0 <= q < PRIO_COUNT && lists[c][q] != [] ensures QueuedOn(m, c, lists[c][q][0]) {
      assert lists[c][q][0] in lists[c][q];
      OnList(cpus, lists, asleep, m, clock, c, lists[c][q][0]);
    }
  }

  /** What a pick that is not overdue is charged. */
  function ChargeOf(prio: nat): nat {
    match prio
    case 0 => 17066
    case 1 => 20480
    case 2 => 25600
    case 3 => 34133
    case 4 => 51200
    case _ => 102400
  }

  /** The step over the weight of the priority. */
  method StepOf(p: nat) returns (step: nat)
    requires p < PRIO_COUNT
    ensures forall prio: nat | Clamp(prio) == p :: step == ChargeOf(prio)
  {
    var weight := PRIO_COUNT - p;
    step := SCHED_VRUNTIME_STEP / weight;
    assert p == 0 ==> step == 102400 / 6;
    assert p == 1 ==> step == 102400 / 5;
    assert p == 2 ==> step == 102400 / 4;
    assert p == 3 ==> step == 102400 / 3;
    assert p == 4 ==> step == 102400 / 2;
    assert p == 5 ==> step == 102400 / 1;
  }

  /** Tasks other than the given ones changed at most their runqueue links. */
  ghost predicate OnlyLinks(m: Tasks, m': Tasks, others: set<Ptr>) {
    && m'.Keys == m.Keys
    && forall u | u in m && u !in others :: m'[u] == m[u].(prev := m'[u].prev, next := m'[u].next)
  }

  lemma OnlyLinksUpdate(m: Tasks, m': Tasks, t: Ptr, e: Task)
    requires OnlyLinks(m, m', {t}) && t in m
    ensures OnlyLinks(m, m'[t := e], {t})
  {
  }

  /** The stores of __sched_enqueue_locked for a task that is not queued. */
  method EnqueueStores(k: CpuQueues, m: Tasks, t: Ptr, c: nat, prio: nat, affinity: int, now: nat)
    returns (k': CpuQueues, m': Tasks)
    requires |k.queues| == PRIO_COUNT && t in m
    requires k.queues[Clamp(prio)].tail != NULL ==> k.queues[Clamp(prio)].tail in m && k.queues[Clamp(prio)].tail != t
    ensures k' == EnqueuedCpu(k, Clamp(prio), t)
    ensures m' == EnqueuedTasks(m, k.queues[Clamp(prio)].tail, t, c, prio, affinity, now, k.minVruntime)
    ensures OnlyLinks(m, m', {t})
  {
    k', m' := k, m;
    var entry := m[t].(prio := prio, affinity := affinity, cpu := c);
    var p := Clamp(prio);
    entry := entry.(stamp := now);
    if entry.vruntime < k.minVruntime {
      entry := entry.(vruntime := k.minVruntime);
    }
    var tail := k.queues[p].tail;
    entry := entry.(next := NULL, prev := tail, queued := true);
    if tail != NULL {
      m' := m'[tail := m'[tail].(next := t)];
      k' := k'.(queues := k'.queues[p := Queue(k'.queues[p].head, t)]);
    } else {
      k' := k'.(queues := k'.queues[p := Queue(t, t)]);
    }
    m' := m'[t := entry];
    k' := k'.(active := k'.active + {p}, total := k'.total + 1);
  }

  /** The stores of __sched_remove_locked for a queued task. */
  method RemoveStores(k: CpuQueues, m: Tasks, t: Ptr) returns (k': CpuQueues, m': Tasks)
    requires |k.queues| == PRIO_COUNT && t in m
    requires m[t].prev != NULL ==> m[t].prev in m && m[t].prev != t
    requires m[t].next != NULL ==> m[t].next in m && m[t].next != t
    ensures k' == RemovedCpu(k, Clamp(m[t].prio), m[t])
    ensures m' == RemovedTasks(m, t)
    ensures OnlyLinks(m, m', {t})
  {
    k', m' := k, m;
    var entry := m[t];
    var p := Clamp(entry.prio);
    var q := k.queues[p];
    if entry.prev != NULL {
      m' := m'[entry.prev := m'[entry.prev].(next := entry.next)];
    } else {
      q := q.(head := entry.next);
    }
    if entry.next != NULL {
      m' := m'[entry.next := m'[entry.next].(prev := entry.prev)];
    } else {
      q := q.(tail := entry.prev);
    }
    k' := k'.(queues := k'.queues[p := q]);
    if q.head == NULL {
      k' := k'.(active := k'.active - {p});
    }
    m' := m'[t := entry.(next := NULL, prev := NULL, queued := false)];
    if k'.total > 0 {
      k' := k'.(total := k'.total - 1);
    }
  }

  /** The walk of a sleep list in sched_wake_task: unlinks t if it is there. */
  method UnlinkSleeper(head: Ptr, m: Tasks, t: Ptr, ghost s: seq<Ptr>, ghost c: int)
    returns (head': Ptr, m': Tasks, ghost i: nat)
    requires SleepListOk(m, head, s, c)
    ensures t !in s ==> head' == head && m' == m
    ensures t in s ==>
              && i < |s| && s[i] == t && t in m && (i > 0 ==> s[i - 1] in m && s[i - 1] != t)
              && head' == (if i == 0 then m[t].sleepNext else head) && m' == UnsleptTasks(m, s, i)
  {
    head', m', i := head, m, 0;
    var prev, p := NULL, head;
    while p != NULL
      invariant i <= |s| && p == (if i < |s| then s[i] else NULL) && prev == (if i > 0 then s[i - 1] else NULL)
      invariant t !in s[..i] && head' == head && m' == m
      decreases |s| - i
    {
      assert SleeperOk(m, s, i, c);
      if p == t {
        if i > 0 { assert SleeperOk(m, s, i - 1, c) && s[i - 1] in s[..i]; }
        if prev != NULL {
          m' := m'[prev := m'[prev].(sleepNext := m'[p].sleepNext)];
        } else {
          head' := m'[p].sleepNext;
        }
        m' := m'[p := m'[p].(sleepNext := NULL)];
        return;
      }
      prev := p;
      p := m[p].sleepNext;
      if i + 1 < |s| { assert SleeperOk(m, s, i + 1, c); }
      i := i + 1;
    }
    assert i < |s| ==> SleeperOk(m, s, i, c);
  }

  /** process_tick's stores that take a sleeper off the list, given the one before it. */
  method DropSleeper(m: Tasks, head: Ptr, prev: Ptr, t: Ptr) returns (m': Tasks, head': Ptr)
    requires t in m && prev != t && (prev != NULL ==> prev in m)
    ensures head' == (if prev != NULL then head else m[t].sleepNext)
    ensures m' == (if prev != NULL then m[prev := m[prev].(sleepNext := m[t].sleepNext)] else m)[t := m[t].(sleepNext := NULL)]
  {
    m', head' := m, head;
    if prev != NULL {
      m' := m'[prev := m'[prev].(sleepNext := m'[t].sleepNext)];
    } else {
      head' := m'[t].sleepNext;
    }
    m' := m'[t := m'[t].(sleepNext := NULL)];
  }

  /** The sleepers whose tick has come, and those whose has not, in list order. */
  function Due(m: Tasks, s: seq<Ptr>, now: nat): seq<Ptr> {
    if s == [] then [] else
    Due(m, s[..|s| - 1], now) + if s[|s| - 1] in m && now >= m[s[|s| - 1]].wakeTick then [s[|s| - 1]] else []
  }

  function NotDue(m: Tasks, s: seq<Ptr>, now: nat): seq<Ptr> {
    if s == [] then [] else
    NotDue(m, s[..|s| - 1], now) + if s[|s| - 1] in m && now >= m[s[|s| - 1]].wakeTick then [] else [s[|s| - 1]]
  }

  /** Appending tasks one by one to the lists of their priorities. */
  function PushAll(ls: seq<seq<Ptr>>, m: Tasks, s: seq<Ptr>): (r: seq<seq<Ptr>>)
    requires |ls| == PRIO_COUNT
    ensures |r| == PRIO_COUNT
  {
    if s == [] || s[|s| - 1] !in m then ls else
    var r, p := PushAll(ls, m, s[..|s| - 1]), Clamp(m[s[|s| - 1]].prio);
    r[p := r[p] + [s[|s| - 1]]]
  }

  /** Those whose tick has come are the sleepers with a wake tick not after now, and the two
      share the list out. */
  lemma {:induction false} DueExactly(m: Tasks, s: seq<Ptr>, now: nat, u: Ptr)
    requires forall v | v in s :: v in m
    ensures u in Due(m, s, now) <==> u in s && m[u].wakeTick <= now
    ensures u in NotDue(m, s, now) <==> u in s && m[u].wakeTick > now
    ensures |Due(m, s, now)| + |NotDue(m, s, now)| == |s|
  {
    if s != [] {
      DueExactly(m, s[..|s| - 1], now, u);
      assert s == s[..|s| - 1] + [s[|s| - 1]];
    }
  }

  /** Each task that is pushed is on the list of its priority. */
  lemma {:induction false} PushAllHas(ls: seq<seq<Ptr>>, m: Tasks, s: seq<Ptr>, u: Ptr)
    requires |ls| == PRIO_COUNT && (forall v | v in s :: v in m) && u in s
    ensures u in PushAll(ls, m, s)[Clamp(m[u].prio)]
  {
    var r := s[..|s| - 1];
    assert s == r + [s[|s| - 1]];
    if u in r { PushAllHas(ls, m, r, u); }
  }

  /** The choice made by sched_pick_next on a CPU with queued tasks: the list to serve,
      and whether its head is served because it starved. */
  method ChooseList(k: CpuQueues, m: Tasks, now: nat, ghost ls: seq<seq<Ptr>>, ghost sl: seq<Ptr>, ghost c: int, ghost clock: nat)
    returns (p: nat, starved: bool)
    requires CpuOk(m, k, ls, sl, c, clock) && k.active != {}
    ensures PickRule(m, ls, now, p) && k.queues[p].head == ls[p][0]
    ensures starved <==> HoldsStarved(m, ls[p], now)
  {
    Heads(m, k, ls, sl, c, clock, now);
    var check := k.active;
    while check != {}
      invariant check <= k.active
      invariant forall q | q in k.active && q !in check :: q < PRIO_COUNT && !HoldsStarved(m, ls[q], now)
      invariant forall q, r | q in k.active && q !in check && r in check :: q < r
    {
      p := Lowest(check);
      var head := k.queues[p].head;
      if head != NULL && Starved(m[head].stamp, now) {
        assert forall q | 0 <= q < p :: !HoldsStarved(m, ls[q], now);
        assert HoldsStarved(m, ls[p], now);
        return p, true;
      }
      assert !HoldsStarved(m, ls[p], now);
      check := check - {p};
    }
    p, starved := Highest(k.active), false;
    assert forall q | 0 <= q < PRIO_COUNT :: !HoldsStarved(m, ls[q], now);
  }

  ghost predicate IsTail(m: Tasks, s: seq<Ptr>, t: Ptr, c: int, p: int) {
    && s != [] && s[|s| - 1] == t && t != NULL && t in m && m[t].queued && m[t].cpu == c && Clamp(m[t].prio) == p
    && forall i | 0 <= i < |s| - 1 :: s[i] != t
  }

  /** List p is the highest that is not empty, and its last task may run on the thief's CPU. */
  predicate Stealable(m: Tasks, ls: seq<seq<Ptr>>, p: nat, thief: nat)
    requires |ls| == PRIO_COUNT
  {
    && p < PRIO_COUNT && ls[p] != [] && (forall q | p < q < PRIO_COUNT :: ls[q] == [])
    && Last(ls[p]) in m && (m[Last(ls[p])].affinity == -1 || m[Last(ls[p])].affinity == thief)
  }

  /** The tail of the highest non-empty list is its last task, once. */
  lemma HighestTail(m: Tasks, k: CpuQueues, ls: seq<seq<Ptr>>, sl: seq<Ptr>, c: int, clock: nat)
    requires CpuOk(m, k, ls, sl, c, clock) && k.active != {}
    ensures exists q :: q < PRIO_COUNT && q in k.active
    ensures var p := Highest(k.active);
            IsTail(m, ls[p], k.queues[p].tail, c, p) && forall q | p < q < PRIO_COUNT :: ls[q] == []
  {
    var x :| x in k.active;
    var p := Highest(k.active);
    var s := ls[p];
    assert NodeOk(m, s, |s| - 1, c, p, clock);
    forall i | 0 <= i < |s| - 1 ensures s[i] != s[|s| - 1] {
      EntriesApart(m, k.queues[p], s, c, p, clock, i, |s| - 1);
    }
  }

  /** The head of every non-empty list is a task of that list, and tells whether the list
      holds a starved task. */
  lemma Heads(m: Tasks, k: CpuQueues, ls: seq<seq<Ptr>>, sl: seq<Ptr>, c: int, clock: nat, now: nat)
    requires CpuOk(m, k, ls, sl, c, clock)
    ensures forall q | 0 <= q < PRIO_COUNT && ls[q] != [] ::
              && k.queues[q].head == ls[q][0] != NULL && ls[q][0] in m
              && m[ls[q][0]].queued && m[ls[q][0]].cpu == c && Clamp(m[ls[q][0]].prio) == q
              && (HoldsStarved(m, ls[q], now) <==> Starved(m[ls[q][0]].stamp, now))
    ensures forall q | 0 <= q < PRIO_COUNT && ls[q] == [] :: !HoldsStarved(m, ls[q], now)
  {
    forall q | 0 <= q < PRIO_COUNT && ls[q] != []
      ensures && k.queues[q].head == ls[q][0] != NULL && ls[q][0] in m
              && m[ls[q][0]].queued && m[ls[q][0]].cpu == c && Clamp(m[ls[q][0]].prio) == q
              && (HoldsStarved(m, ls[q], now) <==> Starved(m[ls[q][0]].stamp, now))
    {
      assert NodeOk(m, ls[q], 0, c, q, clock);
      HeadWaitsLongest(m, k.queues[q], ls[q], c, q, clock, now);
    }
  }

  /** A tick has come to entry i of the list s: a is what the list is now, with the walk at
      entry j of it, and ls are the CPU's queues. */
  ghost predicate Walked(m: Tasks, s: seq<Ptr>, ls0: seq<seq<Ptr>>, i: nat, now: nat, a: seq<Ptr>, j: nat, ls: seq<seq<Ptr>>) {
    && i <= |s| && j <= |a| && |ls0| == PRIO_COUNT
    && a[j..] == s[i..] && a[..j] == NotDue(m, s[..i], now)
    && ls == PushAll(ls0, m, Due(m, s[..i], now))
  }

  lemma WalkedDue(m: Tasks, s: seq<Ptr>, ls0: seq<seq<Ptr>>, i: nat, now: nat, a: seq<Ptr>, j: nat, ls: seq<seq<Ptr>>)
    requires Walked(m, s, ls0, i, now, a, j, ls) && i < |s| && s[i] in m && now >= m[s[i]].wakeTick
    ensures j < |a| && a[j] == s[i]
    ensures var p := Clamp(m[s[i]].prio); Walked(m, s, ls0, i + 1, now, Without(a, j), j, ls[p := ls[p] + [s[i]]])
  {
    assert a[j..][0] == s[i] && a[j..][1..] == s[i..][1..];
    DueMore(m, s, i, now);
    PushMore(ls0, m, Due(m, s[..i], now), s[i]);
    var b := Without(a, j);
    assert b[..j] == a[..j] && b[j..] == a[j + 1..] == a[j..][1..] == s[i + 1..];
  }

  lemma DueMore(m: Tasks, s: seq<Ptr>, i: nat, now: nat)
    requires i < |s| && s[i] in m && now >= m[s[i]].wakeTick
    ensures Due(m, s[..i + 1], now) == Due(m, s[..i], now) + [s[i]] && NotDue(m, s[..i + 1], now) == NotDue(m, s[..i], now)
  {
    assert s[..i + 1][..i] == s[..i];
  }

  lemma PushMore(ls: seq<seq<Ptr>>, m: Tasks, d: seq<Ptr>, t: Ptr)
    requires |ls| == PRIO_COUNT && t in m
    ensures var r, p := PushAll(ls, m, d), Clamp(m[t].prio); PushAll(ls, m, d + [t]) == r[p := r[p] + [t]]
  {
    assert (d + [t])[..|d|] == d;
  }

  lemma WalkedSkip(m: Tasks, s: seq<Ptr>, ls0: seq<seq<Ptr>>, i: nat, now: nat, a: seq<Ptr>, j: nat, ls: seq<seq<Ptr>>)
    requires Walked(m, s, ls0, i, now, a, j, ls) && i < |s| && s[i] in m && now < m[s[i]].wakeTick
    ensures j < |a| && a[j] == s[i] && Walked(m, s, ls0, i + 1, now, a, j + 1, ls)
  {
    assert a[j..][0] == s[i] && a[j..][1..] == s[i..][1..];
    assert s[..i + 1][..i] == s[..i];
    assert Due(m, s[..i + 1], now) == Due(m, s[..i], now);
    assert a[..j + 1] == a[..j] + [a[j]];
    assert a[j + 1..] == a[j..][1..] == s[i + 1..];
  }

  lemma WalkedAll(m: Tasks, s: seq<Ptr>, ls0: seq<seq<Ptr>>, i: nat, now: nat, a: seq<Ptr>, j: nat, ls: seq<seq<Ptr>>)
    requires Walked(m, s, ls0, i, now, a, j, ls) && j == |a|
    ensures a == NotDue(m, s, now) && ls == PushAll(ls0, m, Due(m, s, now))
  {
    assert |a[j..]| == 0 && |s[i..]| == 0;
    assert s[..i] == s && a[..j] == a;
  }

  /** Fields that a tick leaves alone in tasks it has not come to. */
  ghost predicate Untouched(m: Tasks, m': Tasks, s: seq<Ptr>) {
    && m'.Keys == m.Keys
    && forall u | u in s :: u in m && m'[u].wakeTick == m[u].wakeTick && m'[u].prio == m[u].prio && m'[u].affinity == m[u].affinity
  }

  /** Task t has left a sleep list. */
  ghost predicate Awake(m: Tasks, m': Tasks, t: Ptr) {
    && m'.Keys == m.Keys && t in m && !m[t].queued && m'[t] == m[t].(sleepNext := NULL, state := Ready, wakeTick := 0)
    && forall u | u in m && u != t :: m'[u] == m[u].(sleepNext := m'[u].sleepNext)
  }

  lemma WokenBoth(m: Tasks, m1: Tasks, m2: Tasks, t: Ptr)
    requires Awake(m, m1, t) && OnlyLinks(m1, m2, {t}) && m2[t].queued
    requires m2[t].cpu == m1[t].cpu && m2[t].prio == m1[t].prio && m2[t].affinity == m1[t].affinity
    requires m2[t].state == m1[t].state && m2[t].wakeTick == m1[t].wakeTick
    ensures Woken(m, m2, t)
  {
  }

  /** Task t has become READY and queued and kept its CPU, priority and affinity; others changed
      at most their links. */
  ghost predicate Woken(m: Tasks, m': Tasks, t: Ptr) {
    && m'.Keys == m.Keys && t in m && m'[t].state.Ready? && m'[t].wakeTick == 0 && m'[t].queued
    && m'[t].cpu == m[t].cpu && m'[t].prio == m[t].prio && m'[t].affinity == m[t].affinity
    && forall u | u in m && u != t :: m'[u] == m[u].(prev := m'[u].prev, next := m'[u].next, sleepNext := m'[u].sleepNext)
  }

  /** Entry i of list p of CPU c was t and is gone. */
  ghost predicate TakenOff(lists: Lists, lists': Lists, c: nat, p: nat, i: nat, t: Ptr) {
    c < |lists| && p < |lists[c]| && i < |lists[c][p]| && lists[c][p][i] == t && lists' == Dropped(lists, c, p, i)
  }

  class Scheduler {
    var cpus: seq<CpuQueues>
    var task: Tasks
    ghost var lists: Lists
    ghost var asleep: seq<seq<Ptr>>
    ghost var clock: nat

    ghost predicate Valid()
      reads this
    {
      Wf(cpus, lists, asleep, task, clock)
    }

    /** init_multitasking. */
    constructor (n: nat)
      ensures Valid() && |cpus| == n && task == map[] && clock == 0
      ensures forall c | 0 <= c < n :: lists[c] == [[], [], [], [], [], []] && asleep[c] == []
    {
      cpus := seq(n, _ => CpuQueues(seq(PRIO_COUNT, _ => Queue(NULL, NULL)), {}, NULL, 0, 0));
      task, clock := map[], 0;
      lists, asleep := seq(n, _ => [[], [], [], [], [], []]), seq(n, _ => []);
      new;
      forall c | 0 <= c < n ensures CpuOk(task, cpus[c], lists[c], asleep[c], c, clock) {
        assert forall p | 0 <= p < PRIO_COUNT :: lists[c][p] == [];
      }
    }

    /** create_task_internal: the new task is READY and on no list. */
    method Adopt(t: Ptr, prio: nat, affinity: int, c: nat)
      requires Valid() && t != NULL && t !in task
      modifies this`task
      ensures Valid() && task == old(task)[t := Task(NULL, NULL, false, c, prio, affinity, 0, 0, Ready, NULL, 0)]
    {
      var e := Task(NULL, NULL, false, c, prio, affinity, 0, 0, Ready, NULL, 0);
      AdoptKeeps(cpus, lists, asleep, task, clock, t, e);
      task := task[t := e];
    }

    lemma InRange(c: nat)
      requires Valid() && c < |cpus|
      ensures |lists| == |asleep| == |cpus| && |lists[c]| == |cpus[c].queues| == PRIO_COUNT
    {
      assert CpuOk(task, cpus[c], lists[c], asleep[c], c, clock);
    }

    /** __sched_enqueue_locked: appends a task to the list of its priority unless it is
        already queued. */
    method EnqueueLocked(c: nat, t: Ptr, prio: nat, affinity: int, now: nat)
      requires Valid() && c < |cpus| && t in task && !task[t].state.Sleeping? && now >= clock
      modifies this`cpus, this`task, this`lists, this`clock
      ensures Valid() && |cpus| == old(|cpus|) && |old(lists)| == |cpus| && |old(lists)[c]| == PRIO_COUNT
      ensures old(task[t].queued) ==> lists == old(lists) && task == old(task) && clock == old(clock)
      ensures !old(task[t].queued) ==> lists == Pushed(old(lists), c, Clamp(prio), t) && clock == now
      ensures OnlyLinks(old(task), task, {t}) && task[t].queued
      ensures !old(task[t].queued) ==>
                task[t] == old(task)[t].(prev := task[t].prev, next := NULL, queued := true, cpu := c, prio := prio,
                                         affinity := affinity, stamp := now, vruntime := task[t].vruntime)
      ensures !old(task[t].queued) ==>
                && task[t].vruntime >= old(task[t].vruntime) && task[t].vruntime >= old(cpus)[c].minVruntime
                && task[t].vruntime in {old(task[t].vruntime), old(cpus)[c].minVruntime}
    {
      InRange(c);
      if task[t].queued {
        return;
      }
      EnqueueKeeps(cpus, lists, asleep, task, clock, c, t, prio, affinity, now);
      var k, m := EnqueueStores(cpus[c], task, t, c, prio, affinity, now);
      cpus, task := cpus[c := k], m;
      lists, clock := Pushed(lists, c, Clamp(prio), t), now;
    }

    /** Where a queued task is on its list. */
    lemma Position(t: Ptr) returns (i: nat)
      requires Valid() && t in task && task[t].queued
      ensures var c, p := task[t].cpu, Clamp(task[t].prio);
              c < |cpus| && |cpus| == |lists| && |lists[c]| == PRIO_COUNT && i < |lists[c][p]| && lists[c][p][i] == t
    {
      assert TaskOk(task, lists, asleep, t);
      InRange(task[t].cpu);
      i :| 0 <= i < |lists[task[t].cpu][Clamp(task[t].prio)]| && lists[task[t].cpu][Clamp(task[t].prio)][i] == t;
    }

    /** __sched_remove_locked: takes a task off the list it is queued on. */
    method RemoveLocked(c: nat, t: Ptr) returns (ghost i: nat)
      requires Valid() && t in task && (task[t].queued ==> task[t].cpu == c)
      modifies this`cpus, this`task, this`lists
      ensures Valid() && |cpus| == old(|cpus|) && OnlyLinks(old(task), task, {t})
      ensures !old(task[t].queued) ==> lists == old(lists) && cpus == old(cpus) && task == old(task)
      ensures old(task[t].queued) ==>
                var p := Clamp(old(task)[t].prio);
                && c < |cpus| == |old(lists)| && |old(lists)[c]| == PRIO_COUNT && old(cpus)[c].total > 0
                && i < |old(lists)[c][p]| && old(lists)[c][p][i] == t && lists == Dropped(old(lists), c, p, i)
                && cpus == old(cpus)[c := cpus[c]] && cpus[c].minVruntime == old(cpus)[c].minVruntime
                && task[t] == old(task)[t].(prev := NULL, next := NULL, queued := false)
    {
      i := 0;
      if !task[t].queued {
        return;
      }
      i := Position(t);
      RemoveKeeps(cpus, lists, asleep, task, clock, c, Clamp(task[t].prio), i);
      var k, m := RemoveStores(cpus[c], task, t);
      cpus, task := cpus[c := k], m;
      lists := Dropped(lists, c, Clamp(task[t].prio), i);
    }

    /** sched_sleep_current: the current task leaves any run list it is on for the front of its
        CPU's sleep list. */
    method SleepCurrent(c: nat, t: Ptr, ticks: nat, now: nat) returns (ghost i: nat)
      requires Valid() && c < |cpus| && t in task && !task[t].state.Sleeping? && task[t].cpu == c
      modifies this
      ensures Valid() && |cpus| == old(|cpus|) && clock == old(clock)
      ensures |old(asleep)| == |cpus| && asleep == old(asleep)[c := [t] + old(asleep)[c]]
      ensures OnlyLinks(old(task), task, {t}) && task[t].state.Sleeping? && !task[t].queued
      ensures task[t].wakeTick == if now + ticks > TICKS_MAX then TICKS_MAX else now + ticks
      ensures task[t] == old(task)[t].(prev := task[t].prev, next := task[t].next, queued := false, state := Sleeping,
                                       wakeTick := task[t].wakeTick, sleepNext := task[t].sleepNext)
      ensures if old(task[t].queued) then TakenOff(old(lists), lists, c, Clamp(old(task)[t].prio), i, t) else lists == old(lists)
    {
      var target := now + ticks;
      if target > TICKS_MAX {
        target := TICKS_MAX;
      }
      InRange(c);
      i := RemoveLocked(c, t);
      SleepKeeps(cpus, lists, asleep, task, clock, c, t, target);
      OnlyLinksUpdate(old(task), task, t, task[t].(state := Sleeping, wakeTick := target, sleepNext := cpus[c].sleepHead));
      task := task[t := task[t].(state := Sleeping, wakeTick := target, sleepNext := cpus[c].sleepHead)];
      cpus := cpus[c := cpus[c].(sleepHead := t)];
      asleep := asleep[c := [t] + asleep[c]];
    }

    /** Stores the unlinked sleep list and makes the unlinked task READY. */
    method CommitWake(c: nat, t: Ptr, head: Ptr, m: Tasks, ghost i: nat)
      requires Valid() && c < |cpus| == |asleep| && i < |asleep[c]| && asleep[c][i] == t && t in task
      requires i > 0 ==> asleep[c][i - 1] in task && asleep[c][i - 1] != t
      requires m == UnsleptTasks(task, asleep[c], i) && head == (if i == 0 then task[t].sleepNext else cpus[c].sleepHead)
      modifies this`cpus, this`task, this`asleep
      ensures Valid() && |cpus| == old(|cpus|) && asleep == old(asleep)[c := Without(old(asleep)[c], i)]
      ensures task.Keys == old(task.Keys) && task[t] == old(task)[t].(sleepNext := NULL, state := Ready, wakeTick := 0)
      ensures forall u | u in task && u != t :: task[u] == old(task)[u].(sleepNext := task[u].sleepNext)
    {
      WakeKeeps(cpus, lists, asleep, task, clock, c, i);
      task := m[t := m[t].(state := Ready, wakeTick := 0)];
      cpus := cpus[c := cpus[c].(sleepHead := head)];
      asleep := asleep[c := Without(asleep[c], i)];
    }

    /** A sleeping task is woken: it leaves the sleep list for the end of a run list. */
    method WakeSleeper(t: Ptr, now: nat)
      requires Valid() && t in task && task[t].cpu < |cpus| && now >= clock && task[t].state.Sleeping?
      modifies this
      ensures Valid() && |cpus| == old(|cpus|) && Woken(old(task), task, t) && task[t].stamp == now && !old(task[t].queued)
      ensures var e := old(task)[t];
              && |old(lists)| == |old(asleep)| == |cpus| && |old(lists)[e.cpu]| == PRIO_COUNT
              && lists == Pushed(old(lists), e.cpu, Clamp(e.prio), t)
              && exists i :: 0 <= i < |old(asleep)[e.cpu]| && old(asleep)[e.cpu][i] == t
                   && asleep == old(asleep)[e.cpu := Without(old(asleep)[e.cpu], i)]
    {
      var c := task[t].cpu;
      InRange(c);
      ghost var i := Unsleep(c, t);
      ghost var m := task;
      EnqueueLocked(c, t, task[t].prio, task[t].affinity, now);
      WokenBoth(old(task), m, task, t);
    }

    /** It leaves the sleep list. */
    method Unsleep(c: nat, t: Ptr) returns (ghost i: nat)
      requires Valid() && c < |cpus| && t in task && task[t].cpu == c && task[t].state.Sleeping?
      modifies this`cpus, this`task, this`asleep
      ensures Valid() && |cpus| == old(|cpus|) && |old(asleep)| == |cpus| && Awake(old(task), task, t)
      ensures i < |old(asleep)[c]| && old(asleep)[c][i] == t && asleep == old(asleep)[c := Without(old(asleep)[c], i)]
    {
      assert TaskOk(task, lists, asleep, t);
      assert CpuOk(task, cpus[c], lists[c], asleep[c], c, clock);
      SleeperHome(task, cpus[c].sleepHead, asleep[c], c, t);
      var head, m;
      head, m, i := UnlinkSleeper(cpus[c].sleepHead, task, t, asleep[c], c);
      CommitWake(c, t, head, m, i);
    }

    /** A blocked task is woken: unless it is still queued it goes to the end of a run list. */
    method WakeBlocked(t: Ptr, now: nat)
      requires Valid() && t in task && task[t].cpu < |cpus| && now >= clock && task[t].state.Blocked?
      modifies this`cpus, this`task, this`lists, this`clock
      ensures Valid() && |cpus| == old(|cpus|) && Woken(old(task), task, t)
      ensures var e := old(task)[t];
              && |old(lists)| == |cpus| && |old(lists)[e.cpu]| == PRIO_COUNT
              && (!e.queued ==> lists == Pushed(old(lists), e.cpu, Clamp(e.prio), t) && task[t].stamp == now)
              && (e.queued ==> lists == old(lists) && task == old(task)[t := e.(state := Ready, wakeTick := 0)])
    {
      var c := task[t].cpu;
      InRange(c);
      StateKeeps(cpus, lists, asleep, task, clock, t, Ready, 0);
      task := task[t := task[t].(state := Ready, wakeTick := 0)];
      EnqueueLocked(c, t, task[t].prio, task[t].affinity, now);
    }

    /** sched_wake_task: a blocked or sleeping task becomes READY and is queued on its CPU,
        unless it is still queued. */
    method WakeTask(t: Ptr, now: nat)
      requires Valid() && t in task && task[t].cpu < |cpus| && now >= clock
      modifies this
      ensures Valid() && |cpus| == old(|cpus|)
      ensures var e := old(task)[t];
              && |old(lists)| == |old(asleep)| == |cpus| && |old(lists)[e.cpu]| == PRIO_COUNT
              && (!e.state.Blocked? && !e.state.Sleeping? ==> lists == old(lists) && asleep == old(asleep) && task == old(task))
              && (e.state.Blocked? || e.state.Sleeping? ==> Woken(old(task), task, t))
              && (!e.queued && (e.state.Blocked? || e.state.Sleeping?) ==>
                    lists == Pushed(old(lists), e.cpu, Clamp(e.prio), t) && task[t].stamp == now)
              && (e.queued && e.state.Blocked? ==> lists == old(lists) && task == old(task)[t := e.(state := Ready, wakeTick := 0)])
              && (e.state.Blocked? ==> asleep == old(asleep))
              && (e.state.Sleeping? ==>
                    exists i :: 0 <= i < |old(asleep)[e.cpu]| && old(asleep)[e.cpu][i] == t
                      && asleep == old(asleep)[e.cpu := Without(old(asleep)[e.cpu], i)])
    {
      InRange(task[t].cpu);
      if task[t].state.Sleeping? {
        WakeSleeper(t, now);
      } else if task[t].state.Blocked? {
        WakeBlocked(t, now);
      }
    }

    /** The own-queue part of sched_pick_next: the pick is the head of the list that the
        anti-starvation rule names, which has waited longest on it. */
    method PickLocal(c: nat, now: nat) returns (front: Ptr, ghost p: nat)
      requires Valid() && c < |cpus|
      modifies this`cpus, this`task, this`lists
      ensures Valid() && |cpus| == old(|cpus|) && |old(lists)| == |cpus| && |old(lists)[c]| == PRIO_COUNT
      ensures front == NULL <==> forall u :: !QueuedOn(old(task), c, u)
      ensures front == NULL ==> lists == old(lists) && task == old(task) && cpus == old(cpus)
      ensures front != NULL ==> BestChoice(old(task), c, now, front)
      ensures front != NULL ==>
                var e := old(task)[front];
                front in task && task[front] == e.(prev := NULL, next := NULL, queued := false,
                                                   vruntime := e.vruntime + if Overdue(e, now) then 0 else ChargeOf(e.prio))
      ensures front != NULL ==>
                && PickRule(old(task), old(lists)[c], now, p)
                && front == old(lists)[c][p][0] && lists == old(lists)[c := old(lists)[c][p := old(lists)[c][p][1..]]]
                && front in task && !task[front].queued && OnlyLinks(old(task), task, {front})
                && WaitsLongest(old(task), old(lists)[c][p])
    {
      InRange(c);
      var q, starved;
      front, q, starved := ChooseFront(c, now);
      p := q;
      NoneQueued(cpus, lists, asleep, task, clock, c);
      if front == NULL {
        return;
      }
      PickMeans(cpus, lists, asleep, task, clock, c, now, q);
      Serve(c, front, q, starved);
    }

    /** The pick leaves its list and, unless it is overdue, is charged. */
    method Serve(c: nat, t: Ptr, q: nat, starved: bool)
      requires Valid() && c < |cpus| && q < PRIO_COUNT && |lists| == |cpus| && |lists[c]| == PRIO_COUNT
      requires lists[c][q] != [] && t == lists[c][q][0] && t in task && task[t].queued && task[t].cpu == c && Clamp(task[t].prio) == q
      modifies this`cpus, this`task, this`lists
      ensures Valid() && |cpus| == old(|cpus|) && OnlyLinks(old(task), task, {t})
      ensures lists == old(lists)[c := old(lists)[c][q := old(lists)[c][q][1..]]]
      ensures var e := old(task)[t];
              t in task && task[t] == e.(prev := NULL, next := NULL, queued := false, vruntime := e.vruntime + if starved then 0 else ChargeOf(e.prio))
    {
      TakeHead(c, t, q);
      if !starved {
        var step := StepOf(q);
        OnlyLinksUpdate(old(task), task, t, task[t].(vruntime := task[t].vruntime + step));
        Charge(c, t, step);
      }
    }

    /** The task that is picked. */
    method ChooseFront(c: nat, now: nat) returns (front: Ptr, q: nat, starved: bool)
      requires Valid() && c < |cpus| && |lists| == |cpus| && |lists[c]| == PRIO_COUNT
      ensures front == NULL <==> forall p | 0 <= p < PRIO_COUNT :: lists[c][p] == []
      ensures front != NULL ==>
                && PickRule(task, lists[c], now, q) && front == lists[c][q][0] && WaitsLongest(task, lists[c][q])
                && front in task && task[front].queued && task[front].cpu == c && Clamp(task[front].prio) == q
                && (starved <==> Overdue(task[front], now))
    {
      q, front, starved := 0, NULL, false;
      assert CpuOk(task, cpus[c], lists[c], asleep[c], c, clock);
      if cpus[c].active == {} {
        return;
      }
      Heads(task, cpus[c], lists[c], asleep[c], c, clock, now);
      q, starved := ChooseList(cpus[c], task, now, lists[c], asleep[c], c, clock);
      front := cpus[c].queues[q].head;
      OldestFirst(task, cpus[c].queues[q], lists[c][q], c, q, clock);
    }

    /** Advances the vruntime of a task on no list, and the CPU's minimum with it. */
    method Charge(c: nat, t: Ptr, step: nat)
      requires Valid() && c < |cpus| && t in task && !task[t].queued && !task[t].state.Sleeping?
      modifies this`cpus, this`task
      ensures Valid() && |cpus| == old(|cpus|)
      ensures task == old(task)[t := old(task)[t].(vruntime := old(task)[t].vruntime + step)]
      ensures cpus[c].minVruntime >= task[t].vruntime && cpus[c].minVruntime >= old(cpus)[c].minVruntime
      ensures cpus[c].minVruntime in {task[t].vruntime, old(cpus)[c].minVruntime}
      ensures cpus == old(cpus)[c := old(cpus)[c].(minVruntime := cpus[c].minVruntime)]
    {
      OffListKeeps(cpus, lists, asleep, task, clock, t, task[t].(vruntime := task[t].vruntime + step));
      task := task[t := task[t].(vruntime := task[t].vruntime + step)];
      if task[t].vruntime > cpus[c].minVruntime {
        cpus := cpus[c := cpus[c].(minVruntime := task[t].vruntime)];
        forall d | 0 <= d < |cpus| ensures CpuOk(task, cpus[d], lists[d], asleep[d], d, clock) {
          assert CpuOk(task, old(cpus)[d], lists[d], asleep[d], d, clock);
        }
      }
    }

    /** Removes the head of list p. */
    method TakeHead(c: nat, t: Ptr, ghost p: nat)
      requires Valid() && c < |cpus| && p < PRIO_COUNT && |lists| == |cpus| && |lists[c]| == PRIO_COUNT
      requires lists[c][p] != [] && t == lists[c][p][0] && t in task && task[t].queued && task[t].cpu == c && Clamp(task[t].prio) == p
      modifies this`cpus, this`task, this`lists
      ensures Valid() && |cpus| == old(|cpus|)
      ensures lists == old(lists)[c := old(lists)[c][p := old(lists)[c][p][1..]]]
      ensures t in task && !task[t].state.Sleeping? && OnlyLinks(old(task), task, {t})
      ensures task[t] == old(task)[t].(prev := NULL, next := NULL, queued := false)
    {
      assert CpuOk(task, cpus[c], lists[c], asleep[c], c, clock);
      SleepDisjoint(task, lists, asleep, t, cpus, clock);
      ghost var s := lists[c][p];
      ghost var q := cpus[c].queues[p];
      ghost var m, now := task, clock;
      ghost var i := RemoveLocked(c, t);
      if i > 0 { EntriesApart(m, q, s, c, p, now, 0, i); }
      assert Without(s, 0) == s[1..];
    }

    /** One step of process_tick's walk: sleeper j of CPU c is due. */
    method WakeDue(c: nat, ghost j: nat, prev: Ptr, t: Ptr, now: nat)
      requires Valid() && c < |cpus| == |asleep| && j < |asleep[c]| && t == asleep[c][j] && now >= clock
      requires prev == (if j > 0 then asleep[c][j - 1] else NULL)
      modifies this
      ensures Valid() && |cpus| == old(|cpus|) && clock == now && task.Keys == old(task.Keys) && t in task
      ensures asleep == old(asleep)[c := Without(old(asleep)[c], j)]
      ensures |old(lists)| == |cpus| && |old(lists)[c]| == PRIO_COUNT
      ensures lists == Pushed(old(lists), c, Clamp(old(task)[t].prio), t)
      ensures task[t].state.Ready? && task[t].queued && task[t].cpu == c
      ensures forall u | u in task && u != t ::
                task[u] == old(task)[u].(prev := task[u].prev, next := task[u].next, sleepNext := task[u].sleepNext)
    {
      InRange(c);
      assert CpuOk(task, cpus[c], lists[c], asleep[c], c, clock);
      assert SleeperOk(task, asleep[c], j, c) && (j > 0 ==> SleeperOk(task, asleep[c], j - 1, c));
      if j > 0 { SleepersApart(task, cpus[c].sleepHead, asleep[c], c, j - 1, j); }
      var m, head := DropSleeper(task, cpus[c].sleepHead, prev, t);
      CommitWake(c, t, head, m, j);
      EnqueueLocked(c, t, task[t].prio, task[t].affinity, now);
    }

    /** process_tick's walk stands at p, entry j of the sleep list now and entry i of the
        list s it started from. */
    ghost predicate Walking(m: Tasks, s: seq<Ptr>, lists0: Lists, asleep0: seq<seq<Ptr>>, c: nat, now: nat,
                            i: nat, j: nat, prev: Ptr, p: Ptr)
      reads this
    {
      && Valid() && c < |cpus| == |lists| == |asleep| == |lists0| == |asleep0| && now >= clock
      && Walked(m, s, lists0[c], i, now, asleep[c], j, lists[c]) && Untouched(m, task, s[i..])
      && asleep == asleep0[c := asleep[c]] && lists == lists0[c := lists[c]]
      && p == (if j < |asleep[c]| then asleep[c][j] else NULL) && prev == (if j > 0 then asleep[c][j - 1] else NULL)
    }

    lemma AtEntry(m: Tasks, s: seq<Ptr>, lists0: Lists, asleep0: seq<seq<Ptr>>, c: nat, now: nat, i: nat, j: nat, prev: Ptr, p: Ptr)
      requires Walking(m, s, lists0, asleep0, c, now, i, j, prev, p) && p != NULL
      ensures i < |s| && j < |asleep[c]| && s[i] == p && p in m && p in task && task[p].wakeTick == m[p].wakeTick && task[p].prio == m[p].prio
      ensures task[p].sleepNext == (if j + 1 < |asleep[c]| then asleep[c][j + 1] else NULL)
      ensures Untouched(m, task, s[i + 1..]) && p !in s[i + 1..] && |lists[c]| == |lists0[c]| == PRIO_COUNT
    {
      InRange(c);
      SleeperFacts(c, j);
      NotInRest(c, j);
      assert asleep[c][j..][0] == p && asleep[c][j + 1..] == asleep[c][j..][1..] == s[i + 1..];
      assert s[i] in s[i..] && forall u | u in s[i + 1..] :: u in s[i..];
    }

    method TickDue(c: nat, prev: Ptr, p: Ptr, now: nat, ghost m: Tasks, ghost s: seq<Ptr>, ghost lists0: Lists,
                   ghost asleep0: seq<seq<Ptr>>, ghost i: nat, ghost j: nat) returns (next: Ptr)
      requires Walking(m, s, lists0, asleep0, c, now, i, j, prev, p) && p != NULL && p in task && now >= task[p].wakeTick
      modifies this
      ensures i < |s| && Walking(m, s, lists0, asleep0, c, now, i + 1, j, prev, next) && |cpus| == old(|cpus|)
    {
      AtEntry(m, s, lists0, asleep0, c, now, i, j, prev, p);
      next := task[p].sleepNext;
      WalkedDue(m, s, lists0[c], i, now, asleep[c], j, lists[c]);
      WakeDue(c, j, prev, p, now);
    }

    method TickOne(c: nat, prev: Ptr, p: Ptr, now: nat, ghost m: Tasks, ghost s: seq<Ptr>, ghost lists0: Lists,
                   ghost asleep0: seq<seq<Ptr>>, ghost i: nat, ghost j: nat) returns (prev': Ptr, next: Ptr, ghost j': nat)
      requires Walking(m, s, lists0, asleep0, c, now, i, j, prev, p) && p != NULL
      modifies this
      ensures i < |s| && Walking(m, s, lists0, asleep0, c, now, i + 1, j', prev', next) && |cpus| == old(|cpus|)
    {
      AtEntry(m, s, lists0, asleep0, c, now, i, j, prev, p);
      if now >= task[p].wakeTick {
        prev', j' := prev, j;
        next := TickDue(c, prev, p, now, m, s, lists0, asleep0, i, j);
      } else {
        next := task[p].sleepNext;
        prev', j' := p, j + 1;
        WalkedSkip(m, s, lists0[c], i, now, asleep[c], j, lists[c]);
      }
    }

    /** process_tick's walk of the sleep list: every due sleeper is queued, in list order,
        and the others stay asleep in order. */
    method Tick(c: nat, now: nat)
      requires Valid() && c < |cpus| && now >= clock
      modifies this
      ensures Valid() && |cpus| == old(|cpus|) && |old(lists)| == |old(asleep)| == |cpus| && |old(lists)[c]| == PRIO_COUNT
      ensures asleep == old(asleep)[c := NotDue(old(task), old(asleep)[c], now)]
      ensures lists == old(lists)[c := PushAll(old(lists)[c], old(task), Due(old(task), old(asleep)[c], now))]
      ensures forall u | u in old(asleep)[c] ::
                u in old(task) && if old(task)[u].wakeTick <= now then QueuedOn(task, c, u) else u in asleep[c]
    {
      InRange(c);
      SleeperFacts(c, 0);
      AllKnown(c);
      ghost var s := asleep[c];
      var prev, p := NULL, cpus[c].sleepHead;
      ghost var i, j := 0, 0;
      while p != NULL
        invariant Walking(old(task), s, old(lists), old(asleep), c, now, i, j, prev, p) && |cpus| == old(|cpus|)
        decreases |s| - i
      {
        prev, p, j := TickOne(c, prev, p, now, old(task), s, old(lists), old(asleep), i, j);
        i := i + 1;
      }
      SleeperFacts(c, j);
      WalkedAll(old(task), s, old(lists)[c], i, now, asleep[c], j, lists[c]);
      TickMeans(old(task), s, old(lists)[c], c, now);
    }

    /** After the walk, task by task. */
    lemma TickMeans(m: Tasks, s: seq<Ptr>, ls: seq<seq<Ptr>>, c: nat, now: nat)
      requires Valid() && c < |cpus| && |lists| == |asleep| == |cpus| && |ls| == PRIO_COUNT && forall u | u in s :: u in m
      requires asleep[c] == NotDue(m, s, now) && lists[c] == PushAll(ls, m, Due(m, s, now))
      ensures forall u | u in s :: if m[u].wakeTick <= now then QueuedOn(task, c, u) else u in asleep[c]
    {
      forall u | u in s ensures if m[u].wakeTick <= now then QueuedOn(task, c, u) else u in asleep[c] {
        DueExactly(m, s, now, u);
        if m[u].wakeTick <= now {
          forall v | v in Due(m, s, now) ensures v in m { DueExactly(m, s, now, v); }
          PushAllHas(ls, m, Due(m, s, now), u);
          OnList(cpus, lists, asleep, task, clock, c, u);
        }
      }
    }

    lemma AllKnown(c: nat)
      requires Valid() && c < |cpus| && |asleep| == |cpus|
      ensures forall u | u in asleep[c] :: u in task
    {
      assert CpuOk(task, cpus[c], lists[c], asleep[c], c, clock);
      forall u | u in asleep[c] ensures u in task { SleeperHome(task, cpus[c].sleepHead, asleep[c], c, u); }
    }

    lemma SleeperFacts(c: nat, j: nat)
      requires Valid() && c < |cpus| && |asleep| == |cpus| && j <= |asleep[c]|
      ensures j < |asleep[c]| ==>
                && asleep[c][j] != NULL && asleep[c][j] in task
                && task[asleep[c][j]].sleepNext == (if j + 1 < |asleep[c]| then asleep[c][j + 1] else NULL)
      ensures j == 0 ==> cpus[c].sleepHead == (if j < |asleep[c]| then asleep[c][j] else NULL)
    {
      assert CpuOk(task, cpus[c], lists[c], asleep[c], c, clock);
      if j < |asleep[c]| { assert SleeperOk(task, asleep[c], j, c); }
    }

    lemma NotInRest(c: nat, j: nat)
      requires Valid() && c < |cpus| && |asleep| == |cpus| && j < |asleep[c]|
      ensures asleep[c][j] !in asleep[c][j + 1..]
    {
      assert CpuOk(task, cpus[c], lists[c], asleep[c], c, clock);
      forall x | j < x < |asleep[c]| ensures asleep[c][x] != asleep[c][j] {
        SleepersApart(task, cpus[c].sleepHead, asleep[c], c, j, x);
      }
    }

    /** The last part of sched_pick_next: CPU `thief` takes the tail of the victim's highest
        non-empty list if its affinity allows, and nothing exactly if there is no such task. */
    method StealFrom(victim: nat, thief: nat) returns (back: Ptr, ghost p: nat)
      requires Valid() && victim < |cpus|
      modifies this`cpus, this`task, this`lists
      ensures Valid() && |cpus| == old(|cpus|) && |old(lists)| == |cpus| && |old(lists)[victim]| == PRIO_COUNT
      ensures back == NULL ==> lists == old(lists) && task == old(task)
      ensures back == NULL <==> forall q | 0 <= q < PRIO_COUNT :: !Stealable(old(task), old(lists)[victim], q, thief)
      ensures back != NULL ==>
                && Stealable(old(task), old(lists)[victim], p, thief) && back == Last(old(lists)[victim][p])
                && back in task && !task[back].queued && lists == Dropped(old(lists), victim, p, |old(lists)[victim][p]| - 1)
      ensures back != NULL ==> LastChoice(old(task), victim, back) && old(task)[back].affinity in {-1, thief as int}
    {
      back, p := ChooseTail(victim, thief);
      if back != NULL { TailMeans(cpus, lists, asleep, task, clock, victim, p); }
      if back != NULL {
        ghost var i := RemoveLocked(victim, back);
      }
    }

    /** What StealFrom takes. */
    method ChooseTail(victim: nat, thief: nat) returns (back: Ptr, ghost p: nat)
      requires Valid() && victim < |cpus|
      ensures |lists| == |cpus| && |lists[victim]| == PRIO_COUNT
      ensures back == NULL <==> forall q | 0 <= q < PRIO_COUNT :: !Stealable(task, lists[victim], q, thief)
      ensures back != NULL ==>
                && Stealable(task, lists[victim], p, thief) && IsTail(task, lists[victim][p], back, victim, p)
    {
      InRange(victim);
      assert CpuOk(task, cpus[victim], lists[victim], asleep[victim], victim, clock);
      back, p := NULL, 0;
      if cpus[victim].active != {} {
        HighestTail(task, cpus[victim], lists[victim], asleep[victim], victim, clock);
        var h := Highest(cpus[victim].active);
        var t := cpus[victim].queues[h].tail;
        if task[t].affinity == -1 || task[t].affinity == thief {
          back, p := t, h;
        }
        assert lists[victim][h] != [] && Last(lists[victim][h]) == t;
        forall q | 0 <= q < PRIO_COUNT && q != h ensures !Stealable(task, lists[victim], q, thief) {
          assert q > h ==> lists[victim][q] == [];
        }
        assert Stealable(task, lists[victim], h, thief) <==> back != NULL;
      }
    }

    /** schedule()'s stores into the chosen task, and a task's own BLOCKED or ZOMBIE store:
        a task on no list changes state and CPU. */
    method SetState(t: Ptr, st: Status, c: nat)
      requires Valid() && t in task && !task[t].queued && !task[t].state.Sleeping? && !st.Sleeping?
      modifies this`task
      ensures Valid() && task == old(task)[t := old(task)[t].(state := st, cpu := c)]
    {
      OffListKeeps(cpus, lists, asleep, task, clock, t, task[t].(state := st, cpu := c));
      task := task[t := task[t].(state := st, cpu := c)];
    }

    /** update_task_priority's store, on a task that is not queued. */
    method SetPriority(t: Ptr, prio: nat)
      requires Valid() && t in task && !task[t].queued && !task[t].state.Sleeping?
      modifies this`task
      ensures Valid() && task == old(task)[t := old(task)[t].(prio := prio)]
    {
      OffListKeeps(cpus, lists, asleep, task, clock, t, task[t].(prio := prio));
      task := task[t := task[t].(prio := prio)];
    }
  }
}
