/** What mutexes, semaphores, ports, auto-reset events and the inboxes of channels have in
    common: a count of permits and a wait queue, changed under one lock. A waiter that has been
    popped and woken but has not retried yet is `woken`. Every locked section is one step. */
module Blocking {
  import opened Common
  import opened WaitQueue

  datatype Kind = Mutex | Semaphore | Port | AutoEvent | Inbox

  /** Permits: 1 if a mutex is unlocked or an event signalled, a semaphore's count, the
      packets in a port, the messages in an inbox. */
  datatype State = State(permits: int, queue: seq<Task>, woken: set<Task>, dead: set<Task>)

  // ---------------------------------------------------------------- steps

  /** One round of the retry loop of mutex_lock, sem_wait, KPort::wait, KEvent::wait or of a
      channel's read. */
  function Attempt(s: State, t: Task): State {
    if s.permits > 0 then s.(permits := s.permits - 1, woken := s.woken - {t})
    else s.(queue := s.queue + [t], woken := s.woken - {t})
  }

  function Bumped(kind: Kind, permits: int): int {
    if kind.Mutex? || kind.AutoEvent? then 1 else permits + 1
  }

  /** mutex_unlock, sem_signal, KPort::queue, KEvent::signal or a channel's write. */
  function Post(kind: Kind, s: State): State {
    var t := Popped(s.queue, s.dead);
    s.(permits := Bumped(kind, s.permits), queue := Rest(s.queue, s.dead), woken := if t == NULL then s.woken else s.woken + {t})
  }

  /** A task is killed; it stays in the queue if it waits there. */
  function Kill(s: State, t: Task): State {
    s.(dead := s.dead + {t}, woken := s.woken - {t})
  }

  /** A reader of a channel returns without a message: its buffers are too small for the
      first one, or the peer is closed. */
  function Leave(s: State, t: Task): State {
    s.(woken := s.woken - {t})
  }

  /** The other end of a channel closes and wakes one reader. */
  function Nudge(s: State): State {
    var t := Popped(s.queue, s.dead);
    s.(queue := Rest(s.queue, s.dead), woken := if t == NULL then s.woken else s.woken + {t})
  }

  datatype Action = DoAttempt(t: Task) | DoPost | DoReset | DoKill(t: Task) | DoLeave(t: Task) | DoNudge

  function Apply(kind: Kind, s: State, a: Action): State {
    match a
    case DoAttempt(t) => Attempt(s, t)
    case DoPost => Post(kind, s)
    case DoReset => s.(permits := 0)
    case DoKill(t) => Kill(s, t)
    case DoLeave(t) => Leave(s, t)
    case DoNudge => Nudge(s)
  }

  /** A task runs only when it is alive and not queued; KEvent::reset is for events, the last
      two are for inboxes. If `gentle`, woken tasks are not killed before they retry, and do
      not leave a message behind. */
  predicate Enabled(kind: Kind, s: State, a: Action, gentle: bool) {
    match a
    case DoAttempt(t) => t != NULL && t !in s.dead && t !in s.queue
    case DoPost => true
    case DoReset => kind.AutoEvent?
    case DoKill(t) => t !in s.dead && (gentle ==> t !in s.woken)
    case DoLeave(t) => kind.Inbox? && t != NULL && t !in s.dead && t !in s.queue && (gentle ==> t !in s.woken || s.permits <= 0)
    case DoNudge => kind.Inbox?
  }

  // ---------------------------------------------------------------- runs

  datatype Run = Boot(permits: int) | After(run: Run, action: Action)

  function Now(kind: Kind, r: Run): State {
    match r
    case Boot(permits) => State(permits, [], {}, {})
    case After(p, a) => Apply(kind, Now(kind, p), a)
  }

  /** A mutex starts unlocked, an event not signalled, a port empty. */
  predicate IsRun(kind: Kind, r: Run, gentle: bool) {
    match r
    case Boot(permits) => kind.Semaphore? || permits == if kind.Mutex? then 1 else 0
    case After(p, a) => IsRun(kind, p, gentle) && Enabled(kind, Now(kind, p), a, gentle)
  }

  // ---------------------------------------------------------------- invariant

  /** Some task that waits is still alive. */
  ghost predicate LiveWaiter(s: State) {
    exists i :: 0 <= i < |s.queue| && s.queue[i] !in s.dead
  }

  /** No wakeup is lost: while a live task waits, every permit has a woken task coming. */
  ghost predicate NoneLost(s: State) {
    LiveWaiter(s) ==> s.permits <= |s.woken|
  }

  ghost predicate Shape(kind: Kind, s: State) {
    && Distinct(s.queue) && NULL !in s.queue && NULL !in s.woken
    && (forall t | t in s.woken :: t !in s.queue && t !in s.dead)
    && (kind.Mutex? || kind.AutoEvent? ==> 0 <= s.permits <= 1)
    && (kind.Port? || kind.Inbox? ==> 0 <= s.permits)
  }

  ghost predicate Inv(kind: Kind, s: State) {
    Shape(kind, s) && NoneLost(s)
  }

  /** A post wakes the live task that has waited longest, and drops only dead ones; without a
      live one it wakes nobody and empties the queue. */
  lemma PostWakesFirst(s: State)
    requires NULL !in s.queue
    ensures !LiveWaiter(s) ==> Popped(s.queue, s.dead) == NULL && Rest(s.queue, s.dead) == []
    ensures LiveWaiter(s) ==>
            var n := DeadPrefix(s.queue, s.dead);
            && n < |s.queue| && Popped(s.queue, s.dead) == s.queue[n] && s.queue[n] !in s.dead
            && (forall i | 0 <= i < n :: s.queue[i] in s.dead) && Rest(s.queue, s.dead) == s.queue[n + 1..]
  {
    DeadPrefixIs(s.queue, s.dead);
  }

  lemma PostKeeps(kind: Kind, s: State)
    requires Inv(kind, s)
    ensures Inv(kind, Post(kind, s))
  {
    var s' := Post(kind, s);
    DeadPrefixIs(s.queue, s.dead);
    var n := DeadPrefix(s.queue, s.dead);
    if n < |s.queue| {
      assert s.queue[n] in s.queue && s'.queue == s.queue[n + 1..];
      assert LiveWaiter(s);
      assert s.queue[n] !in s.woken;
    }
  }

  lemma AttemptKeeps(kind: Kind, s: State, t: Task)
    requires Inv(kind, s) && t != NULL && t !in s.dead && t !in s.queue
    ensures Inv(kind, Attempt(s, t))
  {
    var s' := Attempt(s, t);
    if s.permits > 0 {
      assert t !in s.woken ==> s'.woken == s.woken;
      assert LiveWaiter(s') ==> LiveWaiter(s);
    }
  }

  lemma KillKeeps(kind: Kind, s: State, t: Task)
    requires Inv(kind, s) && t !in s.woken
    ensures Inv(kind, Kill(s, t))
  {
    assert Kill(s, t).woken == s.woken;
    FewerLive(s, t);
  }

  lemma FewerLive(s: State, t: Task)
    ensures LiveWaiter(Kill(s, t)) ==> LiveWaiter(s)
  {
    var s' := Kill(s, t);
    if LiveWaiter(s') {
      var i :| 0 <= i < |s'.queue| && s'.queue[i] !in s'.dead;
      assert s.queue[i] !in s.dead;
    }
  }

  lemma StepKeeps(kind: Kind, s: State, a: Action)
    requires Inv(kind, s) && Enabled(kind, s, a, true)
    ensures Inv(kind, Apply(kind, s, a))
  {
    match a
    case DoAttempt(t) => AttemptKeeps(kind, s, t);
    case DoPost => PostKeeps(kind, s);
    case DoReset =>
    case DoKill(t) => KillKeeps(kind, s, t);
    case DoLeave(t) =>
      assert t !in s.woken ==> Leave(s, t).woken == s.woken;
      assert LiveWaiter(Leave(s, t)) ==> LiveWaiter(s);
    case DoNudge => NudgeKeeps(kind, s);
  }

  lemma NudgeKeeps(kind: Kind, s: State)
    requires Inv(kind, s)
    ensures Inv(kind, Nudge(s))
  {
    var s' := Nudge(s);
    DeadPrefixIs(s.queue, s.dead);
    var n := DeadPrefix(s.queue, s.dead);
    if n < |s.queue| {
      assert s.queue[n] in s.queue && s'.queue == s.queue[n + 1..] && LiveWaiter(s);
      assert s.queue[n] !in s.woken && |s'.woken| == |s.woken| + 1;
    }
  }

  lemma {:induction false} RunInv(kind: Kind, r: Run)
    requires IsRun(kind, r, true)
    ensures Inv(kind, Now(kind, r))
  {
    match r
    case Boot(_) =>
    case After(p, a) =>
      RunInv(kind, p);
      StepKeeps(kind, Now(kind, p), a);
  }

  // ---------------------------------------------------------------- counting permits

  /** How many posts a run has. */
  function Posts(r: Run): nat {
    match r
    case Boot(_) => 0
    case After(p, a) => Posts(p) + if a.DoPost? then 1 else 0
  }

  /** Task t has to wait: it is in the queue after its attempt. */
  predicate Waits(kind: Kind, r: Run, t: Task) { t in Now(kind, After(r, DoAttempt(t))).queue }

  /** How many attempts got what they came for. */
  function Gets(kind: Kind, r: Run): nat {
    match r
    case Boot(_) => 0
    case After(p, a) => Gets(kind, p) + if a.DoAttempt? && !Waits(kind, p, a.t) then 1 else 0
  }

  function Initial(r: Run): int {
    match r
    case Boot(permits) => permits
    case After(p, _) => Initial(p)
  }

  /** A semaphore's count, a port's packets and an inbox's messages are what there was at the
      start and has been posted since, less what has been got. */
  lemma {:induction false} PermitsCounted(kind: Kind, r: Run)
    requires IsRun(kind, r, false) && (kind.Semaphore? || kind.Port? || kind.Inbox?)
    ensures Now(kind, r).permits == Initial(r) + Posts(r) - Gets(kind, r)
  {
    match r
    case Boot(_) =>
    case After(p, a) => PermitsCounted(kind, p);
  }

  /** An attempt waits exactly if nothing is there to get; then it is the last of the queue, and
      otherwise the queue stays. A mutex is unlocked, and an event signalled, by a post, and
      neither is after a successful attempt. */
  lemma AttemptExactly(kind: Kind, r: Run, t: Task)
    requires IsRun(kind, r, false) && Enabled(kind, Now(kind, r), DoAttempt(t), false)
    ensures var s, s' := Now(kind, r), Now(kind, After(r, DoAttempt(t)));
            && (Waits(kind, r, t) <==> s.permits <= 0)
            && s'.queue == (if Waits(kind, r, t) then s.queue + [t] else s.queue)
            && (Waits(kind, r, t) ==> s'.permits == s.permits)
            && ((kind.Mutex? || kind.AutoEvent?) && !Waits(kind, r, t) ==> s.permits == 1 && s'.permits == 0)
            && ((kind.Mutex? || kind.AutoEvent?) ==> Now(kind, After(r, DoPost)).permits == 1)
  {
    RunShape(kind, r);
  }

  // ---------------------------------------------------------------- theorems

  /** Semaphores and ports: with a live waiter there are never more permits or packets than
      woken waiters still to retry. */
  lemma {:induction false} NoLostWakeup(kind: Kind, r: Run)
    requires IsRun(kind, r, true) && LiveWaiter(Now(kind, r))
    ensures Now(kind, r).permits <= |Now(kind, r).woken|
  {
    RunInv(kind, r);
  }

  /** Mutexes and auto-reset events: unlocked or signalled with a live waiter, some waiter
      is on its way. */
  lemma {:induction false} SomeoneIsComing(kind: Kind, r: Run)
    requires kind.Mutex? || kind.AutoEvent?
    requires IsRun(kind, r, true) && LiveWaiter(Now(kind, r)) && Now(kind, r).permits == 1
    ensures exists t :: t in Now(kind, r).woken && t !in Now(kind, r).dead && t !in Now(kind, r).queue
  {
    RunInv(kind, r);
    var s := Now(kind, r);
    assert s.woken != {};
    var t :| t in s.woken;
  }

  /** If a woken task is killed before it retries, the wakeup is lost exactly when a live
      task waits and the permits had just enough woken tasks. */
  lemma KillingWokenLoses(kind: Kind, s: State, t: Task)
    requires Inv(kind, s) && t in s.woken
    ensures NoneLost(Kill(s, t)) <==> !(LiveWaiter(s) && s.permits == |s.woken|)
  {
    var s' := Kill(s, t);
    assert |s'.woken| == |s.woken| - 1;
    FewerLive(s, t);
    if LiveWaiter(s) {
      var i :| 0 <= i < |s.queue| && s.queue[i] !in s.dead;
      assert s.queue[i] in s.queue && s'.queue[i] !in s'.dead;
    }
  }

  /** A woken reader that leaves because its buffers are too small does the same. */
  lemma LeavingLoses(s: State, t: Task)
    requires Inv(Inbox, s) && t in s.woken
    ensures NoneLost(Leave(s, t)) <==> !(LiveWaiter(s) && s.permits == |s.woken|)
  {
    var s' := Leave(s, t);
    assert |s'.woken| == |s.woken| - 1;
    assert LiveWaiter(s') <==> LiveWaiter(s);
  }

  /** i and j are two live tasks that wait. */
  ghost predicate TwoWait(s: State, i: int, j: int) {
    0 <= i < j < |s.queue| && s.queue[i] !in s.dead && s.queue[j] !in s.dead
  }

  /** When the peer closes, a live reader is left waiting exactly if two were. */
  lemma CloseStrands(s: State)
    requires Inv(Inbox, s)
    ensures LiveWaiter(Nudge(s)) <==> exists i, j :: TwoWait(s, i, j)
  {
    var s', n := Nudge(s), DeadPrefix(s.queue, s.dead);
    DeadPrefixIs(s.queue, s.dead);
    if LiveWaiter(s') {
      var i :| 0 <= i < |s'.queue| && s'.queue[i] !in s'.dead;
      assert n < |s.queue| && s'.queue[i] == s.queue[n + 1 + i];
      assert TwoWait(s, n, n + 1 + i);
    }
    if i, j :| TwoWait(s, i, j) {
      assert n <= i && s'.queue[j - n - 1] == s.queue[j];
    }
  }

  // ---------------------------------------------------------------- whole runs

  /** A step that loses a wakeup, as a guard on the state before it: a woken task is killed or
      leaves while a live task waits and the permits had just enough woken tasks. */
  ghost predicate Loses(s: State, a: Action) {
    (a.DoKill? || a.DoLeave?) && a.t in s.woken && LiveWaiter(s) && s.permits == |s.woken|
  }

  lemma ShapeKeeps(kind: Kind, s: State, a: Action)
    requires Shape(kind, s) && Enabled(kind, s, a, false)
    ensures Shape(kind, Apply(kind, s, a))
  {
    DeadPrefixIs(s.queue, s.dead);
  }

  /** Exactly these steps do. */
  lemma LosesExactly(kind: Kind, s: State, a: Action)
    requires Inv(kind, s) && Enabled(kind, s, a, false)
    ensures NoneLost(Apply(kind, s, a)) <==> !Loses(s, a)
  {
    if a.DoKill? && a.t in s.woken {
      KillingWokenLoses(kind, s, a.t);
    } else if a.DoLeave? && a.t in s.woken {
      LeavingLoses(s, a.t);
    } else {
      StepKeeps(kind, s, a);
    }
  }

  ghost predicate NeverLost(kind: Kind, r: Run) {
    NoneLost(Now(kind, r)) && (r.After? ==> NeverLost(kind, r.run))
  }

  ghost predicate NeverLoses(kind: Kind, r: Run) {
    r.After? ==> NeverLoses(kind, r.run) && !Loses(Now(kind, r.run), r.action)
  }

  lemma {:induction false} RunShape(kind: Kind, r: Run)
    requires IsRun(kind, r, false)
    ensures Shape(kind, Now(kind, r))
  {
    match r
    case Boot(_) =>
    case After(p, a) =>
      RunShape(kind, p);
      ShapeKeeps(kind, Now(kind, p), a);
  }

  /** Over every run, whatever is killed and whoever leaves: no state of it has lost a wakeup if
      and only if no step of it is one of those. */
  lemma {:induction false} RunLosesExactly(kind: Kind, r: Run)
    requires IsRun(kind, r, false)
    ensures NeverLost(kind, r) <==> NeverLoses(kind, r)
  {
    match r
    case Boot(_) =>
    case After(p, a) =>
      RunLosesExactly(kind, p);
      RunShape(kind, p);
      if NeverLost(kind, p) { LosesExactly(kind, Now(kind, p), a); }
  }

  // ---------------------------------------------------------------- runs that lose

  /** And that happens: task 1 holds a mutex, 2 and 3 wait, 1 unlocks, 2 is killed on its
      way; the mutex is free and 3 sleeps with nobody coming. */
  lemma LostWakeupExample() returns (r: Run)
    ensures IsRun(Mutex, r, false) && !IsRun(Mutex, r, true)
    ensures Now(Mutex, r) == State(1, [3], {}, {2}) && LiveWaiter(Now(Mutex, r))
  {
    r := Boot(1);
    r := Extend(Mutex, r, DoAttempt(1), State(0, [], {}, {}));
    r := Extend(Mutex, r, DoAttempt(2), State(0, [2], {}, {}));
    r := Extend(Mutex, r, DoAttempt(3), State(0, [2, 3], {}, {}));
    r := Extend(Mutex, r, DoPost, State(1, [3], {2}, {}));
    var gentle := r;
    r := Extend(Mutex, r, DoKill(2), State(1, [3], {}, {2}));
    assert !IsRun(Mutex, After(gentle, DoKill(2)), true);
    assert Now(Mutex, r).queue[0] !in Now(Mutex, r).dead;
  }

  /** Readers 1 and 2 wait, a message comes and wakes 1, whose buffers are too small: the
      message stays and 2 sleeps with nobody coming. */
  lemma LostMessageExample() returns (r: Run)
    ensures IsRun(Inbox, r, false) && !IsRun(Inbox, r, true)
    ensures Now(Inbox, r) == State(1, [2], {}, {}) && LiveWaiter(Now(Inbox, r))
  {
    r := Boot(0);
    r := Extend(Inbox, r, DoAttempt(1), State(0, [1], {}, {}));
    r := Extend(Inbox, r, DoAttempt(2), State(0, [1, 2], {}, {}));
    r := Extend(Inbox, r, DoPost, State(1, [2], {1}, {}));
    var gentle := r;
    r := Extend(Inbox, r, DoLeave(1), State(1, [2], {}, {}));
    assert !IsRun(Inbox, After(gentle, DoLeave(1)), true);
    assert Now(Inbox, r).queue[0] !in Now(Inbox, r).dead;
  }

  /** Readers 1 and 2 wait when the peer closes: 1 is woken, 2 sleeps on. */
  lemma StrandedExample() returns (r: Run)
    ensures IsRun(Inbox, r, true) && r.After? && r.action == DoNudge
    ensures Now(Inbox, r) == State(0, [2], {1}, {}) && LiveWaiter(Now(Inbox, r))
  {
    r := Boot(0);
    r := Extend(Inbox, r, DoAttempt(1), State(0, [1], {}, {}));
    r := Extend(Inbox, r, DoAttempt(2), State(0, [1, 2], {}, {}));
    r := Extend(Inbox, r, DoNudge, State(0, [2], {1}, {}));
    assert IsRun(Inbox, After(After(Boot(0), DoAttempt(1)), DoAttempt(2)), true);
    assert Now(Inbox, r).queue[0] !in Now(Inbox, r).dead;
  }

  lemma Extend(kind: Kind, r: Run, a: Action, s: State) returns (r': Run)
    requires IsRun(kind, r, false) && Enabled(kind, Now(kind, r), a, false) && Apply(kind, Now(kind, r), a) == s
    ensures r' == After(r, a) && IsRun(kind, r', false) && Now(kind, r') == s
  {
    r' := After(r, a);
  }

  // ---------------------------------------------------------------- objects

  /** The object's state is where its run has got to. */
  ghost predicate Follows(kind: Kind, run: Run, s: State) {
    IsRun(kind, run, false) && Now(kind, run) == s
  }

  lemma Follow(kind: Kind, run: Run, s: State, a: Action, s': State)
    requires Follows(kind, run, s) && Enabled(kind, s, a, false) && s' == Apply(kind, s, a)
    ensures Follows(kind, After(run, a), s')
  {
  }

  /** As long as no woken task was killed on its way, and none left a message behind, no wakeup
      has been lost. */
  lemma NoneLostNow(kind: Kind, run: Run, s: State)
    requires Follows(kind, run, s) && IsRun(kind, run, true)
    ensures NoneLost(s)
  {
    RunInv(kind, run);
  }
}
