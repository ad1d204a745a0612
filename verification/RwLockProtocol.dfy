/** The reader-writer lock of system/sync/rwlock.cpp as a step system: every locked section,
    and every pop of the unlocked reader wake-up loop, is one step. */
module RwLockProtocol {
  import opened Common
  import opened WaitQueue

  const MAX_READERS := 1024

  /** The lock's fields; which tasks hold it; which writers have been popped and woken and have
      not retried yet; which tasks were killed. */
  datatype State = State(
    readers: int,
    writerActive: bool,
    writeWaiters: int,
    readQ: seq<Task>,
    writeQ: seq<Task>,
    readHolders: multiset<Task>,
    writers: multiset<Task>,
    woken: set<Task>,
    dead: set<Task>)

  // ---------------------------------------------------------------- steps

  predicate CanRead(s: State) { !s.writerActive && s.writeWaiters == 0 && s.readers < MAX_READERS }
  predicate CanWrite(s: State) { !s.writerActive && s.readers == 0 }

  /** One round of rwlock_acquire_read. Without a current thread the round only spins. */
  function TryRead(s: State, t: Task): State {
    if CanRead(s) then s.(readers := s.readers + 1, readHolders := s.readHolders + multiset{t})
    else if t != NULL then s.(readQ := s.readQ + [t])
    else s
  }

  /** The counter after a pop of the writer queue, with the source's clamp. */
  function LessRemoved(waiters: int, removed: nat): int {
    if waiters >= removed then waiters - removed else 0
  }

  function Removed(s: seq<Task>, dead: set<Task>): nat {
    DeadPrefix(s, dead) + if Popped(s, dead) == NULL then 0 else 1
  }

  /** Popping a writer from the queue and waking it. */
  function PopWriter(s: State): State {
    var t := Popped(s.writeQ, s.dead);
    s.(writeQ := Rest(s.writeQ, s.dead), writeWaiters := LessRemoved(s.writeWaiters, Removed(s.writeQ, s.dead)),
       woken := if t == NULL then s.woken else s.woken + {t})
  }

  /** rwlock_release_read by a reader; with no reader the kernel stops. */
  function EndRead(s: State, t: Task): State {
    if s.readers > 0 then
      var s1 := s.(readers := s.readers - 1, readHolders := s.readHolders - multiset{t});
      if s1.readers == 0 && s1.writeWaiters > 0 then PopWriter(s1) else s1
    else s
  }

  /** One round of rwlock_acquire_write. */
  function TryWrite(s: State, t: Task): State {
    if CanWrite(s) then s.(writerActive := true, writers := s.writers + multiset{t}, woken := s.woken - {t})
    else if t != NULL then s.(writeWaiters := s.writeWaiters + 1, writeQ := s.writeQ + [t], woken := s.woken - {t})
    else s
  }

  /** rwlock_release_write, up to the wake-up of readers. */
  function EndWrite(s: State, t: Task): State {
    var s1 := s.(writerActive := false, writers := s.writers - multiset{t});
    if s1.writeWaiters > 0 then PopWriter(s1) else s1
  }

  /** One pop of the reader wake-up loop, outside the lock. */
  function WakeReader(s: State): State {
    s.(readQ := Rest(s.readQ, s.dead))
  }

  datatype Action = DoTryRead(t: Task) | DoEndRead(t: Task) | DoTryWrite(t: Task) | DoEndWrite(t: Task) | DoWakeReader | DoKill(t: Task)

  function Apply(s: State, a: Action): State {
    match a
    case DoTryRead(t) => TryRead(s, t)
    case DoEndRead(t) => EndRead(s, t)
    case DoTryWrite(t) => TryWrite(s, t)
    case DoEndWrite(t) => EndWrite(s, t)
    case DoWakeReader => WakeReader(s)
    case DoKill(t) => s.(dead := s.dead + {t}, woken := s.woken - {t})
  }

  /** Releases are by holders only; a queued task does not run, a woken writer tries again. */
  predicate Enabled(s: State, a: Action) {
    match a
    case DoTryRead(t) => t !in s.readQ && t !in s.writeQ && t !in s.woken
    case DoEndRead(t) => t in s.readHolders
    case DoTryWrite(t) => t !in s.readQ && t !in s.writeQ
    case DoEndWrite(t) => t in s.writers
    case DoWakeReader => true
    case DoKill(t) => true
  }

  datatype Run = Boot | After(run: Run, action: Action)

  function Now(r: Run): State {
    match r
    case Boot => State(0, false, 0, [], [], multiset{}, multiset{}, {}, {})
    case After(p, a) => Apply(Now(p), a)
  }

  predicate IsRun(r: Run) {
    match r
    case Boot => true
    case After(p, a) => IsRun(p) && Enabled(Now(p), a)
  }

  // ---------------------------------------------------------------- invariant

  ghost predicate Inv(s: State) {
    && s.readers == |s.readHolders| <= MAX_READERS
    && |s.writers| == (if s.writerActive then 1 else 0)
    && (s.writerActive ==> s.readers == 0)
    && s.writeWaiters == |s.writeQ| && NULL !in s.writeQ
  }

  /** The pop removes as many waiters as it counts, so the clamp is never taken. */
  lemma ClampDead(s: seq<Task>, dead: set<Task>)
    requires NULL !in s
    ensures Removed(s, dead) <= |s| && |Rest(s, dead)| == |s| - Removed(s, dead) && NULL !in Rest(s, dead)
  {
    DeadPrefixIs(s, dead);
  }

  lemma PopWriterKeeps(s: State)
    requires Inv(s)
    ensures Inv(PopWriter(s))
  {
    ClampDead(s.writeQ, s.dead);
  }

  lemma EndReadKeeps(s: State, t: Task)
    requires Inv(s) && t in s.readHolders
    ensures Inv(EndRead(s, t))
  {
    assert |s.readHolders - multiset{t}| == |s.readHolders| - 1;
    var s1 := s.(readers := s.readers - 1, readHolders := s.readHolders - multiset{t});
    PopWriterKeeps(s1);
  }

  lemma EndWriteKeeps(s: State, t: Task)
    requires Inv(s) && t in s.writers
    ensures Inv(EndWrite(s, t))
  {
    assert |s.writers - multiset{t}| == |s.writers| - 1;
    var s1 := s.(writerActive := false, writers := s.writers - multiset{t});
    PopWriterKeeps(s1);
  }

  lemma {:induction false} StepKeeps(s: State, a: Action)
    requires Inv(s) && Enabled(s, a)
    ensures Inv(Apply(s, a))
  {
    match a
    case DoTryRead(t) =>
    case DoEndRead(t) => EndReadKeeps(s, t);
    case DoTryWrite(t) =>
    case DoEndWrite(t) => EndWriteKeeps(s, t);
    case DoWakeReader =>
    case DoKill(t) =>
  }

  lemma {:induction false} RunInv(r: Run)
    requires IsRun(r)
    ensures Inv(Now(r))
  {
    match r
    case Boot =>
    case After(p, a) =>
      RunInv(p);
      StepKeeps(Now(p), a);
  }

  // ---------------------------------------------------------------- theorems

  /** A writer excludes all readers and all other writers. */
  lemma {:induction false} WriterExcludes(r: Run, t: Task)
    requires IsRun(r) && t in Now(r).writers
    ensures Now(r).readHolders == multiset{} && Now(r).writers == multiset{t} && Now(r).writerActive
  {
    RunInv(r);
    var s := Now(r);
    assert s.writers == multiset{t} + (s.writers - multiset{t});
    assert |s.writers - multiset{t}| == |s.writers| - 1;
  }

  /** The reader count is the number of read holds, never above the limit. */
  lemma {:induction false} ReadersCounted(r: Run)
    requires IsRun(r)
    ensures Now(r).readers == |Now(r).readHolders| <= MAX_READERS
  {
    RunInv(r);
  }

  /** The waiter count is the length of the writer queue, dead waiters included. */
  lemma {:induction false} WaitersCounted(r: Run)
    requires IsRun(r)
    ensures Now(r).writeWaiters == |Now(r).writeQ|
  {
    RunInv(r);
  }

  /** A reader enters exactly if nobody holds the lock for writing, no writer is queued and fewer
      than 1024 read; otherwise it is the last of the read queue. */
  lemma {:induction false} ReaderEnters(r: Run, t: Task)
    requires IsRun(r) && Enabled(Now(r), DoTryRead(t)) && t != NULL
    ensures var s, s' := Now(r), Now(After(r, DoTryRead(t)));
            if s.writers == multiset{} && s.writeQ == [] && |s.readHolders| < 1024
            then s'.readHolders == s.readHolders + multiset{t} && s'.readQ == s.readQ
            else s'.readHolders == s.readHolders && s'.readQ == s.readQ + [t]
  {
    RunInv(r);
  }

  /** A writer enters exactly if nobody holds the lock; otherwise it is the last of the write
      queue. */
  lemma {:induction false} WriterEnters(r: Run, t: Task)
    requires IsRun(r) && Enabled(Now(r), DoTryWrite(t)) && t != NULL
    ensures var s, s' := Now(r), Now(After(r, DoTryWrite(t)));
            if s.writers == multiset{} && s.readHolders == multiset{}
            then s'.writers == multiset{t} && s'.writeQ == s.writeQ
            else s'.writers == s.writers && s'.writeQ == s.writeQ + [t]
  {
    RunInv(r);
    assert |Now(r).readHolders| == 0 ==> Now(r).readHolders == multiset{};
    assert |Now(r).writers| == 0 ==> Now(r).writers == multiset{};
  }

  /** The lock is handed on: the first live writer is woken and leaves the queue with the dead
      before it. */
  ghost predicate HandedOn(s: State, s': State) {
    && s'.writeQ == Rest(s.writeQ, s.dead)
    && s'.woken == s.woken + if Popped(s.writeQ, s.dead) == NULL then {} else {Popped(s.writeQ, s.dead)}
  }

  lemma PopHandsOn(s: State)
    requires NULL !in s.writeQ
    ensures HandedOn(s, if |s.writeQ| > 0 then PopWriter(s) else s)
  {
  }

  /** A reader's release takes one hold, and hands the lock on exactly with the last. */
  lemma {:induction false} ReadReleased(r: Run, t: Task)
    requires IsRun(r) && t in Now(r).readHolders
    ensures var s, s' := Now(r), Now(After(r, DoEndRead(t)));
            && s'.readHolders == s.readHolders - multiset{t} && s'.writers == s.writers
            && if s'.readHolders == multiset{} then HandedOn(s, s') else s'.writeQ == s.writeQ && s'.woken == s.woken
  {
    RunInv(r);
    var s := Now(r);
    PopHandsOn(s);
    assert |s.readHolders - multiset{t}| == |s.readHolders| - 1;
    assert |s.readHolders - multiset{t}| == 0 ==> s.readHolders - multiset{t} == multiset{};
  }

  /** A writer's release always does. */
  lemma {:induction false} WriteReleased(r: Run, t: Task)
    requires IsRun(r) && t in Now(r).writers
    ensures var s, s' := Now(r), Now(After(r, DoEndWrite(t)));
            s'.writers == multiset{} && s'.readHolders == s.readHolders && HandedOn(s, s')
  {
    RunInv(r);
    WriterExcludes(r, t);
    PopHandsOn(Now(r));
  }

  /** So the branch that stops the kernel and the clamp of the counter are unreachable. */
  lemma {:induction false} GuardsDead(r: Run, t: Task)
    requires IsRun(r)
    ensures t in Now(r).readHolders ==> Now(r).readers > 0
    ensures Now(r).writeWaiters >= Removed(Now(r).writeQ, Now(r).dead)
  {
    RunInv(r);
    ClampDead(Now(r).writeQ, Now(r).dead);
  }

  // ---------------------------------------------------------------- wakeups of writers

  /** Some writer that waits is still alive. */
  ghost predicate LiveWriter(s: State) {
    exists i :: 0 <= i < |s.writeQ| && s.writeQ[i] !in s.dead
  }

  /** A free lock with a live writer in its queue has a woken writer on its way. */
  ghost predicate WriterComing(s: State) {
    CanWrite(s) && LiveWriter(s) ==> s.woken != {}
  }

  ghost predicate WokenOk(s: State) {
    Distinct(s.writeQ) && NULL !in s.woken && forall t | t in s.woken :: t !in s.writeQ && t !in s.dead
  }

  /** The step that loses this: the only writer on its way is killed. */
  ghost predicate Loses(s: State, a: Action) {
    a.DoKill? && s.woken == {a.t} && CanWrite(s) && LiveWriter(s)
  }

  lemma PopWriterWakes(s: State)
    requires Inv(s) && WokenOk(s)
    ensures WokenOk(PopWriter(s)) && (LiveWriter(s) ==> PopWriter(s).woken != {}) && (LiveWriter(PopWriter(s)) ==> LiveWriter(s))
    ensures s.woken <= PopWriter(s).woken
  {
    var s', n := PopWriter(s), DeadPrefix(s.writeQ, s.dead);
    DeadPrefixIs(s.writeQ, s.dead);
    if n < |s.writeQ| { assert s.writeQ[n] in s.writeQ && s.writeQ[n] in s'.woken; }
  }

  lemma ReleaseWakes(s: State, s1: State)
    requires Inv(s1) && WokenOk(s1)
    requires s == if s1.writeWaiters > 0 then PopWriter(s1) else s1
    ensures WokenOk(s) && WriterComing(s)
  {
    PopWriterWakes(s1);
  }

  lemma AttemptWakes(s: State, t: Task)
    requires Inv(s) && WokenOk(s) && WriterComing(s) && t !in s.writeQ
    ensures WokenOk(TryWrite(s, t)) && WriterComing(TryWrite(s, t))
  {
  }

  lemma KillWakes(s: State, t: Task)
    requires Inv(s) && WokenOk(s) && WriterComing(s)
    ensures var s' := Apply(s, DoKill(t)); WokenOk(s') && (WriterComing(s') <==> !Loses(s, DoKill(t)))
  {
    var s' := Apply(s, DoKill(t));
    if LiveWriter(s') {
      var i :| 0 <= i < |s'.writeQ| && s'.writeQ[i] !in s'.dead;
      assert s.writeQ[i] !in s.dead;
    }
    if LiveWriter(s) && s.woken == {t} {
      var i :| 0 <= i < |s.writeQ| && s.writeQ[i] !in s.dead;
      assert s.writeQ[i] in s.writeQ && s'.writeQ[i] !in s'.dead;
    }
    if u :| u in s.woken && u != t { assert u in s'.woken; }
  }

  /** Steps that are not about writers. */
  lemma SameWriters(s: State, a: Action)
    requires Inv(s) && WokenOk(s) && WriterComing(s) && Enabled(s, a) && (a.DoTryRead? || a.DoWakeReader?)
    ensures WokenOk(Apply(s, a)) && WriterComing(Apply(s, a))
  {
  }

  lemma EndReadWakes(s: State, t: Task)
    requires Inv(s) && WokenOk(s) && WriterComing(s) && Enabled(s, DoEndRead(t))
    ensures var s' := Apply(s, DoEndRead(t)); WokenOk(s') && WriterComing(s')
  {
    EndReadKeeps(s, t);
    var s1 := s.(readers := s.readers - 1, readHolders := s.readHolders - multiset{t});
    assert |s1.readHolders| == s1.readers;
    if s1.readers == 0 { ReleaseWakes(Apply(s, DoEndRead(t)), s1); }
  }

  lemma EndWriteWakes(s: State, t: Task)
    requires Inv(s) && WokenOk(s) && WriterComing(s) && Enabled(s, DoEndWrite(t))
    ensures var s' := Apply(s, DoEndWrite(t)); WokenOk(s') && WriterComing(s')
  {
    var s1 := s.(writerActive := false, writers := s.writers - multiset{t});
    assert |s1.writers| == |s.writers| - 1;
    ReleaseWakes(Apply(s, DoEndWrite(t)), s1);
  }

  /** Exactly that step does. */
  lemma LosesExactly(s: State, a: Action)
    requires Inv(s) && WokenOk(s) && WriterComing(s) && Enabled(s, a)
    ensures WokenOk(Apply(s, a)) && (WriterComing(Apply(s, a)) <==> !Loses(s, a))
  {
    match a
    case DoTryRead(t) => SameWriters(s, a);
    case DoEndRead(t) => EndReadWakes(s, t);
    case DoTryWrite(t) => AttemptWakes(s, t);
    case DoEndWrite(t) => EndWriteWakes(s, t);
    case DoWakeReader => SameWriters(s, a);
    case DoKill(t) => KillWakes(s, t);
  }

  ghost predicate AlwaysComing(r: Run) {
    WriterComing(Now(r)) && (r.After? ==> AlwaysComing(r.run))
  }

  ghost predicate NeverLoses(r: Run) {
    r.After? ==> NeverLoses(r.run) && !Loses(Now(r.run), r.action)
  }

  /** Over every run: no wakeup of a writer is lost if and only if the only writer on its way to
      a free lock is never killed while another one waits. */
  lemma {:induction false} RunLosesExactly(r: Run)
    requires IsRun(r)
    ensures AlwaysComing(r) <==> NeverLoses(r)
    ensures WokenOk(Now(r))
  {
    match r
    case Boot =>
    case After(p, a) =>
      RunLosesExactly(p);
      RunInv(p);
      if AlwaysComing(p) { LosesExactly(Now(p), a); } else { WokenKeeps(Now(p), a); }
  }

  lemma WokenKeeps(s: State, a: Action)
    requires Inv(s) && WokenOk(s) && Enabled(s, a)
    ensures WokenOk(Apply(s, a))
  {
    match a
    case DoEndRead(t) =>
      var s1 := s.(readers := s.readers - 1, readHolders := s.readHolders - multiset{t});
      assert |s1.readHolders| == s1.readers;
      PopWriterWakes(s1);
    case DoEndWrite(t) =>
      var s1 := s.(writerActive := false, writers := s.writers - multiset{t});
      assert |s1.writers| == |s.writers| - 1;
      PopWriterWakes(s1);
    case _ =>
  }

  /** Writer 1 holds the lock, 2 and 3 wait, 1 releases, 2 is killed on its way: the lock is free
      and 3 sleeps with nobody coming. */
  lemma LostWriterExample() returns (r: Run)
    ensures IsRun(r) && CanWrite(Now(r)) && LiveWriter(Now(r)) && Now(r).woken == {}
  {
    var s := State(0, false, 0, [], [], multiset{}, multiset{}, {}, {});
    r := Extend(Boot, DoTryWrite(1), s.(writerActive := true, writers := multiset{1}));
    r := Extend(r, DoTryWrite(2), Now(r).(writeWaiters := 1, writeQ := [2]));
    r := Extend(r, DoTryWrite(3), Now(r).(writeWaiters := 2, writeQ := [2, 3]));
    r := Extend(r, DoEndWrite(1), s.(writeWaiters := 1, writeQ := [3], woken := {2}));
    r := Extend(r, DoKill(2), s.(writeWaiters := 1, writeQ := [3], dead := {2}));
    assert Now(r).writeQ[0] !in Now(r).dead;
  }

  lemma Extend(r: Run, a: Action, s: State) returns (r': Run)
    requires IsRun(r) && Enabled(Now(r), a) && Apply(Now(r), a) == s
    ensures r' == After(r, a) && IsRun(r') && Now(r') == s
  {
    r' := After(r, a);
  }
}
