/** The locked sections of mutexes and semaphores (system/sync/mutex.cpp), ports
    (archs/kom/common/kport.cpp) and events (archs/kom/common/kevent.cpp). Each object carries
    the run of the Blocking protocol it has gone through, and each section adds the step it
    stands for; so what is proved of all runs holds of every object. */
module Primitives {
  import opened Common
  import opened WaitQueue
  import opened Blocking

  class NativeMutex {
    var locked: int
    const queue: WaitQueue
    ghost var woken: set<Task>
    ghost var holder: Task
    var dead: set<Task>
    ghost var run: Run

    ghost predicate Valid()
      reads this, queue
    {
      queue.Valid() && (locked != 0 <==> holder != NULL) && Follows(Mutex, run, Abs())
    }

    ghost function Abs(): State
      reads this, queue
    {
      State(if locked == 0 then 1 else 0, queue.items, woken, dead)
    }

    /** mutex_create: the start of a run. */
    constructor ()
      ensures Valid() && holder == NULL && run == Boot(1) && fresh(queue)
    {
      queue := new WaitQueue();
      locked, woken, holder, dead, run := 0, {}, NULL, {}, Boot(1);
    }

    /** One round of mutex_lock: the caller becomes the only holder, or waits. */
    method LockOnce(t: Task) returns (got: bool)
      requires Valid() && Enabled(Mutex, Abs(), DoAttempt(t), false)
      modifies this, queue
      ensures Valid() && run == After(old(run), DoAttempt(t)) && dead == old(dead)
      ensures if got then old(holder) == NULL && holder == t else old(holder) != NULL && holder == old(holder)
      ensures queue.items == old(queue.items) + if got then [] else [t]
    {
      ghost var before := Abs();
      woken := woken - {t};
      if locked == 0 {
        locked, holder, got := 1, t, true;
      } else {
        queue.Push(t);
        got := false;
      }
      Follow(Mutex, run, before, DoAttempt(t), Abs());
      run := After(run, DoAttempt(t));
    }

    /** mutex_unlock. */
    method Unlock() returns (next: Task)
      requires Valid()
      modifies this, queue
      ensures Valid() && holder == NULL && run == After(old(run), DoPost) && dead == old(dead) && next == Popped(old(queue.items), dead)
      ensures queue.items == Rest(old(queue.items), dead)
    {
      ghost var before := Abs();
      locked, holder := 0, NULL;
      var skipped;
      next, skipped := queue.PopSafe(dead);
      woken := if next == NULL then woken else woken + {next};
      Follow(Mutex, run, before, DoPost, Abs());
      run := After(run, DoPost);
    }

    /** process_kill of a task that may wait here. */
    method Kill(t: Task)
      requires Valid() && t !in dead
      modifies this`dead, this`woken, this`run
      ensures Valid() && run == After(old(run), DoKill(t)) && dead == old(dead) + {t}
    {
      ghost var before := Abs();
      dead, woken := dead + {t}, woken - {t};
      Follow(Mutex, run, before, DoKill(t), Abs());
      run := After(run, DoKill(t));
    }
  }

  class NativeSemaphore {
    var count: int
    const queue: WaitQueue
    ghost var woken: set<Task>
    var dead: set<Task>
    ghost var run: Run

    ghost predicate Valid()
      reads this, queue
    {
      queue.Valid() && Follows(Semaphore, run, Abs())
    }

    ghost function Abs(): State
      reads this, queue
    {
      State(count, queue.items, woken, dead)
    }

    /** sem_create. */
    constructor (initial: int)
      ensures Valid() && run == Boot(initial) && fresh(queue)
    {
      queue := new WaitQueue();
      count, woken, dead, run := initial, {}, {}, Boot(initial);
    }

    /** One round of sem_wait. */
    method WaitOnce(t: Task) returns (got: bool)
      requires Valid() && Enabled(Semaphore, Abs(), DoAttempt(t), false)
      modifies this, queue
      ensures Valid() && run == After(old(run), DoAttempt(t)) && dead == old(dead) && (got <==> old(count) > 0)
      ensures count == old(count) - (if got then 1 else 0) && queue.items == old(queue.items) + if got then [] else [t]
    {
      ghost var before := Abs();
      woken := woken - {t};
      if count > 0 {
        count, got := count - 1, true;
      } else {
        queue.Push(t);
        got := false;
      }
      Follow(Semaphore, run, before, DoAttempt(t), Abs());
      run := After(run, DoAttempt(t));
    }

    /** sem_signal. */
    method Signal() returns (next: Task)
      requires Valid()
      modifies this, queue
      ensures Valid() && run == After(old(run), DoPost) && dead == old(dead) && next == Popped(old(queue.items), dead)
      ensures count == old(count) + 1 && queue.items == Rest(old(queue.items), dead)
    {
      ghost var before := Abs();
      count := count + 1;
      var skipped;
      next, skipped := queue.PopSafe(dead);
      woken := if next == NULL then woken else woken + {next};
      Follow(Semaphore, run, before, DoPost, Abs());
      run := After(run, DoPost);
    }

    /** process_kill of a task that may wait here. */
    method Kill(t: Task)
      requires Valid() && t !in dead
      modifies this`dead, this`woken, this`run
      ensures Valid() && run == After(old(run), DoKill(t)) && dead == old(dead) + {t}
    {
      ghost var before := Abs();
      dead, woken := dead + {t}, woken - {t};
      Follow(Semaphore, run, before, DoKill(t), Abs());
      run := After(run, DoKill(t));
    }
  }

  datatype Error = OK | INVALID_TYPE | NO_MEMORY

  class KPort<Packet> {
    var packets: seq<Packet>
    const queue: WaitQueue
    ghost var woken: set<Task>
    var dead: set<Task>
    ghost var run: Run

    ghost predicate Valid()
      reads this, queue
    {
      queue.Valid() && Follows(Port, run, Abs())
    }

    ghost function Abs(): State
      reads this, queue
    {
      State(|packets|, queue.items, woken, dead)
    }

    constructor ()
      ensures Valid() && packets == [] && run == Boot(0) && fresh(queue)
    {
      queue := new WaitQueue();
      packets, woken, dead, run := [], {}, {}, Boot(0);
    }

    /** KPort::queue: without a packet or memory nothing changes. */
    method Queue(packet: Option<Packet>, memory: bool) returns (e: Error, waiter: Task)
      requires Valid()
      modifies this, queue
      ensures Valid() && dead == old(dead) && (e == OK <==> packet.Some? && memory)
      ensures e == OK ==> packets == old(packets) + [packet.value] && run == After(old(run), DoPost)
      ensures e == OK ==> waiter == Popped(old(queue.items), dead) && queue.items == Rest(old(queue.items), dead)
      ensures e != OK ==> e == (if packet.None? then INVALID_TYPE else NO_MEMORY)
      ensures e != OK ==> packets == old(packets) && run == old(run) && waiter == NULL
    {
      if packet.None? {
        return INVALID_TYPE, NULL;
      }
      if !memory {
        return NO_MEMORY, NULL;
      }
      ghost var before := Abs();
      packets := packets + [packet.value];
      var skipped;
      waiter, skipped := queue.PopSafe(dead);
      woken := if waiter == NULL then woken else woken + {waiter};
      Follow(Port, run, before, DoPost, Abs());
      run := After(run, DoPost);
      e := OK;
    }

    /** One round of KPort::wait: the oldest packet, or the caller waits. */
    method WaitOnce(t: Task) returns (r: Option<Packet>)
      requires Valid() && Enabled(Port, Abs(), DoAttempt(t), false)
      modifies this, queue
      ensures Valid() && run == After(old(run), DoAttempt(t)) && dead == old(dead)
      ensures if r.Some? then old(packets) == [r.value] + packets else old(packets) == packets == []
      ensures queue.items == old(queue.items) + if r.Some? then [] else [t]
    {
      ghost var before := Abs();
      woken := woken - {t};
      if packets != [] {
        r := Some(packets[0]);
        packets := packets[1..];
      } else {
        queue.Push(t);
        r := None;
      }
      Follow(Port, run, before, DoAttempt(t), Abs());
      run := After(run, DoAttempt(t));
    }

    /** process_kill of a task that may wait here. */
    method Kill(t: Task)
      requires Valid() && t !in dead
      modifies this`dead, this`woken, this`run
      ensures Valid() && run == After(old(run), DoKill(t)) && dead == old(dead) + {t}
    {
      ghost var before := Abs();
      dead, woken := dead + {t}, woken - {t};
      Follow(Port, run, before, DoKill(t), Abs());
      run := After(run, DoKill(t));
    }
  }

  class KEvent {
    var signaled: bool
    const autoReset: bool
    const queue: WaitQueue
    ghost var woken: set<Task>
    var dead: set<Task>
    ghost var run: Run

    /** A manual-reset event stays signalled for every waiter and follows no such run. */
    ghost predicate Valid()
      reads this, queue
    {
      queue.Valid() && (autoReset ==> Follows(AutoEvent, run, Abs()))
    }

    ghost function Abs(): State
      reads this, queue
    {
      State(if signaled then 1 else 0, queue.items, woken, dead)
    }

    constructor (autoReset: bool)
      ensures Valid() && !signaled && this.autoReset == autoReset && run == Boot(0) && fresh(queue)
    {
      queue := new WaitQueue();
      signaled, this.autoReset, woken, dead, run := false, autoReset, {}, {}, Boot(0);
    }

    /** One round of KEvent::wait; a manual event stays signalled. */
    method WaitOnce(t: Task) returns (got: bool)
      requires Valid() && Enabled(AutoEvent, Abs(), DoAttempt(t), false)
      modifies this, queue
      ensures Valid() && dead == old(dead) && (got <==> old(signaled)) && (autoReset ==> run == After(old(run), DoAttempt(t)))
      ensures signaled == (old(signaled) && !autoReset) && queue.items == old(queue.items) + if got then [] else [t]
    {
      ghost var before := Abs();
      woken := woken - {t};
      got := signaled;
      if signaled {
        if autoReset {
          signaled := false;
        }
      } else {
        queue.Push(t);
      }
      if autoReset { Follow(AutoEvent, run, before, DoAttempt(t), Abs()); }
      run := After(run, DoAttempt(t));
    }

    /** KEvent::signal wakes one waiter. */
    method Signal() returns (next: Task)
      requires Valid()
      modifies this, queue
      ensures Valid() && signaled && dead == old(dead) && run == After(old(run), DoPost)
      ensures next == Popped(old(queue.items), dead) && queue.items == Rest(old(queue.items), dead)
    {
      ghost var before := Abs();
      signaled := true;
      var skipped;
      next, skipped := queue.PopSafe(dead);
      woken := if next == NULL then woken else woken + {next};
      if autoReset { Follow(AutoEvent, run, before, DoPost, Abs()); }
      run := After(run, DoPost);
    }

    /** KEvent::reset. */
    method Reset()
      requires Valid()
      modifies this`signaled, this`run
      ensures Valid() && !signaled && run == After(old(run), DoReset)
    {
      ghost var before := Abs();
      signaled := false;
      if autoReset { Follow(AutoEvent, run, before, DoReset, Abs()); }
      run := After(run, DoReset);
    }

    /** process_kill of a task that may wait here. */
    method Kill(t: Task)
      requires Valid() && t !in dead
      modifies this`dead, this`woken, this`run
      ensures Valid() && run == After(old(run), DoKill(t)) && dead == old(dead) + {t}
    {
      ghost var before := Abs();
      dead, woken := dead + {t}, woken - {t};
      if autoReset { Follow(AutoEvent, run, before, DoKill(t), Abs()); }
      run := After(run, DoKill(t));
    }
  }
}
