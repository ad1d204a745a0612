/** The rwlock object of system/sync/rwlock.cpp: its sections are the steps of
    RwLockProtocol, and the reader wake-up loop wakes every live reader. */
module RwLock {
  import opened Common
  import opened WaitQueue
  import opened RwLockProtocol

  /** The live tasks of a queue, in order. */
  function LiveOf(s: seq<Task>, dead: set<Task>): seq<Task> {
    if s == [] then [] else (if s[0] in dead then [] else [s[0]]) + LiveOf(s[1..], dead)
  }

  lemma {:induction false} LiveOfPop(s: seq<Task>, dead: set<Task>)
    requires NULL !in s
    ensures LiveOf(s, dead) == (if Popped(s, dead) == NULL then [] else [Popped(s, dead)]) + LiveOf(Rest(s, dead), dead)
    ensures Popped(s, dead) == NULL ==> LiveOf(s, dead) == [] && Rest(s, dead) == []
    ensures NULL !in Rest(s, dead)
  {
    DeadPrefixIs(s, dead);
    if s != [] && s[0] in dead {
      LiveOfPop(s[1..], dead);
      DeadPrefixIs(s[1..], dead);
      var n := DeadPrefix(s[1..], dead);
      assert Popped(s, dead) == Popped(s[1..], dead);
      assert n < |s| - 1 ==> s[n + 2..] == s[1..][n + 1..];
      assert Rest(s, dead) == Rest(s[1..], dead);
    }
  }

  /** Pops until nothing is left. */
  method DrainQueue(q: WaitQueue, dead: set<Task>) returns (woken: seq<Task>)
    requires q.Valid() && NULL !in q.items
    modifies q
    ensures q.Valid() && q.items == [] && woken == LiveOf(old(q.items), dead)
  {
    woken := [];
    while true
      invariant q.Valid() && NULL !in q.items && woken + LiveOf(q.items, dead) == LiveOf(old(q.items), dead)
      decreases |q.items|
    {
      LiveOfPop(q.items, dead);
      DeadPrefixIs(q.items, dead);
      var r, skipped := q.PopSafe(dead);
      if r == NULL {
        break;
      }
      assert woken + ([r] + LiveOf(q.items, dead)) == woken + [r] + LiveOf(q.items, dead);
      woken := woken + [r];
    }
  }

  class NativeRwLock {
    var readers: int
    var writerActive: bool
    var writeWaiters: int
    const readQ: WaitQueue
    const writeQ: WaitQueue
    ghost var readHolders: multiset<Task>
    ghost var writers: multiset<Task>
    ghost var woken: set<Task>

    ghost function Abs(dead: set<Task>): State
      reads this, readQ, writeQ
    {
      State(readers, writerActive, writeWaiters, readQ.items, writeQ.items, readHolders, writers, woken, dead)
    }

    ghost predicate Valid()
      reads this, readQ, writeQ
    {
      readQ != writeQ && readQ.Valid() && writeQ.Valid() && Inv(Abs({}))
    }

    /** rwlock_create. */
    constructor ()
      ensures Valid() && Abs({}) == Now(Boot) && fresh(readQ) && fresh(writeQ)
    {
      readers, writerActive, writeWaiters := 0, false, 0;
      readQ := new WaitQueue();
      writeQ := new WaitQueue();
      readHolders, writers, woken := multiset{}, multiset{}, {};
    }

    /** One round of rwlock_acquire_read. */
    method AcquireReadOnce(t: Task, ghost dead: set<Task>) returns (got: bool)
      requires Valid() && t !in readQ.items
      modifies this, readQ
      ensures Valid() && Abs(dead) == TryRead(old(Abs(dead)), t) && (got <==> CanRead(old(Abs(dead))))
    {
      if !writerActive && writeWaiters == 0 && readers < MAX_READERS {
        readers := readers + 1;
        readHolders := readHolders + multiset{t};
        return true;
      }
      if t != NULL {
        readQ.Push(t);
      }
      return false;
    }

    /** The pop of a writer under the lock, with its counter update. */
    method PopOne(dead: set<Task>) returns (next: Task)
      requires Valid()
      modifies this`writeWaiters, this`woken, writeQ
      ensures Valid() && Abs(dead) == PopWriter(old(Abs(dead))) && next == Popped(old(writeQ.items), dead)
    {
      PopWriterKeeps(Abs(dead));
      var skipped;
      next, skipped := writeQ.PopSafe(dead);
      var removed := (if next != NULL then 1 else 0) + skipped;
      writeWaiters := if writeWaiters >= removed then writeWaiters - removed else 0;
      woken := if next == NULL then woken else woken + {next};
    }

    /** rwlock_release_read by a holder: the last reader wakes the first live writer. */
    method ReleaseRead(t: Task, dead: set<Task>) returns (next: Task)
      requires Valid() && t in readHolders
      modifies this, writeQ
      ensures Valid() && Abs(dead) == EndRead(old(Abs(dead)), t)
      ensures next == if old(readers) == 1 && old(writeWaiters) > 0 then Popped(old(writeQ.items), dead) else NULL
    {
      assert readers > 0 && |readHolders - multiset{t}| == |readHolders| - 1;
      readers := readers - 1;
      readHolders := readHolders - multiset{t};
      next := NULL;
      if readers == 0 && writeWaiters > 0 {
        next := PopOne(dead);
      }
    }

    /** One round of rwlock_acquire_write. */
    method AcquireWriteOnce(t: Task, ghost dead: set<Task>) returns (got: bool)
      requires Valid() && t !in writeQ.items
      modifies this, writeQ
      ensures Valid() && Abs(dead) == TryWrite(old(Abs(dead)), t) && (got <==> CanWrite(old(Abs(dead))))
    {
      if !writerActive && readers == 0 {
        writerActive := true;
        writers, woken := writers + multiset{t}, woken - {t};
        return true;
      }
      writeWaiters := writeWaiters + 1;
      if t != NULL {
        WaitForWrite(t);
      } else {
        writeWaiters := writeWaiters - 1;
      }
      return false;
    }

    /** The caller, already counted, joins the writers' queue. */
    method WaitForWrite(t: Task)
      requires readQ != writeQ && writeQ.Valid() && t != NULL && t !in writeQ.items
      modifies this`woken, writeQ
      ensures writeQ.Valid() && writeQ.items == old(writeQ.items) + [t] && woken == old(woken) - {t}
    {
      writeQ.Push(t);
      woken := woken - {t};
    }

    /** rwlock_release_write by the writer: a waiting writer goes first, and only if none is
        counted are readers to be woken. */
    method ReleaseWrite(t: Task, dead: set<Task>) returns (next: Task, wakeReaders: bool)
      requires Valid() && t in writers
      modifies this, writeQ
      ensures Valid() && Abs(dead) == EndWrite(old(Abs(dead)), t) && (wakeReaders <==> old(writeQ.items) == [])
      ensures next == if wakeReaders then NULL else Popped(old(writeQ.items), dead)
    {
      assert |writers - multiset{t}| == |writers| - 1;
      writerActive := false;
      writers := writers - multiset{t};
      if writeWaiters > 0 {
        next := PopOne(dead);
        wakeReaders := false;
      } else {
        next, wakeReaders := NULL, true;
      }
    }

    /** The loop that wakes readers, run with no step of others in between: every live reader
        in the queue, in order. */
    method WakeReaders(dead: set<Task>) returns (woken: seq<Task>)
      requires Valid() && NULL !in readQ.items
      modifies readQ
      ensures Valid() && readQ.items == [] && woken == LiveOf(old(readQ.items), dead)
    {
      woken := DrainQueue(readQ, dead);
    }
  }
}
