/** The wait queue of system/process/process.c: a singly linked list through the tasks'
    wait_next fields, and a pop that skips tasks killed while they waited. */
module WaitQueue {
  import opened Common

  type Task = Ptr

  /** How many tasks at the front of the queue are dead. */
  function DeadPrefix(s: seq<Task>, dead: set<Task>): nat {
    if s == [] || s[0] !in dead then 0 else 1 + DeadPrefix(s[1..], dead)
  }

  /** It counts exactly the dead tasks in front of the first live one. */
  lemma {:induction false} DeadPrefixIs(s: seq<Task>, dead: set<Task>)
    ensures var n := DeadPrefix(s, dead);
            n <= |s| && (forall i | 0 <= i < n :: s[i] in dead) && (n < |s| ==> s[n] !in dead)
  {
    if s != [] && s[0] in dead {
      DeadPrefixIs(s[1..], dead);
      var n := DeadPrefix(s, dead);
      forall i | 0 <= i < n ensures s[i] in dead { if i > 0 { assert s[i] == s[1..][i - 1]; } }
    }
  }

  /** The task a pop returns, and what it leaves. */
  function Popped(s: seq<Task>, dead: set<Task>): Task {
    var n := DeadPrefix(s, dead); if n < |s| then s[n] else NULL
  }

  function Rest(s: seq<Task>, dead: set<Task>): (r: seq<Task>)
    ensures |r| <= |s|
  {
    var n := DeadPrefix(s, dead); if n < |s| then s[n + 1..] else []
  }

  class WaitQueue {
    var head: Task
    var tail: Task
    var next: map<Task, Task>
    ghost var items: seq<Task>

    ghost predicate Valid()
      reads this
    {
      Chained(next, head, tail, items)
    }

    /** wait_queue_init. */
    constructor ()
      ensures Valid() && items == []
    {
      head, tail, next, items := NULL, NULL, map[], [];
    }

    /** wait_queue_push. */
    method Push(t: Task)
      requires Valid() && t != NULL && t !in items
      modifies this
      ensures Valid() && items == old(items) + [t]
    {
      AppendKeeps(next, head, tail, items, t);
      assert head == NULL <==> items == [] by { assert items != [] ==> LinkOk(next, items, 0); }
      next := next[t := NULL];
      if head == NULL {
        head, tail := t, t;
      } else {
        next := next[tail := t];
        tail := t;
      }
      items := items + [t];
    }

    /** wait_queue_pop_safe: the first live task, with every dead task before it removed and
        counted; null when only dead tasks were left. */
    method PopSafe(dead: set<Task>) returns (t: Task, skipped: nat)
      requires Valid()
      modifies this
      ensures Valid() && t == Popped(old(items), dead) && items == Rest(old(items), dead)
      ensures skipped == DeadPrefix(old(items), dead)
      ensures |old(items)| == |items| + skipped + if t == NULL then 0 else 1
    {
      skipped := 0;
      ghost var s := items;
      DeadPrefixIs(s, dead);
      while head != NULL
        invariant Valid() && skipped <= |s| && items == s[skipped..]
        invariant skipped + DeadPrefix(items, dead) == DeadPrefix(s, dead)
        decreases |items|
      {
        assert items != [];
        UnlinkKeeps(next, head, tail, items);
        assert LinkOk(next, items, 0);
        t := head;
        head := next[t];
        if head == NULL {
          tail := NULL;
        }
        next := next[t := NULL];
        items := items[1..];
        if t in dead {
          skipped := skipped + 1;
        } else {
          return;
        }
      }
      assert items == [] by { assert items != [] ==> LinkOk(next, items, 0); }
      t := NULL;
    }
  }
}
