/** Message channels, archs/kom/common/kchannel.cpp: two endpoints, each with an inbox that
    the other one fills and a queue of the readers that wait for it. */
module Channel {
  import opened Common
  import opened WaitQueue
  import Blocking

  /** A message's payload: bytes and handles. */
  datatype Message = Message(data: seq<nat>, handles: seq<nat>)

  // ---------------------------------------------------------------- one inbox

  function Payloads(body: map<Ptr, Message>, s: seq<Ptr>): seq<Message>
    requires forall i | 0 <= i < |s| :: s[i] in body
  {
    seq(|s|, i requires 0 <= i < |s| => body[s[i]])
  }

  /** The linked list from state->head[i] to state->tail[i]. */
  class MessageList {
    var head: Ptr
    var tail: Ptr
    var next: map<Ptr, Ptr>
    var body: map<Ptr, Message>
    ghost var nodes: seq<Ptr>

    ghost predicate Valid()
      reads this
    {
      Chained(next, head, tail, nodes) && forall i | 0 <= i < |nodes| :: nodes[i] in body
    }

    ghost function Contents(): seq<Message>
      requires Valid()
      reads this
    {
      Payloads(body, nodes)
    }

    constructor ()
      ensures Valid() && Contents() == []
    {
      head, tail, next, body, nodes := NULL, NULL, map[], map[], [];
    }

    lemma HeadNull()
      requires Valid()
      ensures head == NULL <==> nodes == []
      ensures nodes != [] ==> head in body && head in next && Contents()[0] == body[head]
    {
      assert nodes != [] ==> LinkOk(next, nodes, 0);
    }

    /** The enqueue of write. */
    method Append(node: Ptr, m: Message)
      requires Valid() && node != NULL && node !in nodes
      modifies this
      ensures Valid() && Contents() == old(Contents()) + [m]
    {
      HeadNull();
      AppendKeeps(next, head, tail, nodes, node);
      body := body[node := m];
      next := next[node := NULL];
      if head == NULL {
        head, tail := node, node;
      } else {
        next := next[tail := node];
        tail := node;
      }
      nodes := nodes + [node];
    }

    /** The dequeue of read. */
    method RemoveFirst()
      requires Valid() && Contents() != []
      modifies this
      ensures Valid() && Contents() == old(Contents())[1..]
    {
      HeadNull();
      UnlinkKeeps(next, head, tail, nodes);
      var first := head;
      head := next[first];
      if head == NULL {
        tail := NULL;
      }
      next := next[first := NULL];
      nodes := nodes[1..];
      assert Contents() == old(Contents())[1..];
    }

    /** The destructor's loop, which frees every message. */
    method Clear() returns (freed: nat)
      requires Valid()
      modifies this
      ensures Valid() && Contents() == [] && freed == |old(Contents())|
    {
      freed := 0;
      HeadNull();
      var curr := head;
      while curr != NULL
        invariant Valid() && curr == head && freed + |Contents()| == |old(Contents())|
        decreases |Contents()|
      {
        HeadNull();
        RemoveFirst();
        curr := head;
        freed := freed + 1;
      }
      HeadNull();
      head, tail := NULL, NULL;
    }
  }

  /** One endpoint's inbox, with the readers in state->wait_q[i]. */
  class Inbox {
    const mail: MessageList
    const waiters: WaitQueue
    var dead: set<Task>
    ghost var sent: seq<Message>
    ghost var got: seq<Message>
    ghost var woken: set<Task>
    ghost var run: Blocking.Run

    ghost predicate Valid()
      reads this, mail, waiters
    {
      mail.Valid() && waiters.Valid()
    }

    ghost function Contents(): seq<Message>
      requires Valid()
      reads this, mail, waiters
    {
      mail.Contents()
    }

    /** What the Blocking protocol sees of it. */
    ghost function Abs(): Blocking.State
      requires Valid()
      reads this, mail, waiters
    {
      Blocking.State(|Contents()|, waiters.items, woken, dead)
    }

    /** While the endpoint is open, messages read followed by messages queued are the messages
        whose write succeeded, in order, and its history is a run of that protocol. */
    ghost predicate Open()
      requires Valid()
      reads this, mail, waiters
    {
      got + Contents() == sent && Blocking.Follows(Blocking.Inbox, run, Abs())
    }

    constructor ()
      ensures Valid() && Open() && sent == got == [] && run == Blocking.Boot(0) && dead == {} && fresh(mail) && fresh(waiters)
    {
      mail := new MessageList();
      waiters := new WaitQueue();
      dead, woken, run, sent, got := {}, {}, Blocking.Boot(0), [], [];
    }

    /** A reader other than those that wait. */
    ghost predicate Reader(t: Task)
      reads this, waiters
    {
      t != NULL && t !in dead && t !in waiters.items
    }

    /** The pop of one reader, to be woken after the lock is released. */
    method Wake() returns (waiter: Task)
      requires waiters.Valid()
      modifies this`woken, waiters
      ensures waiters.Valid() && waiter == Popped(old(waiters.items), dead) && waiters.items == Rest(old(waiters.items), dead)
      ensures woken == if waiter == NULL then old(woken) else old(woken) + {waiter}
    {
      var skipped;
      waiter, skipped := waiters.PopSafe(dead);
      woken := if waiter == NULL then woken else woken + {waiter};
    }

    /** The enqueue of write and the pop of one reader. */
    method Post(node: Ptr, m: Message) returns (waiter: Task)
      requires Valid() && Open() && node != NULL && node !in mail.nodes
      modifies this, mail, waiters
      ensures Valid() && Open() && Contents() == old(Contents()) + [m] && sent == old(sent) + [m] && got == old(got) && dead == old(dead)
      ensures run == Blocking.After(old(run), Blocking.DoPost) && waiter == Popped(old(waiters.items), dead)
    {
      ghost var was, before := Contents(), Abs();
      mail.Append(node, m);
      waiter := Wake();
      sent, run := sent + [m], Blocking.After(run, Blocking.DoPost);
      assert got + (was + [m]) == got + was + [m];
      Blocking.Follow(Blocking.Inbox, old(run), before, Blocking.DoPost, Abs());
    }

    /** A reader takes the first message. */
    method Take(t: Task)
      requires Valid() && Open() && Contents() != [] && Reader(t)
      modifies this, mail
      ensures Valid() && Open() && Contents() == old(Contents())[1..] && got == old(got) + old(Contents())[..1] && sent == old(sent) && dead == old(dead)
      ensures run == Blocking.After(old(run), Blocking.DoAttempt(t))
    {
      ghost var was, before := Contents(), Abs();
      mail.RemoveFirst();
      got, woken, run := got + was[..1], woken - {t}, Blocking.After(run, Blocking.DoAttempt(t));
      assert got + was[1..] == old(got) + was;
      Blocking.Follow(Blocking.Inbox, old(run), before, Blocking.DoAttempt(t), Abs());
    }

    /** A reader finds nothing and waits. */
    method Wait(t: Task)
      requires Valid() && Open() && Contents() == [] && Reader(t)
      modifies this`woken, this`run, waiters
      ensures Valid() && Open() && Contents() == old(Contents()) && run == Blocking.After(old(run), Blocking.DoAttempt(t))
    {
      ghost var before := Abs();
      waiters.Push(t);
      woken, run := woken - {t}, Blocking.After(run, Blocking.DoAttempt(t));
      Blocking.Follow(Blocking.Inbox, old(run), before, Blocking.DoAttempt(t), Abs());
    }

    /** A reader returns without a message. */
    ghost method Leave(t: Task)
      requires Valid() && Open() && Reader(t)
      modifies this`woken, this`run
      ensures Valid() && Open() && Contents() == old(Contents()) && run == Blocking.After(old(run), Blocking.DoLeave(t))
    {
      ghost var before := Abs();
      woken, run := woken - {t}, Blocking.After(run, Blocking.DoLeave(t));
      Blocking.Follow(Blocking.Inbox, old(run), before, Blocking.DoLeave(t), Abs());
    }

    /** process_kill of a task that may wait here. */
    method Kill(t: Task)
      requires Valid() && Open() && t !in dead
      modifies this`dead, this`woken, this`run
      ensures Valid() && Open() && Contents() == old(Contents()) && run == Blocking.After(old(run), Blocking.DoKill(t)) && dead == old(dead) + {t}
    {
      ghost var before := Abs();
      dead, woken, run := dead + {t}, woken - {t}, Blocking.After(run, Blocking.DoKill(t));
      Blocking.Follow(Blocking.Inbox, old(run), before, Blocking.DoKill(t), Abs());
    }

    /** The other end closes and wakes one reader. */
    method Nudge() returns (waiter: Task)
      requires Valid() && Open()
      modifies this`woken, this`run, waiters
      ensures Valid() && Open() && Contents() == old(Contents())
      ensures run == Blocking.After(old(run), Blocking.DoNudge) && waiter == Popped(old(waiters.items), dead)
    {
      ghost var before := Abs();
      waiter := Wake();
      run := Blocking.After(run, Blocking.DoNudge);
      Blocking.Follow(Blocking.Inbox, old(run), before, Blocking.DoNudge, Abs());
    }
  }

  // ---------------------------------------------------------------- results

  datatype Error = OK | INVALID_TYPE | NO_MEMORY | PEER_CLOSED

  datatype ReadResult =
    | Got(dataSize: nat, handleCount: nat, data: Option<seq<nat>>, handles: Option<seq<nat>>)
    | TooSmall(dataSize: nat, handleCount: nat)
    | BadArgument
    | PeerClosed
    | WouldBlock

  /** The caller's buffers: their sizes, if given, and whether there is anything to copy to. */
  datatype Buffers = Buffers(dataSize: Option<nat>, handleCount: Option<nat>, data: bool, handles: bool)

  /** One round of read on an inbox. */
  function Reading(inbox: seq<Message>, peerClosed: bool, b: Buffers): ReadResult {
    if b.dataSize.None? || b.handleCount.None? then BadArgument
    else if inbox != [] then
      var m := inbox[0];
      if b.dataSize.value < |m.data| || b.handleCount.value < |m.handles| then TooSmall(|m.data|, |m.handles|)
      else Got(|m.data|, |m.handles|, if |m.data| > 0 && b.data then Some(m.data) else None,
               if |m.handles| > 0 && b.handles then Some(m.handles) else None)
    else if peerClosed then PeerClosed
    else WouldBlock
  }

  /** Both sizes are given and the message fits them. */
  predicate Fits(m: Message, b: Buffers) {
    b.dataSize.Some? && b.handleCount.Some? && |m.data| <= b.dataSize.value && |m.handles| <= b.handleCount.value
  }

  /** What a reader may rely on: which result it gets, and that the first message is copied whole
      to the buffers it gave. */
  predicate ReadsRight(inbox: seq<Message>, peerClosed: bool, b: Buffers, r: ReadResult) {
    var sizes := b.dataSize.Some? && b.handleCount.Some?;
    && (r.BadArgument? <==> !sizes)
    && (r.Got? <==> inbox != [] && Fits(inbox[0], b))
    && (r.TooSmall? <==> sizes && inbox != [] && !Fits(inbox[0], b))
    && (r.PeerClosed? <==> sizes && inbox == [] && peerClosed)
    && (r.WouldBlock? <==> sizes && inbox == [] && !peerClosed)
    && (r.Got? || r.TooSmall? ==> r.dataSize == |inbox[0].data| && r.handleCount == |inbox[0].handles|)
    && (r.Got? ==> r.data == if b.data && inbox[0].data != [] then Some(inbox[0].data) else None)
    && (r.Got? ==> r.handles == if b.handles && inbox[0].handles != [] then Some(inbox[0].handles) else None)
  }

  lemma ReadingIs(inbox: seq<Message>, peerClosed: bool, b: Buffers)
    ensures ReadsRight(inbox, peerClosed, b, Reading(inbox, peerClosed, b))
  {
  }

  /** What the other end can do to an inbox between two reads by its only reader. */
  datatype Event = Arrives(m: Message) | PeerCloses

  /** The messages waiting and whether the peer is closed, after some events; a closed peer
      sends nothing. */
  function Through(inbox: seq<Message>, closed: bool, es: seq<Event>): (seq<Message>, bool) {
    if es == [] then (inbox, closed)
    else
      var (q, c) := Through(inbox, closed, es[..|es| - 1]);
      if es[|es| - 1].PeerCloses? then (q, true) else if c then (q, c) else (q + [es[|es| - 1].m], c)
  }

  lemma {:induction false} ThroughKeeps(inbox: seq<Message>, closed: bool, es: seq<Event>)
    ensures inbox <= Through(inbox, closed, es).0 && (closed ==> Through(inbox, closed, es) == (inbox, true))
  {
    if es != [] { ThroughKeeps(inbox, closed, es[..|es| - 1]); }
  }

  /** The message that a result carries. */
  function Carried(r: ReadResult): Message
    requires r.Got?
  {
    Message(if r.data.Some? then r.data.value else [], if r.handles.Some? then r.handles.value else [])
  }

  /** A read that was too small tells how large to be: whatever the other end does in between,
      the retry gets the whole message that was refused. */
  lemma RetrySucceeds(inbox: seq<Message>, closed: bool, es: seq<Event>, b: Buffers, r: ReadResult, b2: Buffers, r2: ReadResult)
    requires ReadsRight(inbox, closed, b, r) && r.TooSmall? && b2.data && b2.handles
    requires b2.dataSize == Some(r.dataSize) && b2.handleCount == Some(r.handleCount)
    requires var (q, c) := Through(inbox, closed, es); ReadsRight(q, c, b2, r2)
    ensures inbox != [] && r2.Got? && Carried(r2) == inbox[0]
  {
    ThroughKeeps(inbox, closed, es);
  }

  // ---------------------------------------------------------------- the channel

  class ChannelState {
    const inbox0: Inbox
    const inbox1: Inbox
    var closed0: bool
    var closed1: bool
    var refCount: nat

    /** The inbox of endpoint 1 or 0, and whether it is closed. */
    function Box(one: bool): Inbox { if one then inbox1 else inbox0 }

    predicate Closed(one: bool)
      reads this
    {
      if one then closed1 else closed0
    }

    ghost predicate Valid()
      reads this, inbox0, inbox1, inbox0.waiters, inbox1.waiters, inbox0.mail, inbox1.mail
    {
      && inbox0 != inbox1 && inbox0.waiters != inbox1.waiters && inbox0.mail != inbox1.mail
      && inbox0.Valid() && (if closed0 then inbox0.Contents() == [] else inbox0.Open())
      && inbox1.Valid() && (if closed1 then inbox1.Contents() == [] else inbox1.Open())
      && refCount == (if closed0 then 0 else 1) + (if closed1 then 0 else 1)
    }

    /** kchannel_create. */
    constructor ()
      ensures Valid() && !closed0 && !closed1 && forall one :: Box(one).sent == Box(one).got == []
      ensures fresh(inbox0) && fresh(inbox1) && fresh(inbox0.waiters) && fresh(inbox1.waiters) && fresh(inbox0.mail) && fresh(inbox1.mail)
    {
      inbox0 := new Inbox();
      inbox1 := new Inbox();
      closed0, closed1, refCount := false, false, 2;
    }

    /** write's checks and copies before it takes the lock. node is null, dataMemory or
        handleMemory false, when that allocation fails. */
    method Prepare(data: Option<seq<nat>>, dataSize: nat, handles: Option<seq<nat>>, handleCount: nat,
                   node: Ptr, dataMemory: bool, handleMemory: bool) returns (e: Error, m: Message)
      requires (data.Some? ==> dataSize <= |data.value|) && (handles.Some? ==> handleCount <= |handles.value|)
      ensures e == INVALID_TYPE <==> (dataSize > 0 && data.None?) || (handleCount > 0 && handles.None?)
      ensures e == NO_MEMORY <==> e != INVALID_TYPE && (node == NULL || (dataSize > 0 && !dataMemory) || (handleCount > 0 && !handleMemory))
      ensures e == OK ==> |m.data| == dataSize && |m.handles| == handleCount && e != PEER_CLOSED
      ensures e == OK && dataSize > 0 ==> m.data == data.value[..dataSize]
      ensures e == OK && handleCount > 0 ==> m.handles == handles.value[..handleCount]
      ensures e != PEER_CLOSED
    {
      m := Message([], []);
      if dataSize > 0 && data.None? { return INVALID_TYPE, m; }
      if handleCount > 0 && handles.None? { return INVALID_TYPE, m; }
      if node == NULL { return NO_MEMORY, m; }
      if dataSize > 0 {
        if !dataMemory { return NO_MEMORY, m; }
        m := m.(data := data.value[..dataSize]);
      }
      if handleCount > 0 {
        if !handleMemory { return NO_MEMORY, m; }
        m := m.(handles := handles.value[..handleCount]);
      }
      e := OK;
    }

    /** write's locked section, to endpoint 1 if `one` else to endpoint 0: refused exactly when
        that is closed, otherwise last in its inbox, and its first live reader is woken. */
    method Deliver(one: bool, node: Ptr, m: Message) returns (e: Error, waiter: Task)
      requires Valid() && node != NULL && node !in Box(one).mail.nodes
      modifies Box(one), Box(one).mail, Box(one).waiters
      ensures Valid() && e == if Closed(one) then PEER_CLOSED else OK
      ensures e == OK ==> Box(one).Contents() == old(Box(one).Contents()) + [m] && Box(one).sent == old(Box(one).sent) + [m]
      ensures e == OK ==> Box(one).got == old(Box(one).got) && Box(one).run == Blocking.After(old(Box(one).run), Blocking.DoPost)
      ensures e != OK ==> waiter == NULL && unchanged(Box(one)) && unchanged(Box(one).mail) && unchanged(Box(one).waiters)
    {
      if Closed(one) {
        return PEER_CLOSED, NULL;
      }
      waiter := Box(one).Post(node, m);
      e := OK;
    }

    /** write as a whole. */
    method Write(one: bool, data: Option<seq<nat>>, dataSize: nat, handles: Option<seq<nat>>, handleCount: nat,
                 node: Ptr, dataMemory: bool, handleMemory: bool) returns (e: Error, ghost m: Message)
      requires Valid() && node !in Box(one).mail.nodes
      requires (data.Some? ==> dataSize <= |data.value|) && (handles.Some? ==> handleCount <= |handles.value|)
      modifies Box(one), Box(one).mail, Box(one).waiters
      ensures Valid()
      ensures e == INVALID_TYPE <==> (dataSize > 0 && data.None?) || (handleCount > 0 && handles.None?)
      ensures e == NO_MEMORY <==> e != INVALID_TYPE && (node == NULL || (dataSize > 0 && !dataMemory) || (handleCount > 0 && !handleMemory))
      ensures e == PEER_CLOSED <==> e != INVALID_TYPE && e != NO_MEMORY && Closed(one)
      ensures e == OK ==> m == Message(if dataSize > 0 then data.value[..dataSize] else [], if handleCount > 0 then handles.value[..handleCount] else [])
      ensures e == OK ==> Box(one).Contents() == old(Box(one).Contents()) + [m] && Box(one).sent == old(Box(one).sent) + [m]
      ensures e != OK ==> Box(one).Contents() == old(Box(one).Contents()) && Box(one).sent == old(Box(one).sent)
      ensures Box(one).got == old(Box(one).got)
    {
      var msg;
      e, msg := Prepare(data, dataSize, handles, handleCount, node, dataMemory, handleMemory);
      m := msg;
      if e == OK {
        var waiter;
        e, waiter := Deliver(one, node, msg);
      }
    }

    /** One round of read by a thread t of endpoint 1 if `one`, else of endpoint 0. A round that
        does not return a message leaves the messages alone. A closed peer is reported only
        when everything it has sent has been received. */
    method ReadOnce(one: bool, b: Buffers, t: Task) returns (r: ReadResult)
      requires Valid() && !Closed(one) && Box(one).Reader(t)
      modifies Box(one), Box(one).mail, Box(one).waiters
      ensures Valid() && r == Reading(old(Box(one).Contents()), Closed(!one), b) && Box(one).sent == old(Box(one).sent)
      ensures ReadsRight(old(Box(one).Contents()), Closed(!one), b, r)
      ensures r.Got? ==> Box(one).Contents() == old(Box(one).Contents())[1..] && Box(one).got == old(Box(one).got) + old(Box(one).Contents())[..1]
      ensures !r.Got? ==> Box(one).Contents() == old(Box(one).Contents()) && Box(one).got == old(Box(one).got)
      ensures r.PeerClosed? ==> Box(one).got == Box(one).sent
      ensures Box(one).run == Stepped(old(Box(one).run), r, t)
    {
      ReadingIs(Box(one).Contents(), Closed(!one), b);
      r := ReadFrom(Box(one), Closed(!one), b, t);
    }

    /** The destructor of an endpoint: its own inbox is dropped, its peer's stays and one of
        the peer's readers is woken; the second close frees the state. */
    method Close(one: bool) returns (destroyed: bool)
      requires Valid() && !Closed(one)
      modifies this`closed0, this`closed1, this`refCount, inbox0, inbox1, inbox0.mail, inbox1.mail, inbox0.waiters, inbox1.waiters
      ensures Valid() && Closed(one) && Closed(!one) == old(Closed(!one))
      ensures Box(one).Contents() == [] && Box(!one).Contents() == old(Box(!one).Contents())
      ensures Box(!one).sent == old(Box(!one).sent) && Box(!one).got == old(Box(!one).got)
      ensures !Closed(!one) ==> Box(!one).run == Blocking.After(old(Box(!one).run), Blocking.DoNudge)
      ensures destroyed <==> closed0 && closed1
    {
      if one { closed1 := true; } else { closed0 := true; }
      var freed := Box(one).mail.Clear();
      if !Closed(!one) {
        var waiter := Box(!one).Nudge();
      }
      refCount := refCount - 1;
      destroyed := refCount == 0;
    }
  }

  /** The step of the Blocking protocol that a round of read is. */
  ghost function Stepped(run: Blocking.Run, r: ReadResult, t: Task): Blocking.Run {
    match r
    case BadArgument => run
    case Got(_, _, _, _) => Blocking.After(run, Blocking.DoAttempt(t))
    case WouldBlock => Blocking.After(run, Blocking.DoAttempt(t))
    case TooSmall(_, _) => Blocking.After(run, Blocking.DoLeave(t))
    case PeerClosed => Blocking.After(run, Blocking.DoLeave(t))
  }

  /** The body of read's loop on one inbox. */
  method ReadFrom(inbox: Inbox, peerClosed: bool, b: Buffers, t: Task) returns (r: ReadResult)
    requires inbox.Valid() && inbox.Open() && inbox.Reader(t)
    modifies inbox, inbox.mail, inbox.waiters
    ensures inbox.Valid() && inbox.Open() && r == Reading(old(inbox.Contents()), peerClosed, b)
    ensures inbox.sent == old(inbox.sent)
    ensures r.Got? ==> inbox.Contents() == old(inbox.Contents())[1..] && inbox.got == old(inbox.got) + old(inbox.Contents())[..1]
    ensures !r.Got? ==> inbox.Contents() == old(inbox.Contents()) && inbox.got == old(inbox.got)
    ensures inbox.run == Stepped(old(inbox.run), r, t) && inbox.dead == old(inbox.dead)
  {
    if b.dataSize.None? || b.handleCount.None? {
      return BadArgument;
    }
    inbox.mail.HeadNull();
    if inbox.mail.head != NULL {
      var m := inbox.mail.body[inbox.mail.head];
      if b.dataSize.value < |m.data| || b.handleCount.value < |m.handles| {
        inbox.Leave(t);
        return TooSmall(|m.data|, |m.handles|);
      }
      inbox.Take(t);
      var d := if |m.data| > 0 && b.data then Some(m.data) else None;
      var h := if |m.handles| > 0 && b.handles then Some(m.handles) else None;
      return Got(|m.data|, |m.handles|, d, h);
    }
    if peerClosed {
      inbox.Leave(t);
      return PeerClosed;
    }
    inbox.Wait(t);
    return WouldBlock;
  }
}
