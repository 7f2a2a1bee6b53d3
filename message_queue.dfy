/** `InternalMessageQueue`: the FIFO of posted messages, together with the
    count of wake-up bytes written to the socket pair and not yet read back.
    The socket itself is left out: a written byte is the counter going up, a
    read byte the counter going down. Messages are opaque ids, and running a
    message's callback is reported by returning its id. */
module MessageQueue {
  import opened Wrappers

  /** Identity of a posted `MessageManager::MessageBase`. */
  type MessageId = nat

  /** At most this many wake-up bytes are left unread in the socket. */
  const MaxBytesInSocketQueue := 128

  /** The queue and `bytesInSocket`. */
  datatype QueueState = QueueState(queue: seq<MessageId>, bytesInSocket: int)

  /** The queue's invariant: the counter lies between 0 and the cap, and there
      are never more unread wake-up bytes than queued messages. */
  predicate Valid(s: QueueState)
  {
    0 <= s.bytesInSocket <= MaxBytesInSocketQueue && s.bytesInSocket <= |s.queue|
  }

  /** The queue a fresh instance starts with. */
  const Empty := QueueState([], 0)

  /** `postMessage`: the message goes to the tail; a wake-up byte is written
      unless the cap of unread bytes is reached. From a valid state the result
      is valid and has at least one wake-up byte unread, so the loop thread
      will be woken for it. */
  function Post(s: QueueState, m: MessageId): (r: QueueState)
    ensures r.queue == s.queue + [m]
    ensures s.bytesInSocket <= r.bytesInSocket <= s.bytesInSocket + 1
    ensures Valid(s) ==> Valid(r) && r.bytesInSocket > 0
  {
    var bytes := if s.bytesInSocket < MaxBytesInSocketQueue then s.bytesInSocket + 1 else s.bytesInSocket;
    QueueState(s.queue + [m], bytes)
  }

  /** What `popNextMessage` returns (null is `None`) and the state it leaves. */
  datatype Popped = Popped(message: Option<MessageId>, state: QueueState)

  /** `popNextMessage`: reads one wake-up byte if any is unread, then removes
      and returns the head of the queue, or nothing if the queue is empty. */
  function Pop(s: QueueState): (r: Popped)
    ensures s.queue == [] ==> r.message == None && r.state.queue == []
    ensures s.queue != [] ==> r.message == Some(s.queue[0]) && r.state.queue == s.queue[1..]
    ensures r.state.bytesInSocket == if s.bytesInSocket > 0 then s.bytesInSocket - 1 else s.bytesInSocket
    ensures Valid(s) ==> Valid(r.state)
  {
    var bytes := if s.bytesInSocket > 0 then s.bytesInSocket - 1 else s.bytesInSocket;
    if s.queue == [] then Popped(None, QueueState([], bytes))
    else Popped(Some(s.queue[0]), QueueState(s.queue[1..], bytes))
  }

  /** The messages a drain runs, in order, and the state it leaves. */
  datatype Drained = Drained(executed: seq<MessageId>, final: QueueState)

  /** The callback registered for the socket's read handle: pops until
      `popNextMessage` returns null, running each popped message. */
  function Drain(s: QueueState): Drained
    decreases |s.queue|
  {
    var p := Pop(s);
    match p.message
    case None => Drained([], p.state)
    case Some(m) =>
      var rest := Drain(p.state);
      Drained([m] + rest.executed, rest.final)
  }

  /** Posting several messages, one after the other. */
  function PostAll(s: QueueState, ms: seq<MessageId>): QueueState
  {
    if ms == [] then s else Post(PostAll(s, ms[..|ms| - 1]), ms[|ms| - 1])
  }

  /** A drain runs every queued message exactly once, in queue order, and
      leaves a valid queue empty with no wake-up byte unread. */
  lemma {:induction false} DrainRunsAllInOrder(s: QueueState)
    requires Valid(s)
    ensures Drain(s) == Drained(s.queue, Empty)
    decreases |s.queue|
  {
    var p := Pop(s);
    if s.queue != [] {
      DrainRunsAllInOrder(p.state);
      assert [s.queue[0]] + s.queue[1..] == s.queue;
    }
  }

  /** Messages are appended in posting order, and the counter saturates: it
      goes up by one per post until it reaches the cap. */
  lemma {:induction false} PostAllAppends(s: QueueState, ms: seq<MessageId>)
    requires 0 <= s.bytesInSocket <= MaxBytesInSocketQueue
    ensures PostAll(s, ms).queue == s.queue + ms
    ensures PostAll(s, ms).bytesInSocket ==
            if s.bytesInSocket + |ms| < MaxBytesInSocketQueue then s.bytesInSocket + |ms| else MaxBytesInSocketQueue
  {
    if ms != [] {
      var ms' := ms[..|ms| - 1];
      PostAllAppends(s, ms');
      assert ms == ms' + [ms[|ms| - 1]];
    }
  }

  /** Posting keeps the invariant, so any number of posts does. */
  lemma {:induction false} PostAllValid(s: QueueState, ms: seq<MessageId>)
    requires Valid(s)
    ensures Valid(PostAll(s, ms))
  {
    if ms != [] {
      PostAllValid(s, ms[..|ms| - 1]);
    }
  }

  /** First in, first out: messages posted to an empty queue are run by the
      next drain exactly in posting order, and nothing is left afterwards. */
  lemma PostThenDrain(ms: seq<MessageId>)
    ensures Drain(PostAll(Empty, ms)) == Drained(ms, Empty)
  {
    PostAllAppends(Empty, ms);
    PostAllValid(Empty, ms);
    DrainRunsAllInOrder(PostAll(Empty, ms));
  }

  /** The counter never exceeds the cap: after any number of posts to a fresh
      queue, exactly `min(posts, 128)` wake-up bytes are unread. */
  lemma PostsSaturate(ms: seq<MessageId>)
    ensures PostAll(Empty, ms).bytesInSocket ==
            if |ms| < MaxBytesInSocketQueue then |ms| else MaxBytesInSocketQueue
  {
    PostAllAppends(Empty, ms);
  }

  class InternalMessageQueue {
    var queue: seq<MessageId>
    var bytesInSocket: int

    function State(): QueueState
      reads this
    {
      QueueState(queue, bytesInSocket)
    }

    /** A fresh queue holds no message and no unread wake-up byte. */
    constructor ()
      ensures State() == Empty && Valid(State())
    {
      queue := [];
      bytesInSocket := 0;
    }

    method PostMessage(m: MessageId)
      modifies this
      ensures State() == Post(old(State()), m)
    {
      queue := queue + [m];
      if bytesInSocket < MaxBytesInSocketQueue {
        bytesInSocket := bytesInSocket + 1;
      }
    }

    method PopNextMessage() returns (m: Option<MessageId>)
      modifies this
      ensures Popped(m, State()) == Pop(old(State()))
    {
      if bytesInSocket > 0 {
        bytesInSocket := bytesInSocket - 1;
      }
      if queue == [] {
        m := None;
      } else {
        m := Some(queue[0]);
        queue := queue[1..];
      }
    }

    /** The read-handle callback: runs the popped messages until the queue is
      exhausted; returns them in the order they were run. */
    method DrainMessages() returns (executed: seq<MessageId>)
      modifies this
      ensures Drained(executed, State()) == Drain(old(State()))
      ensures Valid(old(State())) ==> executed == old(queue) && State() == Empty
    {
      ghost var s := State();
      executed := [];
      var m := PopNextMessage();
      while m.Some?
        invariant m.Some? ==> Drain(s) == Drained(executed + [m.value] + Drain(State()).executed, Drain(State()).final)
        invariant m.None? ==> Drain(s) == Drained(executed, State())
        decreases |queue| + (if m.Some? then 1 else 0)
      {
        executed := executed + [m.value];
        m := PopNextMessage();
      }
      if Valid(s) {
        DrainRunsAllInOrder(s);
      }
    }
  }
}
