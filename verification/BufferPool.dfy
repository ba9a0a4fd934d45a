/** The two-queue pool of recycled buffers, run by any number of producers and consumers. */
module BufferPool {
  import opened Bytes
  import opened Options

  /** The pool's own object. Each method is one critical section; its precondition is the condition the
      thread waits for before entering it. */
  class BufferQueue {
    const mMaxDepth: nat
    var consumerQueue: seq<nat>
    var producerQueue: seq<nat>

    constructor (depth: nat)
      ensures mMaxDepth == depth && consumerQueue == [] && producerQueue == []
    {
      mMaxDepth := depth;
      consumerQueue, producerQueue := [], [];
    }

    method Queue(req: nat)
      requires |consumerQueue| < mMaxDepth
      modifies this
      ensures consumerQueue == old(consumerQueue) + [req] && producerQueue == old(producerQueue)
    {
      consumerQueue := consumerQueue + [req];
    }

    method Acquire() returns (req: nat)
      requires producerQueue != []
      modifies this
      ensures [req] + producerQueue == old(producerQueue) && consumerQueue == old(consumerQueue)
    {
      req := producerQueue[0];
      producerQueue := producerQueue[1..];
    }

    /** The timed form: gives up when the queue stays empty. */
    method Consume() returns (done: bool, req: nat)
      modifies this
      ensures done <==> old(consumerQueue) != []
      ensures done ==> [req] + consumerQueue == old(consumerQueue)
      ensures !done ==> consumerQueue == old(consumerQueue)
      ensures producerQueue == old(producerQueue)
    {
      if consumerQueue == [] {
        return false, 0;
      }
      done, req := true, consumerQueue[0];
      consumerQueue := consumerQueue[1..];
    }

    method Release(req: nat)
      requires |producerQueue| < mMaxDepth
      modifies this
      ensures producerQueue == old(producerQueue) + [req] && consumerQueue == old(consumerQueue)
    {
      producerQueue := producerQueue + [req];
    }

    /** The handler's start-up: every buffer is released once; no release has to wait. */
    method ReleaseAll()
      requires consumerQueue == [] && producerQueue == []
      modifies this
      ensures consumerQueue == [] && producerQueue == Initial(mMaxDepth).free
    {
      for i := 0 to mMaxDepth
        invariant consumerQueue == [] && producerQueue == seq(i, k => k)
      {
        Release(i);
      }
    }
  }

  type Thread = nat

  /** `free` and `filled` are the producer and the consumer queue, `hand` says which thread has which
      buffer, `content` is what each buffer holds. `queued` and `consumed` record the payloads that
      passed queue and consume. */
  datatype Pool = Pool(
    free: seq<nat>, filled: seq<nat>, hand: map<nat, Thread>, content: map<nat, seq<byte>>,
    queued: seq<seq<byte>>, consumed: seq<seq<byte>>)

  datatype Action =
    | Acquire(t: Thread)
    | Fill(t: Thread, b: nat, payload: seq<byte>)
    | Queue(t: Thread, b: nat)
    | Consume(t: Thread)
    | Release(t: Thread, b: nat)

  function Ids(depth: nat): seq<nat> {
    seq(depth, k => k)
  }

  function Initial(depth: nat): Pool {
    Pool(Ids(depth), [], map[], map[], [], [])
  }

  predicate Holds(p: Pool, t: Thread, b: nat) {
    b in p.hand && p.hand[b] == t
  }

  /** The thread can take the step now; a step of the queues that is not enabled waits. */
  predicate Enabled(p: Pool, a: Action, depth: nat) {
    match a
    case Acquire(t) => p.free != []
    case Fill(t, b, _) => Holds(p, t, b)
    case Queue(t, b) => Holds(p, t, b) && |p.filled| < depth
    case Consume(t) => p.filled != []
    case Release(t, b) => Holds(p, t, b) && |p.free| < depth
  }

  function ContentOf(content: map<nat, seq<byte>>, b: nat): seq<byte> {
    if b in content then content[b] else []
  }

  function Contents(filled: seq<nat>, content: map<nat, seq<byte>>): seq<seq<byte>> {
    if filled == [] then [] else [ContentOf(content, filled[0])] + Contents(filled[1..], content)
  }

  function Step(p: Pool, a: Action, depth: nat): Pool
    requires Enabled(p, a, depth)
  {
    match a
    case Acquire(t) =>
      p.(free := p.free[1..], hand := p.hand[p.free[0] := t])
    case Fill(t, b, payload) =>
      p.(content := p.content[b := payload])
    case Queue(t, b) =>
      p.(filled := p.filled + [b], hand := p.hand - {b}, queued := p.queued + [ContentOf(p.content, b)])
    case Consume(t) =>
      var b := p.filled[0];
      p.(filled := p.filled[1..], hand := p.hand[b := t], consumed := p.consumed + [ContentOf(p.content, b)])
    case Release(t, b) =>
      p.(free := p.free + [b], hand := p.hand - {b})
  }

  /** The pool after the steps, if each of them is enabled when its turn comes. */
  function Run(actions: seq<Action>, depth: nat): Option<Pool> {
    if actions == [] then Some(Initial(depth))
    else
      var a := actions[|actions| - 1];
      match Run(actions[..|actions| - 1], depth)
      case None => None
      case Some(p) => if Enabled(p, a, depth) then Some(Step(p, a, depth)) else None
  }

  /** Each buffer is in exactly one place: free, filled or in one thread's hand. */
  predicate Owned(p: Pool, depth: nat) {
    multiset(p.free) + multiset(p.filled) + multiset(p.hand.Keys) == multiset(Ids(depth))
  }

  /** The filled buffers hold, in order, the payloads that were queued and not yet consumed. */
  predicate Fifo(p: Pool) {
    p.consumed + Contents(p.filled, p.content) == p.queued
  }

  // ----- ownership -----

  lemma IdsDistinct(depth: nat, b: nat)
    ensures multiset(Ids(depth))[b] <= 1
  {
    OneOccurrence(Ids(depth), b);
  }

  lemma {:induction false} OneOccurrence(s: seq<nat>, b: nat)
    requires forall i, j :: 0 <= i < j < |s| ==> s[i] != s[j]
    ensures multiset(s)[b] <= 1
  {
    if s != [] {
      assert s == [s[0]] + s[1..];
      OneOccurrence(s[1..], b);
      if s[0] == b {
        assert b !in s[1..];
      }
    }
  }

  lemma OutOfTheQueue(q: seq<nat>)
    requires q != []
    ensures multiset(q) == multiset{q[0]} + multiset(q[1..])
  {
    assert q == [q[0]] + q[1..];
  }

  lemma TakeInHand(hand: map<nat, Thread>, b: nat, t: Thread)
    requires b !in hand
    ensures multiset(hand[b := t].Keys) == multiset(hand.Keys) + multiset{b}
  {
    assert hand[b := t].Keys == hand.Keys + {b};
  }

  lemma LetGo(hand: map<nat, Thread>, b: nat)
    requires b in hand
    ensures multiset(hand.Keys) == multiset((hand - {b}).Keys) + multiset{b}
  {
    assert (hand - {b}).Keys == hand.Keys - {b};
  }

  /** A buffer at the head of a queue is in nobody's hand. */
  lemma QueuedNotHeld(p: Pool, b: nat, depth: nat)
    requires Owned(p, depth) && (b in p.free || b in p.filled)
    ensures b !in p.hand
  {
    IdsDistinct(depth, b);
    assert multiset(Ids(depth))[b] == multiset(p.free)[b] + multiset(p.filled)[b] + multiset(p.hand.Keys)[b];
  }

  lemma TakingKeepsOwned(p: Pool, a: Action, depth: nat)
    requires Owned(p, depth) && Enabled(p, a, depth) && (a.Acquire? || a.Consume?)
    ensures Owned(Step(p, a, depth), depth)
  {
    hide Ids;
    var q := if a.Acquire? then p.free else p.filled;
    QueuedNotHeld(p, q[0], depth);
    OutOfTheQueue(q);
    TakeInHand(p.hand, q[0], a.t);
  }

  lemma StepKeepsOwned(p: Pool, a: Action, depth: nat)
    requires Owned(p, depth) && Enabled(p, a, depth)
    ensures Owned(Step(p, a, depth), depth)
  {
    hide Ids;
    if a.Acquire? || a.Consume? {
      TakingKeepsOwned(p, a, depth);
    } else if a.Queue? || a.Release? {
      LetGo(p.hand, a.b);
    }
  }

  lemma OwnedCount(p: Pool, depth: nat)
    requires Owned(p, depth)
    ensures |p.free| + |p.filled| + |p.hand.Keys| == depth
  {
    assert |multiset(p.free) + multiset(p.filled) + multiset(p.hand.Keys)| == |Ids(depth)|;
  }

  // ----- order -----

  lemma {:induction false} ContentsSnoc(filled: seq<nat>, b: nat, content: map<nat, seq<byte>>)
    ensures Contents(filled + [b], content) == Contents(filled, content) + [ContentOf(content, b)]
  {
    if filled != [] {
      assert (filled + [b])[1..] == filled[1..] + [b];
      ContentsSnoc(filled[1..], b, content);
    }
  }

  /** Writing to a buffer that is not in the queue does not change what the queue holds. */
  lemma {:induction false} FillOutside(filled: seq<nat>, content: map<nat, seq<byte>>, b: nat, payload: seq<byte>)
    requires b !in filled
    ensures Contents(filled, content[b := payload]) == Contents(filled, content)
  {
    if filled != [] {
      FillOutside(filled[1..], content, b, payload);
    }
  }

  lemma StepKeepsFifo(p: Pool, a: Action, depth: nat)
    requires Owned(p, depth) && Fifo(p) && Enabled(p, a, depth)
    ensures Fifo(Step(p, a, depth))
  {
    hide Ids;
    match a
    case Acquire(t) =>
    case Fill(t, b, payload) =>
      if b in p.filled { QueuedNotHeld(p, b, depth); }
      FillOutside(p.filled, p.content, b, payload);
    case Queue(t, b) =>
      ContentsSnoc(p.filled, b, p.content);
      assert p.consumed + (Contents(p.filled, p.content) + [ContentOf(p.content, b)])
          == p.queued + [ContentOf(p.content, b)];
    case Consume(t) =>
      var x, rest := ContentOf(p.content, p.filled[0]), Contents(p.filled[1..], p.content);
      assert p.consumed + [x] + rest == p.consumed + ([x] + rest);
    case Release(t, b) =>
  }

  /** In every reachable state each of the buffers is in exactly one place, and what has been consumed
      is a prefix of what has been queued, the rest of which waits in the filled queue in order. */
  lemma {:induction false} RunIsSafe(actions: seq<Action>, depth: nat)
    requires Run(actions, depth).Some?
    ensures Owned(Run(actions, depth).value, depth)
    ensures Fifo(Run(actions, depth).value)
    ensures Run(actions, depth).value.consumed <= Run(actions, depth).value.queued
  {
    if actions != [] {
      var n := |actions| - 1;
      RunIsSafe(actions[..n], depth);
      var p := Run(actions[..n], depth).value;
      StepKeepsOwned(p, actions[n], depth);
      StepKeepsFifo(p, actions[n], depth);
    }
  }

  /** A thread that holds a buffer never waits to queue or to release it. */
  lemma HolderNeverWaits(p: Pool, t: Thread, b: nat, depth: nat)
    requires Owned(p, depth) && Holds(p, t, b)
    ensures Enabled(p, Queue(t, b), depth) && Enabled(p, Release(t, b), depth)
  {
    OwnedCount(p, depth);
    assert b in p.hand.Keys;
  }

  /** Some step is always enabled: an acquire, a consume, or a holder's queue and release. */
  lemma NeverStuck(p: Pool, depth: nat)
    requires Owned(p, depth) && depth > 0
    ensures || (forall t :: Enabled(p, Acquire(t), depth))
            || (forall t :: Enabled(p, Consume(t), depth))
            || (exists t, b :: Enabled(p, Queue(t, b), depth) && Enabled(p, Release(t, b), depth))
  {
    if p.free == [] && p.filled == [] {
      OwnedCount(p, depth);
      var b :| b in p.hand.Keys;
      HolderNeverWaits(p, p.hand[b], b, depth);
    }
  }
}
