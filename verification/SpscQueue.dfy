/**
 The single-producer single-consumer ring that connects the pipeline stages.

 One thread runs `try_push`, one runs `try_pop`; each load of the other side's index, each slot access
 and each publishing store is a step, and the two threads interleave freely.  Indices are unbounded
 counters compared modulo the capacity.
 */
module SpscQueue {
  import opened Basics
  import opened Ring

  // `pushed` and `popped` record the accepted and delivered items; no step reads them.
  datatype State<T> = State(buffer: seq<Option<T>>, head: nat, tail: nat,
                            producer: Producer<T>, consumer: Consumer<T>,
                            pushed: seq<T>, popped: seq<T>)

  datatype Producer<T> = Idle | HasRoom(item: T) | Stored
  datatype Consumer<T> = Waiting | HasItem | Taken(item: T)

  datatype Action<T> =
    | CheckTail(item: T) | StoreSlot | PublishHead   // producer
    | CheckHead | TakeSlot | PublishTail             // consumer

  predicate Enabled<T>(s: State<T>, a: Action<T>) {
    var cap := |s.buffer|;
    0 < cap &&
    match a
    case CheckTail(_) => s.producer.Idle?
    case StoreSlot => s.producer.HasRoom?
    case PublishHead => s.producer.Stored?
    case CheckHead => s.consumer.Waiting?
    case TakeSlot => s.consumer.HasItem? && s.buffer[s.tail % cap].Some?
    case PublishTail => s.consumer.Taken?
  }

  // `pushed` grows when the slot is stored: from then on the item is on its way, though unpublished.
  function Step<T>(s: State<T>, a: Action<T>): State<T>
    requires Enabled(s, a)
  {
    var cap := |s.buffer|;
    match a
    case CheckTail(item) =>
      s.(producer := if (s.head % cap + 1) % cap == s.tail % cap then Idle else HasRoom(item))
    case StoreSlot =>
      s.(buffer := s.buffer[s.head % cap := Some(s.producer.item)], producer := Stored,
         pushed := s.pushed + [s.producer.item])
    case PublishHead => s.(head := s.head + 1, producer := Idle)
    case CheckHead => s.(consumer := if s.tail % cap == s.head % cap then Waiting else HasItem)
    case TakeSlot => s.(consumer := Taken(s.buffer[s.tail % cap].value))
    case PublishTail => s.(tail := s.tail + 1, consumer := Waiting, popped := s.popped + [s.consumer.item])
  }

  predicate Init<T(==)>(s: State<T>) {
    0 < |s.buffer| && s.head == s.tail == 0 && s.producer == Idle && s.consumer == Waiting &&
    s.pushed == [] && s.popped == []
  }

  // The items published and not yet popped, read from the ring in order.
  ghost predicate Holds<T>(s: State<T>, k: nat) {
    k < |s.pushed| && |s.buffer| > 0 && s.buffer[k % |s.buffer|] == Some(s.pushed[k])
  }

  ghost predicate Inv<T>(s: State<T>) {
    && s.tail <= s.head < s.tail + |s.buffer|
    && |s.pushed| == s.head + (if s.producer.Stored? then 1 else 0)
    && s.popped == s.pushed[..s.tail]
    && (forall k :: s.tail <= k < |s.pushed| ==> Holds(s, k))
    && (!s.producer.Idle? ==> s.head + 1 < s.tail + |s.buffer|)
    && (!s.consumer.Waiting? ==> s.tail < s.head)
    && (s.consumer.Taken? ==> s.consumer.item == s.pushed[s.tail])
  }

  lemma StoreInv<T>(s: State<T>)
    requires Inv(s) && Enabled(s, StoreSlot)
    ensures Inv(Step(s, StoreSlot))
  {
    var s' := Step(s, StoreSlot);
    forall k | s'.tail <= k < |s'.pushed| ensures Holds(s', k)
    {
      if k < s.head {
        assert Holds(s, k);
        if k % |s.buffer| == s.head % |s.buffer| { SameSlot(k, s.head, |s.buffer|); }
      }
    }
  }

  lemma StepInv<T>(s: State<T>, a: Action<T>)
    requires Inv(s) && Enabled(s, a)
    ensures Inv(Step(s, a))
  {
    var s', cap := Step(s, a), |s.buffer|;
    if a.StoreSlot? {
      StoreInv(s);
    } else {
      SlotSuccessor(s.head, cap);
      FullTest(s.head, s.tail, cap);
      assert a.TakeSlot? ==> Holds(s, s.tail);
      if a.CheckHead? && s.tail % cap == s.head % cap { SameSlot(s.tail, s.head, cap); }
      if a.PublishTail? { assert s.pushed[..s.tail] + [s.pushed[s.tail]] == s.pushed[..s.tail + 1]; }
      forall k | s'.tail <= k < |s'.pushed| ensures Holds(s', k) { assert Holds(s, k); }
    }
  }

  predicate CanRun<T>(s: State<T>, actions: seq<Action<T>>)
    decreases |actions|
  {
    actions == [] || (Enabled(s, actions[0]) && CanRun(Step(s, actions[0]), actions[1..]))
  }

  function Run<T>(s: State<T>, actions: seq<Action<T>>): State<T>
    requires CanRun(s, actions)
    decreases |actions|
  {
    if actions == [] then s else Run(Step(s, actions[0]), actions[1..])
  }

  lemma {:induction false} RunInv<T>(s: State<T>, actions: seq<Action<T>>)
    requires Inv(s) && CanRun(s, actions)
    ensures Inv(Run(s, actions))
    decreases |actions|
  {
    if actions != [] {
      StepInv(s, actions[0]);
      RunInv(Step(s, actions[0]), actions[1..]);
    }
  }

  /**
   In every interleaving the consumer has received a prefix of what was pushed, the published rest
   lies in the ring in order, and at most capacity - 1 items are held.
   */
  lemma QueueSafe<T>(s0: State<T>, actions: seq<Action<T>>)
    requires Init(s0) && CanRun(s0, actions)
    ensures var s := Run(s0, actions);
      && s.popped <= s.pushed && |s.popped| == s.tail
      && s.tail <= s.head <= |s.pushed| <= s.head + 1 && s.head - s.tail <= |s.buffer| - 1
      && (forall k :: |s.popped| <= k < s.head ==> s.buffer[k % |s.buffer|] == Some(s.pushed[k]))
  {
    RunInv(s0, actions);
    var s := Run(s0, actions);
    forall k | |s.popped| <= k < s.head ensures s.buffer[k % |s.buffer|] == Some(s.pushed[k])
    {
      assert Holds(s, k);
    }
  }

  // A push fails exactly when capacity - 1 items are held at the instant the tail is loaded.
  lemma PushFailsIffFull<T>(s: State<T>, item: T)
    requires Inv(s) && Enabled(s, CheckTail(item))
    ensures Step(s, CheckTail(item)).producer.Idle? <==> s.head - s.tail == |s.buffer| - 1
  {
    SlotSuccessor(s.head, |s.buffer|);
    FullTest(s.head, s.tail, |s.buffer|);
  }

  // A pop fails exactly when nothing is held at the instant the head is loaded.
  lemma PopFailsIffEmpty<T>(s: State<T>)
    requires Inv(s) && Enabled(s, CheckHead)
    ensures Step(s, CheckHead).consumer.Waiting? <==> s.head == s.tail
  {
    if s.tail % |s.buffer| == s.head % |s.buffer| { SameSlot(s.tail, s.head, |s.buffer|); }
  }

  // The slot the consumer is about to take always holds the oldest pushed item.
  lemma ConsumerReadsWritten<T>(s: State<T>)
    requires Inv(s) && s.consumer.HasItem?
    ensures Enabled(s, TakeSlot) && Step(s, TakeSlot).consumer == Taken(s.pushed[|s.popped|])
  {
    assert Holds(s, s.tail);
  }

  // What is stored is what the last accepted check was called with.
  lemma PushesItsArgument<T>(s: State<T>, item: T, between: seq<Action<T>>)
    requires Enabled(s, CheckTail(item)) && CanRun(Step(s, CheckTail(item)), between)
    requires forall i :: 0 <= i < |between| ==> between[i].CheckHead? || between[i].TakeSlot? || between[i].PublishTail?
    requires Step(s, CheckTail(item)).producer.HasRoom?
    ensures var s' := Run(Step(s, CheckTail(item)), between);
      Enabled(s', StoreSlot) && Step(s', StoreSlot).pushed == s'.pushed + [item]
  {
    ConsumerKeepsProducer(Step(s, CheckTail(item)), between);
  }

  lemma {:induction false} ConsumerKeepsProducer<T>(s: State<T>, moves: seq<Action<T>>)
    requires CanRun(s, moves)
    requires forall i :: 0 <= i < |moves| ==> moves[i].CheckHead? || moves[i].TakeSlot? || moves[i].PublishTail?
    ensures Run(s, moves).producer == s.producer && |Run(s, moves).buffer| == |s.buffer|
    decreases |moves|
  {
    if moves != [] { ConsumerKeepsProducer(Step(s, moves[0]), moves[1..]); }
  }
}
