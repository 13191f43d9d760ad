/**
 The multi-producer single-consumer ring.

 A producer claims a slot by exchanging `head_`, writes it, waits until all earlier claims are
 committed and then publishes its own.  Each atomic load, exchange, store and slot access is one step.
 `head`, `tail` and `committed` are unbounded counters; the machine holds and compares only their
 values modulo the capacity, and the steps below do the same.
 */
module MpscQueue {
  import opened Basics
  import opened Ring

  // Shared memory.  `claims` and `popped` only record what happened: the items in the order their
  // slots were claimed, and the items the consumer has taken.  No step reads them.
  datatype Shared<T> = Shared(buffer: seq<Option<T>>, head: nat, tail: nat, committed: nat,
                              claims: seq<T>, popped: seq<T>)

  // Where a producer stands in `try_push`.  `slot` is the index it loaded, `at` the counter behind it.
  datatype Producer<T> =
    | Outside
    | Loaded(item: T, slot: nat, at: nat)
    | Checked(item: T, slot: nat, at: nat)
    | Claimed(item: T, pos: nat)
    | Written(pos: nat)
    | Ready(pos: nat)

  datatype Consumer<T> = Away | NonEmpty | Taken(item: T)

  datatype State<T> = State(sh: Shared<T>, producers: seq<Producer<T>>, consumer: Consumer<T>)

  datatype Action<T> =
    | LoadHead(item: T) | CheckTail | Claim | RetryClaim | WriteSlot | Spin | Commit  // producer
    | CheckCommitted | TakeSlot | AdvanceTail                                         // consumer

  predicate IsConsumerAction<T>(a: Action<T>) {
    a.CheckCommitted? || a.TakeSlot? || a.AdvanceTail?
  }

  // ---------------------------------------------------------------- steps

  // The exchange and retry are both possible after the check, since a weak exchange may fail spuriously.
  predicate Enabled<T>(s: State<T>, i: nat, a: Action<T>) {
    var sh, cap := s.sh, |s.sh.buffer|;
    0 < cap &&
    if IsConsumerAction(a) then
      match a
      case CheckCommitted => s.consumer.Away?
      case TakeSlot => s.consumer.NonEmpty? && sh.buffer[sh.tail % cap].Some?
      case AdvanceTail => s.consumer.Taken?
      case _ => false
    else
      i < |s.producers| &&
      var p := s.producers[i];
      match a
      case LoadHead(_) => p.Outside?
      case CheckTail => p.Loaded?
      case Claim => p.Checked? && sh.head % cap == p.slot
      case RetryClaim => p.Checked?
      case WriteSlot => p.Claimed?
      case Spin => p.Written?
      case Commit => p.Ready?
      case _ => false
  }

  function Step<T>(s: State<T>, i: nat, a: Action<T>): State<T>
    requires Enabled(s, i, a)
  {
    var sh, cap := s.sh, |s.sh.buffer|;
    match a
    case CheckCommitted =>
      s.(consumer := if sh.tail % cap == sh.committed % cap then Away else NonEmpty)
    case TakeSlot => s.(consumer := Taken(sh.buffer[sh.tail % cap].value))
    case AdvanceTail =>
      s.(consumer := Away, sh := sh.(tail := sh.tail + 1, popped := sh.popped + [s.consumer.item]))
    case LoadHead(item) => SetProducer(s, i, Loaded(item, sh.head % cap, sh.head))
    case CheckTail =>
      var p := s.producers[i];
      SetProducer(s, i, if (p.slot + 1) % cap == sh.tail % cap then Outside else Checked(p.item, p.slot, p.at))
    case Claim =>
      var p := s.producers[i];
      SetProducer(s, i, Claimed(p.item, sh.head)).(sh := sh.(head := sh.head + 1, claims := sh.claims + [p.item]))
    case RetryClaim => SetProducer(s, i, Loaded(s.producers[i].item, sh.head % cap, sh.head))
    case WriteSlot =>
      var p := s.producers[i];
      SetProducer(s, i, Written(p.pos)).(sh := sh.(buffer := sh.buffer[p.pos % cap := Some(p.item)]))
    case Spin =>
      var p := s.producers[i];
      if sh.committed % cap == p.pos % cap then SetProducer(s, i, Ready(p.pos)) else s
    case Commit => SetProducer(s, i, Outside).(sh := sh.(committed := s.producers[i].pos + 1))
  }

  function SetProducer<T>(s: State<T>, i: nat, p: Producer<T>): State<T>
    requires i < |s.producers|
  {
    s.(producers := s.producers[i := p])
  }

  predicate Init<T(==)>(s: State<T>) {
    && 0 < |s.sh.buffer|
    && s.sh.head == s.sh.tail == s.sh.committed == 0 && s.sh.claims == [] && s.sh.popped == []
    && (forall i :: 0 <= i < |s.producers| ==> s.producers[i] == Outside)
    && s.consumer == Away
  }

  // ---------------------------------------------------------------- invariant

  // The position a producer has claimed and not yet committed.
  function PositionOf<T>(p: Producer<T>): Option<nat> {
    if p.Claimed? || p.Written? || p.Ready? then Some(p.pos) else None
  }

  function Positions<T>(producers: seq<Producer<T>>): seq<Option<nat>> {
    seq(|producers|, i requires 0 <= i < |producers| => PositionOf(producers[i]))
  }

  ghost predicate Holds<T>(sh: Shared<T>, pos: nat) {
    pos < |sh.claims| && |sh.buffer| > 0 && sh.buffer[pos % |sh.buffer|] == Some(sh.claims[pos])
  }

  ghost predicate ProducerOk<T>(sh: Shared<T>, p: Producer<T>) {
    match p
    case Outside => true
    case Loaded(_, slot, at) => |sh.buffer| > 0 && at <= sh.head && slot == at % |sh.buffer|
    case Checked(_, slot, at) =>
      |sh.buffer| > 0 && at <= sh.head && slot == at % |sh.buffer| && (at == sh.head ==> NotFull(sh))
    case Claimed(item, pos) => sh.committed <= pos < sh.head <= |sh.claims| && sh.claims[pos] == item
    case Written(pos) => sh.committed <= pos < sh.head && Holds(sh, pos)
    case Ready(pos) => sh.committed == pos < sh.head && Holds(sh, pos)
  }

  ghost predicate ConsumerOk<T>(sh: Shared<T>, c: Consumer<T>) {
    match c
    case Away => true
    case NonEmpty => sh.tail < sh.committed
    case Taken(item) => sh.tail < sh.committed <= |sh.claims| && item == sh.claims[sh.tail]
  }

  predicate NotFull<T>(sh: Shared<T>) {
    sh.head + 1 < sh.tail + |sh.buffer|
  }

  ghost predicate SharedOk<T>(sh: Shared<T>) {
    && sh.tail <= sh.committed <= sh.head < sh.tail + |sh.buffer|
    && |sh.claims| == sh.head && sh.popped == sh.claims[..sh.tail]
    && (forall k :: sh.tail <= k < sh.committed ==> Holds(sh, k))
  }

  // The positions in [from, to) belong to one producer each.
  ghost predicate OwnedOnce(from: nat, to: nat, positions: seq<Option<nat>>) {
    && (forall i, j | 0 <= i < j < |positions| :: positions[i].Some? ==> positions[i] != positions[j])
    && (forall k: nat | from <= k < to :: Some(k) in positions)
  }

  ghost predicate Inv<T>(s: State<T>) {
    && SharedOk(s.sh)
    && (forall i :: 0 <= i < |s.producers| ==> ProducerOk(s.sh, s.producers[i]))
    && OwnedOnce(s.sh.committed, s.sh.head, Positions(s.producers))
    && ConsumerOk(s.sh, s.consumer)
  }

  // ---------------------------------------------------------------- one step

  lemma OwnedOnceClaim(from: nat, to: nat, positions: seq<Option<nat>>, i: nat)
    requires OwnedOnce(from, to, positions) && i < |positions| && positions[i] == None
    requires forall j | 0 <= j < |positions| && positions[j].Some? :: positions[j].value < to
    ensures OwnedOnce(from, to + 1, positions[i := Some(to)])
  {
    var positions' := positions[i := Some(to)];
    forall k: nat | from <= k < to + 1 ensures Some(k) in positions'
    {
      if k == to {
        assert positions'[i] == Some(k);
      } else {
        var j :| 0 <= j < |positions| && positions[j] == Some(k);
        assert positions'[j] == Some(k);
      }
    }
  }

  lemma OwnedOnceCommit(from: nat, to: nat, positions: seq<Option<nat>>, i: nat)
    requires OwnedOnce(from, to, positions) && i < |positions| && positions[i] == Some(from)
    ensures OwnedOnce(from + 1, to, positions[i := None])
  {
    forall k: nat | from + 1 <= k < to ensures Some(k) in positions[i := None]
    {
      var j :| 0 <= j < |positions| && positions[j] == Some(k);
      assert positions[i := None][j] == Some(k);
    }
  }

  lemma LocalProducerStep<T>(s: State<T>, i: nat, p: Producer<T>)
    requires Inv(s) && i < |s.producers| && ProducerOk(s.sh, p) && PositionOf(p) == PositionOf(s.producers[i])
    ensures Inv(SetProducer(s, i, p))
  {
    assert Positions(SetProducer(s, i, p).producers) == Positions(s.producers);
  }

  lemma ClaimInv<T>(s: State<T>, i: nat)
    requires Inv(s) && Enabled(s, i, Claim) && NotFull(s.sh)
    ensures Inv(Step(s, i, Claim))
  {
    var s' := Step(s, i, Claim);
    assert forall j :: 0 <= j < |s.producers| ==> ProducerOk(s.sh, s.producers[j]);
    OwnedOnceClaim(s.sh.committed, s.sh.head, Positions(s.producers), i);
    assert Positions(s'.producers) == Positions(s.producers)[i := Some(s.sh.head)];
    forall k | s'.sh.tail <= k < s'.sh.committed ensures Holds(s'.sh, k) { assert Holds(s.sh, k); }
  }

  // Writing a claimed slot leaves every other live position alone: less than one lap separates them.
  lemma WriteKeeps<T>(sh: Shared<T>, pos: nat, item: T, k: nat)
    requires SharedOk(sh) && sh.tail <= pos < sh.head && sh.tail <= k < sh.head && k != pos && Holds(sh, k)
    ensures Holds(sh.(buffer := sh.buffer[pos % |sh.buffer| := Some(item)]), k)
  {
    if k % |sh.buffer| == pos % |sh.buffer| { SameSlot(k, pos, |sh.buffer|); }
  }

  lemma WriteSlotInv<T>(s: State<T>, i: nat)
    requires Inv(s) && Enabled(s, i, WriteSlot)
    ensures Inv(Step(s, i, WriteSlot))
  {
    var s' := Step(s, i, WriteSlot);
    var p := s.producers[i];
    var positions := Positions(s.producers);
    assert ProducerOk(s.sh, p);
    assert Positions(s'.producers) == positions;
    forall k | s'.sh.tail <= k < s'.sh.committed ensures Holds(s'.sh, k)
    {
      WriteKeeps(s.sh, p.pos, p.item, k);
    }
    forall j | 0 <= j < |s'.producers| ensures ProducerOk(s'.sh, s'.producers[j])
    {
      assert ProducerOk(s.sh, s.producers[j]);
      if j != i && (s.producers[j].Written? || s.producers[j].Ready?) {
        assert positions[i] != positions[j] by { assert i < j || j < i; }
        WriteKeeps(s.sh, p.pos, p.item, s.producers[j].pos);
      }
    }
  }

  lemma CommitInv<T>(s: State<T>, i: nat)
    requires Inv(s) && Enabled(s, i, Commit)
    ensures Inv(Step(s, i, Commit)) && Step(s, i, Commit).sh.committed == s.sh.committed + 1
  {
    var s' := Step(s, i, Commit);
    var positions := Positions(s.producers);
    assert ProducerOk(s.sh, s.producers[i]);
    OwnedOnceCommit(s.sh.committed, s.sh.head, positions, i);
    assert Positions(s'.producers) == positions[i := None];
    forall j | 0 <= j < |s'.producers| ensures ProducerOk(s'.sh, s'.producers[j])
    {
      assert ProducerOk(s.sh, s.producers[j]);
      if j != i {
        assert positions[i] != positions[j] by { assert i < j || j < i; }
      }
    }
    forall k | s'.sh.tail <= k < s'.sh.committed ensures Holds(s'.sh, k)
    {
      assert Holds(s.sh, k);
    }
  }

  lemma AdvanceTailInv<T>(s: State<T>)
    requires Inv(s) && Enabled(s, 0, AdvanceTail)
    ensures Inv(Step(s, 0, AdvanceTail))
  {
    var s' := Step(s, 0, AdvanceTail);
    assert s.sh.claims[..s.sh.tail] + [s.sh.claims[s.sh.tail]] == s.sh.claims[..s.sh.tail + 1];
    forall j | 0 <= j < |s'.producers| ensures ProducerOk(s'.sh, s'.producers[j])
    {
      assert ProducerOk(s.sh, s.producers[j]);
    }
    forall k | s'.sh.tail <= k < s'.sh.committed ensures Holds(s'.sh, k) { assert Holds(s.sh, k); }
  }

  lemma CheckTailInv<T>(s: State<T>, i: nat)
    requires Inv(s) && Enabled(s, i, CheckTail)
    ensures Inv(Step(s, i, CheckTail))
  {
    var sh, p := s.sh, s.producers[i];
    assert ProducerOk(sh, p);
    if p.at == sh.head {
      SlotSuccessor(sh.head, |sh.buffer|);
      FullTest(sh.head, sh.tail, |sh.buffer|);
    }
    LocalProducerStep(s, i, Step(s, i, CheckTail).producers[i]);
  }

  lemma SpinInv<T>(s: State<T>, i: nat)
    requires Inv(s) && Enabled(s, i, Spin)
    ensures Inv(Step(s, i, Spin))
  {
    var sh, p := s.sh, s.producers[i];
    assert ProducerOk(sh, p);
    if sh.committed % |sh.buffer| == p.pos % |sh.buffer| {
      SameSlot(sh.committed, p.pos, |sh.buffer|);
      LocalProducerStep(s, i, Ready(p.pos));
    }
  }

  /**
   Every atomic step keeps the invariant.  The one step that needs a condition is the claiming
   exchange: the ring must not be full when it succeeds.
   */
  lemma StepInv<T>(s: State<T>, i: nat, a: Action<T>)
    requires Inv(s) && Enabled(s, i, a)
    requires a.Claim? ==> NotFull(s.sh)
    ensures Inv(Step(s, i, a))
  {
    var sh := s.sh;
    match a
    case LoadHead(item) => LocalProducerStep(s, i, Loaded(item, sh.head % |sh.buffer|, sh.head));
    case RetryClaim => LocalProducerStep(s, i, Loaded(s.producers[i].item, sh.head % |sh.buffer|, sh.head));
    case CheckTail => CheckTailInv(s, i);
    case Claim => ClaimInv(s, i);
    case WriteSlot => WriteSlotInv(s, i);
    case Spin => SpinInv(s, i);
    case Commit => CommitInv(s, i);
    case CheckCommitted =>
      if sh.tail % |sh.buffer| == sh.committed % |sh.buffer| { SameSlot(sh.tail, sh.committed, |sh.buffer|); }
    case TakeSlot => assert Holds(sh, sh.tail);
    case AdvanceTail => AdvanceTailInv(s);
  }

  // ---------------------------------------------------------------- whole runs

  datatype Move<T> = Move(producer: nat, action: Action<T>)

  predicate CanRun<T>(s: State<T>, moves: seq<Move<T>>)
    decreases |moves|
  {
    moves == [] ||
    (Enabled(s, moves[0].producer, moves[0].action) &&
     CanRun(Step(s, moves[0].producer, moves[0].action), moves[1..]))
  }

  function Run<T>(s: State<T>, moves: seq<Move<T>>): State<T>
    requires CanRun(s, moves)
    decreases |moves|
  {
    if moves == [] then s else Run(Step(s, moves[0].producer, moves[0].action), moves[1..])
  }

  // The exchange of producer `i` succeeds before `head_` has gone once around since it was loaded.
  predicate NoLap<T>(s: State<T>, i: nat) {
    i < |s.producers| && s.producers[i].Checked? && s.sh.head < s.producers[i].at + |s.sh.buffer|
  }

  predicate NoLaps<T>(s: State<T>, moves: seq<Move<T>>)
    requires CanRun(s, moves)
    decreases |moves|
  {
    moves == [] ||
    ((moves[0].action.Claim? ==> NoLap(s, moves[0].producer)) &&
     NoLaps(Step(s, moves[0].producer, moves[0].action), moves[1..]))
  }

  // No claiming exchange of the run succeeds on a full ring.
  predicate ClaimsHaveRoom<T>(s: State<T>, moves: seq<Move<T>>)
    requires CanRun(s, moves)
    decreases |moves|
  {
    moves == [] ||
    ((moves[0].action.Claim? ==> NotFull(s.sh)) &&
     ClaimsHaveRoom(Step(s, moves[0].producer, moves[0].action), moves[1..]))
  }

  lemma InitInv<T>(s: State<T>)
    requires Init(s)
    ensures Inv(s)
  {
    forall i | 0 <= i < |s.producers| ensures Positions(s.producers)[i] == None { assert s.producers[i] == Outside; }
  }

  lemma {:induction false} RunInv<T>(s: State<T>, moves: seq<Move<T>>)
    requires Inv(s) && CanRun(s, moves) && ClaimsHaveRoom(s, moves)
    ensures Inv(Run(s, moves))
    decreases |moves|
  {
    if moves != [] {
      StepInv(s, moves[0].producer, moves[0].action);
      RunInv(Step(s, moves[0].producer, moves[0].action), moves[1..]);
    }
  }

  // Without a lap between a producer's head load and its exchange, its earlier check still holds.
  lemma {:induction false} NoLapsLeaveRoom<T>(s: State<T>, moves: seq<Move<T>>)
    requires Inv(s) && CanRun(s, moves) && NoLaps(s, moves)
    ensures ClaimsHaveRoom(s, moves)
    decreases |moves|
  {
    if moves != [] {
      var i, a := moves[0].producer, moves[0].action;
      if a.Claim? {
        assert ProducerOk(s.sh, s.producers[i]);
        SameSlot(s.sh.head, s.producers[i].at, |s.sh.buffer|);
      }
      StepInv(s, i, a);
      NoLapsLeaveRoom(Step(s, i, a), moves[1..]);
    }
  }

  /**
   FIFO in every interleaving: the consumer has received the first `tail` items in claim order, the
   counters stay within one lap, and every item committed but not yet popped sits in its slot.
   */
  lemma QueueSafe<T>(s0: State<T>, moves: seq<Move<T>>)
    requires Init(s0) && CanRun(s0, moves) && (ClaimsHaveRoom(s0, moves) || NoLaps(s0, moves))
    ensures var sh := Run(s0, moves).sh;
      && sh.popped <= sh.claims
      && |sh.popped| == sh.tail <= sh.committed <= sh.head == |sh.claims| < sh.tail + |sh.buffer|
      && (forall k :: sh.tail <= k < sh.committed ==> sh.buffer[k % |sh.buffer|] == Some(sh.claims[k]))
  {
    InitInv(s0);
    if NoLaps(s0, moves) { NoLapsLeaveRoom(s0, moves); }
    RunInv(s0, moves);
    var sh := Run(s0, moves).sh;
    forall k | sh.tail <= k < sh.committed ensures sh.buffer[k % |sh.buffer|] == Some(sh.claims[k])
    {
      assert Holds(sh, k);
    }
  }

  // The consumer never waits at an unwritten slot, and it takes the item claimed at its position.
  lemma ConsumerReadsWritten<T>(s: State<T>)
    requires Inv(s) && s.consumer.NonEmpty?
    ensures Enabled(s, 0, TakeSlot) && Step(s, 0, TakeSlot).consumer == Taken(s.sh.claims[s.sh.tail])
  {
    assert Holds(s.sh, s.sh.tail);
  }

  // `try_pop` reports empty exactly when nothing is committed beyond the tail at its load.
  lemma PopFailsIffNothingCommitted<T>(s: State<T>)
    requires Inv(s) && Enabled(s, 0, CheckCommitted)
    ensures Step(s, 0, CheckCommitted).consumer == Away <==> s.sh.committed == s.sh.tail
  {
    if s.sh.tail % |s.sh.buffer| == s.sh.committed % |s.sh.buffer| {
      SameSlot(s.sh.tail, s.sh.committed, |s.sh.buffer|);
    }
  }

  // The spin loop cannot be stuck for ever: the oldest uncommitted claim always has a live producer.
  lemma OldestClaimHasProducer<T>(s: State<T>) returns (i: nat)
    requires Inv(s) && s.sh.committed < s.sh.head
    ensures i < |s.producers| && PositionOf(s.producers[i]) == Some(s.sh.committed)
    ensures s.producers[i].Written? ==> Step(s, i, Spin).producers[i] == Ready(s.sh.committed)
  {
    assert Some(s.sh.committed) in Positions(s.producers);
    i :| 0 <= i < |s.producers| && Positions(s.producers)[i] == Some(s.sh.committed);
  }

  // ---------------------------------------------------------------- exactly when a claim does harm

  lemma {:induction false} RunConcat<T>(s: State<T>, first: seq<Move<T>>, rest: seq<Move<T>>)
    requires CanRun(s, first) && CanRun(Run(s, first), rest)
    ensures CanRun(s, first + rest) && Run(s, first + rest) == Run(Run(s, first), rest)
    decreases |first|
  {
    if first == [] {
      assert first + rest == rest;
    } else {
      RunConcat(Step(s, first[0].producer, first[0].action), first[1..], rest);
      assert (first + rest)[1..] == first[1..] + rest;
    }
  }

  lemma {:induction false} NoLapsConcat<T>(s: State<T>, first: seq<Move<T>>, rest: seq<Move<T>>)
    requires CanRun(s, first) && CanRun(Run(s, first), rest)
    requires NoLaps(s, first) && NoLaps(Run(s, first), rest)
    ensures CanRun(s, first + rest) && NoLaps(s, first + rest)
    decreases |first|
  {
    RunConcat(s, first, rest);
    if first == [] {
      assert first + rest == rest;
    } else {
      NoLapsConcat(Step(s, first[0].producer, first[0].action), first[1..], rest);
      assert (first + rest)[1..] == first[1..] + rest;
    }
  }

  // `end` can be reached from `s` by a run in which no producer is lapped.
  ghost predicate Leads<T(!new)>(s: State<T>, end: State<T>) {
    exists moves :: CanRun(s, moves) && NoLaps(s, moves) && Run(s, moves) == end
  }

  lemma LeadsSelf<T(!new)>(s: State<T>)
    ensures Leads(s, s)
  {
    assert CanRun(s, []) && NoLaps(s, []) && Run(s, []) == s;
  }

  lemma LeadsTrans<T(!new)>(a: State<T>, b: State<T>, c: State<T>)
    requires Leads(a, b) && Leads(b, c)
    ensures Leads(a, c)
  {
    var first :| CanRun(a, first) && NoLaps(a, first) && Run(a, first) == b;
    var rest :| CanRun(b, rest) && NoLaps(b, rest) && Run(b, rest) == c;
    RunConcat(a, first, rest);
    NoLapsConcat(a, first, rest);
  }

  lemma LeadsNext<T(!new)>(a: State<T>, s: State<T>, i: nat, act: Action<T>) returns (end: State<T>)
    requires Leads(a, s) && Enabled(s, i, act) && (act.Claim? ==> NoLap(s, i))
    ensures end == Step(s, i, act) && Leads(a, end)
  {
    end := Step(s, i, act);
    var last := [Move(i, act)];
    assert CanRun(end, last[1..]) && NoLaps(end, last[1..]);
    assert CanRun(s, last) && NoLaps(s, last) && Run(s, last) == end;
    LeadsTrans(a, s, end);
  }

  // The consumer is told "empty" although committed items lie beyond the tail.
  predicate Hides<T>(s: State<T>) {
    && Enabled(s, 0, CheckCommitted) && s.sh.tail < s.sh.committed
    && Step(s, 0, CheckCommitted).consumer == Away
  }

  // What the claimed positions keep even on a ring that has overrun itself.
  ghost predicate Owned<T>(s: State<T>) {
    && 0 < |s.sh.buffer| && s.sh.committed <= s.sh.head
    && (forall i :: 0 <= i < |s.producers| ==> PositionOwned(s.sh, s.producers[i]))
    && OwnedOnce(s.sh.committed, s.sh.head, Positions(s.producers))
  }

  predicate PositionOwned<T>(sh: Shared<T>, p: Producer<T>) {
    PositionOf(p).Some? ==> sh.committed <= p.pos < sh.head && (p.Ready? ==> p.pos == sh.committed)
  }

  // Everything but the buffer and the producers of uncommitted positions is left alone.
  ghost predicate OnlyCommits<T>(s: State<T>, end: State<T>) {
    && |end.sh.buffer| == |s.sh.buffer| && end.sh.head == s.sh.head && end.sh.tail == s.sh.tail
    && end.consumer == s.consumer && |end.producers| == |s.producers|
    && (forall i :: 0 <= i < |s.producers| ==>
          end.producers[i] == s.producers[i] ||
          (PositionOf(s.producers[i]).Some? && PositionOf(end.producers[i]) == PositionOf(s.producers[i])) ||
          (PositionOf(s.producers[i]).Some? && end.producers[i] == Outside))
  }

  // The producer of the oldest claim writes and stops spinning.
  lemma ReadyOldest<T(!new)>(a: State<T>, s: State<T>, i: nat) returns (end: State<T>)
    requires Leads(a, s) && 0 < |s.sh.buffer| && i < |s.producers|
    requires PositionOf(s.producers[i]) == Some(s.sh.committed)
    ensures Leads(a, end) && |end.sh.buffer| == |s.sh.buffer|
    ensures end == SetProducer(s, i, Ready(s.sh.committed)).(sh := s.sh.(buffer := end.sh.buffer))
  {
    hide Leads;
    end := s;
    if end.producers[i].Claimed? { end := LeadsNext(a, end, i, WriteSlot); }
    if end.producers[i].Written? { end := LeadsNext(a, end, i, Spin); }
  }

  // Committing the oldest claim leaves the others to their producers.
  lemma CommitOwns<T>(s: State<T>, i: nat)
    requires Owned(s) && i < |s.producers| && PositionOf(s.producers[i]) == Some(s.sh.committed)
    requires s.sh.committed < s.sh.head
    ensures Owned(SetProducer(s, i, Outside).(sh := s.sh.(committed := s.sh.committed + 1)))
  {
    var end := SetProducer(s, i, Outside).(sh := s.sh.(committed := s.sh.committed + 1));
    var positions := Positions(s.producers);
    OwnedOnceCommit(s.sh.committed, s.sh.head, positions, i);
    assert Positions(end.producers) == positions[i := None];
    forall j | 0 <= j < |end.producers| ensures PositionOwned(end.sh, end.producers[j])
    {
      assert PositionOwned(s.sh, s.producers[j]);
      if j != i { assert positions[i] != positions[j] by { assert i < j || j < i; } }
    }
  }

  // The oldest claim is written, published and done.
  lemma CommitOldest<T(!new)>(a: State<T>, s: State<T>) returns (end: State<T>)
    requires Leads(a, s) && Owned(s) && s.sh.committed < s.sh.head
    ensures Leads(a, end) && Owned(end) && OnlyCommits(s, end) && end.sh.committed == s.sh.committed + 1
  {
    hide Leads, OwnedOnce;
    var i := OldestOwner(s);
    end := ReadyOldest(a, s, i);
    var buffer := end.sh.buffer;
    end := LeadsNext(a, end, i, Commit);
    CommitOwns(s, i);
    var plain := SetProducer(s, i, Outside).(sh := s.sh.(committed := s.sh.committed + 1));
    assert end == plain.(sh := plain.sh.(buffer := buffer));
  }

  lemma OldestOwner<T>(s: State<T>) returns (i: nat)
    requires Owned(s) && s.sh.committed < s.sh.head
    ensures i < |s.producers| && PositionOf(s.producers[i]) == Some(s.sh.committed)
  {
    assert Some(s.sh.committed) in Positions(s.producers);
    i :| 0 <= i < |s.producers| && Positions(s.producers)[i] == Some(s.sh.committed);
  }

  // All claims are committed in order.
  lemma {:induction false} CommitAll<T(!new)>(a: State<T>, s: State<T>) returns (end: State<T>)
    requires Leads(a, s) && Owned(s)
    ensures Leads(a, end) && Owned(end) && OnlyCommits(s, end) && end.sh.committed == s.sh.head
    decreases s.sh.head - s.sh.committed
  {
    end := s;
    if s.sh.committed < s.sh.head {
      var mid := CommitOldest(a, s);
      end := CommitAll(a, mid);
    }
  }

  // Nobody holds a position once all is committed.
  lemma AllOutside<T>(s: State<T>, i: nat)
    requires Owned(s) && s.sh.committed == s.sh.head && i < |s.producers|
    ensures PositionOf(s.producers[i]) == None
  {
    assert PositionOwned(s.sh, s.producers[i]);
  }

  lemma OverrunHides<T>(s: State<T>)
    requires 0 < |s.sh.buffer| && s.consumer == Away && s.sh.committed == s.sh.tail + |s.sh.buffer|
    ensures Hides(s)
  {
    ModShift(s.sh.tail, |s.sh.buffer|);
  }

  lemma ClaimOwns<T>(s: State<T>, i: nat)
    requires Owned(s) && Enabled(s, i, Claim)
    ensures Owned(Step(s, i, Claim))
  {
    var s' := Step(s, i, Claim);
    var positions := Positions(s.producers);
    forall j | 0 <= j < |positions| && positions[j].Some? ensures positions[j].value < s.sh.head
    {
      assert PositionOwned(s.sh, s.producers[j]);
    }
    OwnedOnceClaim(s.sh.committed, s.sh.head, positions, i);
    assert Positions(s'.producers) == positions[i := Some(s.sh.head)];
    forall j | 0 <= j < |s'.producers| ensures PositionOwned(s'.sh, s'.producers[j])
    {
      if j != i { assert PositionOwned(s.sh, s.producers[j]); }
    }
  }

  lemma InvOwned<T>(s: State<T>)
    requires Inv(s)
    ensures Owned(s)
  {
    forall j | 0 <= j < |s.producers| ensures PositionOwned(s.sh, s.producers[j])
    {
      assert ProducerOk(s.sh, s.producers[j]);
    }
  }

  // A pop is under way on an overrun ring: a fresh push finds room behind it and overruns the ring for good.
  lemma PushBehindPop<T(!new)>(a: State<T>, s: State<T>, i: nat, item: T) returns (end: State<T>)
    requires Leads(a, s) && Owned(s) && i < |s.producers| && s.producers[i] == Outside && s.consumer.Taken?
    requires 2 <= |s.sh.buffer| && s.sh.committed == s.sh.head == s.sh.tail + |s.sh.buffer|
    ensures Leads(a, end) && Hides(end)
  {
    hide Leads;
    var cap, tail, head := |s.sh.buffer|, s.sh.tail, s.sh.head;
    end := LeadsNext(a, s, i, LoadHead(item));
    ModShift(tail, cap);
    SlotSuccessor(tail, cap);
    if (tail + 1) % cap == tail % cap { SameSlot(tail + 1, tail, cap); }
    end := LeadsNext(a, end, i, CheckTail);
    assert end.producers[i] == Checked(item, head % cap, head);
    assert Positions(end.producers) == Positions(s.producers);
    assert Owned(end) by {
      forall j | 0 <= j < |end.producers| ensures PositionOwned(end.sh, end.producers[j])
      {
        if j != i { assert PositionOwned(s.sh, s.producers[j]); }
      }
    }
    ClaimOwns(end, i);
    end := LeadsNext(a, end, i, Claim);
    end := LeadsNext(a, end, 0, AdvanceTail);
    end := CommitAll(a, end);
    OverrunHides(end);
  }

  // From a claim on a full ring the producers can finish, lapping nobody, and hide committed items.
  lemma FullClaimHides<T(!new)>(s: State<T>, i: nat) returns (end: State<T>)
    requires Inv(s) && Enabled(s, i, Claim) && !NotFull(s.sh)
    ensures Leads(Step(s, i, Claim), end) && Hides(end)
  {
    hide Leads;
    var a := Step(s, i, Claim);
    InvOwned(s);
    ClaimOwns(s, i);
    LeadsSelf(a);
    end := a;
    if s.consumer.NonEmpty? {
      assert Holds(s.sh, s.sh.tail);
      end := LeadsNext(a, end, 0, TakeSlot);
    }
    var mid := CommitAll(a, end);
    AllOutside(mid, i);
    if mid.consumer.Away? {
      end := mid;
      OverrunHides(end);
    } else {
      end := PushBehindPop(a, mid, i, s.producers[i].item);
    }
  }

  lemma SafeNeverHides<T>(s: State<T>, moves: seq<Move<T>>)
    requires Inv(s) && CanRun(s, moves) && NoLaps(s, moves)
    ensures !Hides(Run(s, moves))
  {
    NoLapsLeaveRoom(s, moves);
    RunInv(s, moves);
    var end := Run(s, moves);
    if Hides(end) { PopFailsIffNothingCommitted(end); }
  }

  /**
   Exactly when a claiming exchange does harm: if and only if it succeeds on a full ring, there is a way on
   from it, lapping nobody any more, after which the consumer is told "empty" while committed items wait.
   */
  lemma ClaimExact<T(!new)>(s: State<T>, i: nat)
    requires Inv(s) && Enabled(s, i, Claim)
    ensures (exists end :: Leads(Step(s, i, Claim), end) && Hides(end)) <==> !NotFull(s.sh)
  {
    if NotFull(s.sh) {
      ClaimInv(s, i);
      forall end | Leads(Step(s, i, Claim), end) ensures !Hides(end)
      {
        var moves :| CanRun(Step(s, i, Claim), moves) && NoLaps(Step(s, i, Claim), moves) &&
                     Run(Step(s, i, Claim), moves) == end;
        SafeNeverHides(Step(s, i, Claim), moves);
      }
    } else {
      var end := FullClaimHides(s, i);
    }
  }

  // ---------------------------------------------------------------- what is pushed, and that it is

  // The item a producer is pushing.
  function ItemOf<T>(p: Producer<T>): Option<T> {
    if p.Loaded? || p.Checked? || p.Claimed? then Some(p.item) else None
  }

  // The items claimed by the moves, each the argument its producer's push was called with.  `args` are the
  // arguments of the pushes already under way.
  function ClaimArgs<T>(args: seq<Option<T>>, moves: seq<Move<T>>): seq<T>
    decreases |moves|
  {
    if moves == [] then []
    else
      var m := moves[0];
      if m.producer >= |args| then ClaimArgs(args, moves[1..])
      else if m.action.LoadHead? then ClaimArgs(args[m.producer := Some(m.action.item)], moves[1..])
      else if m.action.Claim? && args[m.producer].Some? then [args[m.producer].value] + ClaimArgs(args, moves[1..])
      else ClaimArgs(args, moves[1..])
  }

  ghost predicate Carry<T>(args: seq<Option<T>>, s: State<T>) {
    && |args| == |s.producers|
    && forall i :: 0 <= i < |args| ==> ItemOf(s.producers[i]).Some? ==> args[i] == ItemOf(s.producers[i])
  }

  /** What is claimed, and so what is popped, is what the pushes were called with, through any number of retries. */
  lemma {:induction false} ClaimsAreArguments<T>(s: State<T>, moves: seq<Move<T>>, args: seq<Option<T>>)
    requires CanRun(s, moves) && Carry(args, s)
    ensures Run(s, moves).sh.claims == s.sh.claims + ClaimArgs(args, moves)
    decreases |moves|
  {
    if moves == [] {
      assert s.sh.claims + [] == s.sh.claims;
    } else {
      var m := moves[0];
      var s' := Step(s, m.producer, m.action);
      var args' := if m.action.LoadHead? && m.producer < |args| then args[m.producer := Some(m.action.item)] else args;
      ClaimsAreArguments(s', moves[1..], args');
      if m.action.Claim? {
        var item := s.producers[m.producer].item;
        var rest := ClaimArgs(args, moves[1..]);
        assert s.sh.claims + [item] + rest == s.sh.claims + ([item] + rest);
      }
    }
  }

  // Whether producer `i` works on an out-of-date head.
  predicate Stale<T>(s: State<T>, i: nat) {
    i < |s.producers| && (s.producers[i].Loaded? || s.producers[i].Checked?) && s.producers[i].at != s.sh.head
  }

  // Loaded slots are the slots of loaded positions.
  predicate SlotsMatch<T>(s: State<T>) {
    0 < |s.sh.buffer| && forall i :: 0 <= i < |s.producers| && (s.producers[i].Loaded? || s.producers[i].Checked?) ==>
      s.producers[i].slot == s.producers[i].at % |s.sh.buffer|
  }

  // A retry of producer `i` whose exchange could not have succeeded.
  predicate Fails<T>(s: State<T>, m: Move<T>, i: nat) {
    && Enabled(s, m.producer, m.action) && m.action.RetryClaim? && m.producer == i
    && s.sh.head % |s.sh.buffer| != s.producers[i].slot
  }

  function Failures<T>(s: State<T>, moves: seq<Move<T>>, i: nat): nat
    requires CanRun(s, moves)
    decreases |moves|
  {
    if moves == [] then 0
    else (if Fails(s, moves[0], i) then 1 else 0) +
         Failures(Step(s, moves[0].producer, moves[0].action), moves[1..], i)
  }

  lemma StepStale<T>(s: State<T>, m: Move<T>, i: nat)
    requires SlotsMatch(s) && Enabled(s, m.producer, m.action)
    ensures var s' := Step(s, m.producer, m.action);
      && SlotsMatch(s') && s.sh.head <= s'.sh.head
      && (s'.sh.head == s.sh.head && Stale(s', i) ==> Stale(s, i))
      && (Fails(s, m, i) ==> Stale(s, i) && !Stale(s', i) && s'.sh.head == s.sh.head)
  {
  }

  /** Each failed claim of a producer is paid for by a claim of another, because a failure reloads the head. */
  lemma {:induction false} ClaimsAreLockFree<T>(s: State<T>, moves: seq<Move<T>>, i: nat)
    requires SlotsMatch(s) && CanRun(s, moves)
    ensures s.sh.head <= Run(s, moves).sh.head
    ensures Failures(s, moves, i) <= Run(s, moves).sh.head - s.sh.head + (if Stale(s, i) then 1 else 0)
    decreases |moves|
  {
    if moves != [] {
      StepStale(s, moves[0], i);
      ClaimsAreLockFree(Step(s, moves[0].producer, moves[0].action), moves[1..], i);
    }
  }

  /**
   A producer left alone after a failed or pending exchange, with no other claim in flight, pushes its item if
   there is room and is refused otherwise.
   */
  lemma PushAlone<T(!new)>(s: State<T>, i: nat) returns (end: State<T>)
    requires Inv(s) && i < |s.producers| && s.producers[i].Checked? && s.sh.committed == s.sh.head
    ensures Leads(s, end) && end.producers == s.producers[i := Outside]
    ensures if NotFull(s.sh) then
              end.sh.claims == s.sh.claims + [s.producers[i].item] && end.sh.committed == s.sh.head + 1
            else end.sh == s.sh
  {
    hide Leads, OwnedOnce;
    var sh, cap, item := s.sh, |s.sh.buffer|, s.producers[i].item;
    LeadsSelf(s);
    SlotSuccessor(sh.head, cap);
    FullTest(sh.head, sh.tail, cap);
    end := LeadsNext(s, s, i, RetryClaim);
    end := LeadsNext(s, end, i, CheckTail);
    if NotFull(sh) {
      end := LeadsNext(s, end, i, Claim);
      end := LeadsNext(s, end, i, WriteSlot);
      end := LeadsNext(s, end, i, Spin);
      end := LeadsNext(s, end, i, Commit);
    }
    assert end.producers == s.producers[i := Outside];
  }

  // ---------------------------------------------------------------- when a push is refused

  /**
   A push is refused if and only if a whole number of laps lies between the position after the one it loaded and
   the tail.
   */
  lemma PushRefusedExactly<T>(s: State<T>, i: nat)
    requires Inv(s) && Enabled(s, i, CheckTail)
    ensures Step(s, i, CheckTail).producers[i] == Outside <==>
            LapsApart(s.producers[i].at + 1, s.sh.tail, |s.sh.buffer|)
  {
    hide LapsApart;
    assert ProducerOk(s.sh, s.producers[i]);
    SlotSuccessor(s.producers[i].at, |s.sh.buffer|);
    SameSlotExactly(s.producers[i].at + 1, s.sh.tail, |s.sh.buffer|);
  }

  /**
   For a push that has not been lapped since its head load this means: nothing has been claimed since and the
   ring is full, or everything up to and including the position it loaded has been popped.
   */
  lemma PushRefusedWithinLap<T>(s: State<T>, i: nat)
    requires Inv(s) && Enabled(s, i, CheckTail) && s.sh.head < s.producers[i].at + |s.sh.buffer|
    ensures Step(s, i, CheckTail).producers[i] == Outside <==>
            (s.producers[i].at == s.sh.head && !NotFull(s.sh)) || s.producers[i].at + 1 == s.sh.tail
  {
    var at, tail, cap := s.producers[i].at, s.sh.tail, |s.sh.buffer|;
    assert ProducerOk(s.sh, s.producers[i]);
    SlotSuccessor(at, cap);
    if at + 1 == tail + cap {
      ModShift(tail, cap);
    } else if (at + 1) % cap == tail % cap {
      SameSlot(at + 1, tail, cap);
    }
  }

  // ---------------------------------------------------------------- runs that go wrong

  ghost predicate Reaches<T(!new)>(s0: State<T>, s: State<T>) {
    exists moves :: CanRun(s0, moves) && Run(s0, moves) == s
  }

  lemma ReachesSelf<T(!new)>(s: State<T>)
    ensures Reaches(s, s)
  {
    assert CanRun(s, []) && Run(s, []) == s;
  }

  lemma ReachesNext<T(!new)>(s0: State<T>, s: State<T>, i: nat, a: Action<T>)
    requires Reaches(s0, s) && Enabled(s, i, a)
    ensures Reaches(s0, Step(s, i, a))
  {
    var moves :| CanRun(s0, moves) && Run(s0, moves) == s;
    var last := [Move(i, a)];
    assert CanRun(Step(s, i, a), last[1..]);
    assert CanRun(s, last) && Run(s, last) == Step(s, i, a);
    RunConcat(s0, moves, last);
  }

  // An uninterrupted push by producer 1 onto a ring of two slots with nothing in it.
  lemma WholePush(s0: State<int>, s: State<int>, item: int) returns (end: State<int>)
    requires Reaches(s0, s) && |s.sh.buffer| == 2 && |s.producers| == 2 && s.producers[1].Outside?
    requires s.sh.head == s.sh.committed == s.sh.tail
    ensures Reaches(s0, end)
    ensures end == s.(sh := s.sh.(buffer := s.sh.buffer[s.sh.head % 2 := Some(item)], head := s.sh.head + 1,
                                  committed := s.sh.head + 1, claims := s.sh.claims + [item]))
  {
    hide Reaches;
    var h := s.sh.head;
    ReachesNext(s0, s, 1, LoadHead(item));
    var s1 := SetProducer(s, 1, Loaded(item, h % 2, h));
    ReachesNext(s0, s1, 1, CheckTail);
    var s2 := SetProducer(s, 1, Checked(item, h % 2, h));
    assert Step(s1, 1, CheckTail) == s2;
    ReachesNext(s0, s2, 1, Claim);
    var s3 := SetProducer(s, 1, Claimed(item, h)).(sh := s.sh.(head := h + 1, claims := s.sh.claims + [item]));
    assert Step(s2, 1, Claim) == s3;
    ReachesNext(s0, s3, 1, WriteSlot);
    var s4 := SetProducer(s, 1, Written(h)).(sh := s3.sh.(buffer := s.sh.buffer[h % 2 := Some(item)]));
    assert Step(s3, 1, WriteSlot) == s4;
    ReachesNext(s0, s4, 1, Spin);
    var s5 := SetProducer(s, 1, Ready(h)).(sh := s4.sh);
    assert Step(s4, 1, Spin) == s5;
    ReachesNext(s0, s5, 1, Commit);
    end := Step(s5, 1, Commit);
    assert end.producers == s.producers;
  }

  lemma WholePop(s0: State<int>, s: State<int>) returns (end: State<int>)
    requires Reaches(s0, s) && |s.sh.buffer| == 2
    requires s.consumer == Away && s.sh.committed == s.sh.tail + 1 && s.sh.buffer[s.sh.tail % 2].Some?
    ensures Reaches(s0, end)
    ensures end == s.(sh := s.sh.(tail := s.sh.tail + 1, popped := s.sh.popped + [s.sh.buffer[s.sh.tail % 2].value]))
  {
    hide Reaches;
    ReachesNext(s0, s, 0, CheckCommitted);
    var s1 := s.(consumer := NonEmpty);
    ReachesNext(s0, s1, 0, TakeSlot);
    ReachesNext(s0, Step(s1, 0, TakeSlot), 0, AdvanceTail);
    end := Step(Step(s1, 0, TakeSlot), 0, AdvanceTail);
  }

  // Producer 0 holds a check made on an empty ring; meanwhile head_ has gone round and the ring is full.
  function Lapped(): State<int> {
    State(Shared([Some(1), Some(2)], 2, 1, 2, [1, 2], [1]), [Checked(9, 0, 0), Outside], Away)
  }

  lemma ReachLapped() returns (s0: State<int>)
    ensures Init(s0) && Reaches(s0, Lapped())
  {
    hide Reaches;
    s0 := State(Shared([None, None], 0, 0, 0, [], []), [Outside, Outside], Away);
    ReachesSelf(s0);
    ReachesNext(s0, s0, 0, LoadHead(9));
    ReachesNext(s0, Step(s0, 0, LoadHead(9)), 0, CheckTail);
    var s := s0.(producers := [Checked(9, 0, 0), Outside]);
    assert Step(Step(s0, 0, LoadHead(9)), 0, CheckTail) == s;
    s := WholePush(s0, s, 1);
    s := WholePop(s0, s);
    s := WholePush(s0, s, 2);
    assert s.sh.buffer == [Some(1), Some(2)];
    assert s == Lapped();
  }

  /**
   The condition cannot be dropped.  With two slots: producer 0 checks an empty ring and stalls;
   producer 1 pushes, the consumer pops, producer 1 pushes again, so `head_` is back where it was and
   the ring is full; producer 0 then claims.  Two committed items are lost: the consumer sees an empty ring.
   */
  lemma LapLosesItems() returns (s0: State<int>, s: State<int>)
    ensures Init(s0) && Reaches(s0, s)
    ensures s.sh.claims == [1, 2, 9] && s.sh.popped == [1] && s.producers == [Outside, Outside]
    ensures Enabled(s, 0, CheckCommitted) && Step(s, 0, CheckCommitted).consumer == Away
  {
    hide Reaches;
    s0 := ReachLapped();
    var s1 := Lapped();
    ReachesNext(s0, s1, 0, Claim);
    var s2 := State(Shared([Some(1), Some(2)], 3, 1, 2, [1, 2, 9], [1]), [Claimed(9, 2), Outside], Away);
    assert Step(s1, 0, Claim) == s2;
    ReachesNext(s0, s2, 0, WriteSlot);
    var s3 := s2.(sh := s2.sh.(buffer := [Some(9), Some(2)]), producers := [Written(2), Outside]);
    assert Step(s2, 0, WriteSlot) == s3;
    ReachesNext(s0, s3, 0, Spin);
    var s4 := s3.(producers := [Ready(2), Outside]);
    assert Step(s3, 0, Spin) == s4;
    ReachesNext(s0, s4, 0, Commit);
    s := Step(s4, 0, Commit);
  }

  // A lap need not do harm: if a pop frees a slot before the overrun is committed, every item arrives.
  lemma LapWithoutLoss() returns (s0: State<int>, s: State<int>)
    ensures Init(s0) && Reaches(s0, s) && s.producers == [Outside, Outside]
    ensures s.sh.claims == s.sh.popped == [1, 2, 9]
  {
    hide Reaches;
    s0 := ReachLapped();
    var s1 := Lapped();
    ReachesNext(s0, s1, 0, Claim);
    var s2 := State(Shared([Some(1), Some(2)], 3, 1, 2, [1, 2, 9], [1]), [Claimed(9, 2), Outside], Away);
    assert Step(s1, 0, Claim) == s2;
    var s3 := WholePop(s0, s2);
    ReachesNext(s0, s3, 0, WriteSlot);
    var s4 := State(Shared([Some(9), Some(2)], 3, 2, 2, [1, 2, 9], [1, 2]), [Written(2), Outside], Away);
    assert Step(s3, 0, WriteSlot) == s4;
    ReachesNext(s0, s4, 0, Spin);
    var s5 := s4.(producers := [Ready(2), Outside]);
    assert Step(s4, 0, Spin) == s5;
    ReachesNext(s0, s5, 0, Commit);
    var s6 := s4.(sh := s4.sh.(committed := 3), producers := [Outside, Outside]);
    assert Step(s5, 0, Commit) == s6;
    s := WholePop(s0, s6);
  }

  /**
   "Full" can be reported on an empty ring: producer 0 loads the head and stalls, one item is pushed and popped,
   and the tail now stands where a full ring would have it.
   */
  lemma RefusedWhenEmpty() returns (s0: State<int>, s: State<int>)
    ensures Init(s0) && Reaches(s0, s) && Inv(s) && s.sh.head == s.sh.tail == s.sh.committed
    ensures Enabled(s, 0, CheckTail) && Step(s, 0, CheckTail).producers[0] == Outside
  {
    hide Reaches;
    s0 := State(Shared([None, None], 0, 0, 0, [], []), [Outside, Outside], Away);
    ReachesSelf(s0);
    ReachesNext(s0, s0, 0, LoadHead(9));
    s := s0.(producers := [Loaded(9, 0, 0), Outside]);
    assert Step(s0, 0, LoadHead(9)) == s;
    s := WholePush(s0, s, 1);
    s := WholePop(s0, s);
    assert s == State(Shared([Some(1), None], 1, 1, 1, [1], [1]), [Loaded(9, 0, 0), Outside], Away);
    assert Positions(s.producers) == [None, None];
  }
}
