/**
 The lock-free object pool: a Treiber stack of slot indices whose head carries an ABA tag.

 Every shared access of `acquire` and `release` (head load, successor read, successor write,
 compare-exchange) is one atomic step of one thread, and the steps of any number of threads
 interleave freely under sequential consistency.  The tag is kept as an unbounded counter of
 successful exchanges; the machine compares it only modulo 2^32, and so does the model.
 */
module ObjectPool {
  import opened Basics

  // The index that marks the end of the free list.
  const INVALID := 0xFFFF_FFFF

  type Slot = nat

  // The tagged head word: an index (or INVALID) and the number of exchanges made so far.
  datatype Head = Head(index: nat, count: nat)

  // Where a thread stands inside `acquire` or `release`.
  datatype Pc =
    | Idle
    | AcquireLoaded(seen: Head)                // head loaded and found non-empty
    | AcquireRead(seen: Head, successor: nat)  // successor read, exchange comes next
    | ReleaseCalled(slot: Slot)               // slot handed in, head not loaded yet
    | ReleaseLoaded(slot: Slot, seen: Head)    // head loaded, successor not written yet
    | ReleaseWritten(slot: Slot, seen: Head)   // successor written, exchange comes next

  // A thread together with the slots its caller holds.
  datatype Thread = Thread(pc: Pc, held: set<Slot>)

  datatype State = State(next: seq<nat>, head: Head, threads: seq<Thread>)

  // ---------------------------------------------------------------- steps

  datatype Action =
    | LoadForAcquire | ReadNext | ExchangeForAcquire | RetryAcquire
    | CallRelease(slot: Slot) | LoadForRelease | WriteNext | ExchangeForRelease | RetryRelease
    | HandOver(slot: Slot, to: nat)

  // What a thread does with a head value it has just loaded: give up on an empty list, else go on.
  function AfterAcquireLoad(head: Head): Pc {
    if head.index == INVALID then Idle else AcquireLoaded(head)
  }

  // The machine-level comparison made by compare_exchange: index and 32-bit tag.
  predicate SameWord(a: Head, b: Head) {
    a.index == b.index && a.count % U32 == b.count % U32
  }

  function WithPc(s: State, t: nat, pc: Pc): State
    requires t < |s.threads|
  {
    s.(threads := s.threads[t := s.threads[t].(pc := pc)])
  }

  // Thread `t` may take action `a` in state `s`.  A weak exchange may also fail spuriously, so the
  // retry actions carry no condition on the head.
  predicate Enabled(s: State, t: nat, a: Action) {
    t < |s.threads| &&
    var th := s.threads[t];
    match a
    case LoadForAcquire => th.pc.Idle?
    case ReadNext => th.pc.AcquireLoaded? && th.pc.seen.index < |s.next|
    case ExchangeForAcquire => th.pc.AcquireRead? && SameWord(s.head, th.pc.seen)
    case RetryAcquire => th.pc.AcquireRead?
    case CallRelease(slot) => th.pc.Idle? && slot in th.held
    case LoadForRelease => th.pc.ReleaseCalled?
    case WriteNext => th.pc.ReleaseLoaded? && th.pc.slot < |s.next|
    case ExchangeForRelease => th.pc.ReleaseWritten? && SameWord(s.head, th.pc.seen)
    case RetryRelease => th.pc.ReleaseWritten?
    case HandOver(slot, to) => slot in th.held && to < |s.threads| && to != t
  }

  function Step(s: State, t: nat, a: Action): State
    requires Enabled(s, t, a)
  {
    var th := s.threads[t];
    match a
    case LoadForAcquire => WithPc(s, t, AfterAcquireLoad(s.head))
    case ReadNext => WithPc(s, t, AcquireRead(th.pc.seen, s.next[th.pc.seen.index]))
    case ExchangeForAcquire =>
      s.(head := Head(th.pc.successor, s.head.count + 1),
         threads := s.threads[t := Thread(Idle, th.held + {th.pc.seen.index})])
    case RetryAcquire => WithPc(s, t, AfterAcquireLoad(s.head))
    case CallRelease(slot) => s.(threads := s.threads[t := Thread(ReleaseCalled(slot), th.held - {slot})])
    case LoadForRelease => WithPc(s, t, ReleaseLoaded(th.pc.slot, s.head))
    case WriteNext =>
      WithPc(s, t, ReleaseWritten(th.pc.slot, th.pc.seen)).(next := s.next[th.pc.slot := th.pc.seen.index])
    case ExchangeForRelease =>
      WithPc(s, t, Idle).(head := Head(th.pc.slot, s.head.count + 1))
    case RetryRelease => WithPc(s, t, ReleaseLoaded(th.pc.slot, s.head))
    case HandOver(slot, to) =>
      s.(threads := s.threads[t := th.(held := th.held - {slot})]
                             [to := s.threads[to].(held := s.threads[to].held + {slot})])
  }

  // ---------------------------------------------------------------- initial state

  // The list that the constructor builds: 0 -> 1 -> ... -> n-1 -> INVALID.
  predicate Init(s: State) {
    && 0 < |s.next| <= INVALID
    && (forall i :: 0 <= i < |s.next| ==> s.next[i] == if i + 1 < |s.next| then i + 1 else INVALID)
    && s.head == Head(0, 0)
    && (forall t :: 0 <= t < |s.threads| ==> s.threads[t] == Thread(Idle, {}))
  }

  method Construct(n: nat, threads: nat) returns (s: State)
    requires 0 < n <= INVALID
    ensures Init(s) && |s.next| == n && |s.threads| == threads
  {
    var next := new nat[n];
    for i := 0 to n - 1
      invariant forall k :: 0 <= k < i ==> next[k] == k + 1
    {
      next[i] := i + 1;
    }
    next[n - 1] := INVALID;
    s := State(next[..], Head(0, 0), seq(threads, _ => Thread(Idle, {})));
  }

  // ---------------------------------------------------------------- invariant

  // The index stored behind position `i` of the list `free`.
  function Link(free: seq<Slot>, i: nat): nat {
    if i + 1 < |free| then free[i + 1] else INVALID
  }

  // `free` is exactly the chain of slots reached from `index` through `next`.
  ghost predicate Chain(next: seq<nat>, index: nat, free: seq<Slot>) {
    && (forall i :: 0 <= i < |free| ==> free[i] < |next|)
    && index == (if |free| == 0 then INVALID else free[0])
    && (forall i :: 0 <= i < |free| ==> next[free[i]] == Link(free, i))
  }

  ghost predicate NoDuplicates(free: seq<Slot>) {
    forall i, j :: 0 <= i < j < |free| ==> free[i] != free[j]
  }

  predicate Releasing(pc: Pc) {
    pc.ReleaseCalled? || pc.ReleaseLoaded? || pc.ReleaseWritten?
  }

  // The slots thread `th` answers for: those its caller holds and the one it is releasing.
  function Mine(th: Thread): set<Slot> {
    if Releasing(th.pc) then th.held + {th.pc.slot} else th.held
  }

  function Owned(s: State): seq<set<Slot>> {
    seq(|s.threads|, t requires 0 <= t < |s.threads| => Mine(s.threads[t]))
  }

  predicate Has(owned: seq<set<Slot>>, t: nat, x: Slot) {
    t < |owned| && x in owned[t]
  }

  ghost predicate Taken(owned: seq<set<Slot>>, x: Slot) {
    exists t: nat :: Has(owned, t, x)
  }

  // Every slot below n is either free or owned, never both, and never owned by two threads.
  ghost predicate Partition(n: nat, owned: seq<set<Slot>>, free: seq<Slot>) {
    && (forall x: Slot :: x < n ==> x in free || Taken(owned, x))
    && (forall t: nat, x: Slot :: Has(owned, t, x) ==> x < n && x !in free)
    && (forall t: nat, u: nat, x: Slot :: Has(owned, t, x) && Has(owned, u, x) ==> t == u)
  }

  // What a thread's local copies say about shared memory: while no exchange has succeeded since the
  // copy was taken, the copy is still the head and the successor it read is still the successor.
  ghost predicate CopyFresh(next: seq<nat>, head: Head, pc: Pc) {
    match pc
    case AcquireLoaded(seen) =>
      seen.index < |next| && seen.count <= head.count && (seen.count == head.count ==> seen == head)
    case AcquireRead(seen, successor) =>
      seen.index < |next| && seen.count <= head.count &&
      (seen.count == head.count ==> seen == head && successor == next[seen.index])
    case ReleaseLoaded(_, seen) =>
      seen.count <= head.count && (seen.count == head.count ==> seen == head)
    case ReleaseWritten(slot, seen) =>
      seen.count <= head.count && (seen.count == head.count ==> seen == head) &&
      slot < |next| && next[slot] == seen.index
    case _ => true
  }

  ghost predicate Structure(s: State, free: seq<Slot>) {
    && |s.next| <= INVALID && Chain(s.next, s.head.index, free) && NoDuplicates(free)
    && Partition(|s.next|, Owned(s), free)
  }

  ghost predicate Inv(s: State, free: seq<Slot>) {
    && Structure(s, free)
    && (forall t :: 0 <= t < |s.threads| ==> CopyFresh(s.next, s.head, s.threads[t].pc))
    && (forall t :: 0 <= t < |s.threads| && Releasing(s.threads[t].pc) ==> s.threads[t].pc.slot !in s.threads[t].held)
  }

  // The abstract operation each action performs on the free stack.
  function AbstractStep(s: State, t: nat, a: Action, free: seq<Slot>): seq<Slot>
    requires Enabled(s, t, a)
  {
    if a.ExchangeForAcquire? then (if |free| == 0 then free else free[1..])
    else if a.ExchangeForRelease? then [s.threads[t].pc.slot] + free
    else free
  }

  // ---------------------------------------------------------------- one step

  lemma InitInv(s: State)
    requires Init(s)
    ensures Inv(s, seq(|s.next|, i => i))
  {
    var free := seq(|s.next|, i => i);
    forall x | 0 <= x < |s.next| ensures x in free { assert free[x] == x; }
    forall t | 0 <= t < |s.threads| ensures Owned(s)[t] == {} { assert s.threads[t] == Thread(Idle, {}); }
    assert forall t: nat, x: Slot :: !Has(Owned(s), t, x);
  }

  lemma PopChain(next: seq<nat>, free: seq<Slot>)
    requires free != [] && NoDuplicates(free) && Chain(next, free[0], free)
    ensures Chain(next, next[free[0]], free[1..]) && NoDuplicates(free[1..])
    ensures forall x :: x in free[1..] <==> x in free && x != free[0]
  {
    var rest := free[1..];
    forall i | 0 <= i < |rest| ensures next[rest[i]] == Link(rest, i)
    {
      assert rest[i] == free[i + 1];
      assert next[free[i + 1]] == Link(free, i + 1);
    }
    forall x | x in free && x != free[0] ensures x in rest
    {
      var i :| 0 <= i < |free| && free[i] == x;
      assert rest[i - 1] == x;
    }
  }

  lemma PushChain(next: seq<nat>, index: nat, free: seq<Slot>, x0: Slot)
    requires NoDuplicates(free) && Chain(next, index, free) && x0 !in free && x0 < |next| && next[x0] == index
    ensures Chain(next, x0, [x0] + free) && NoDuplicates([x0] + free)
    ensures forall x :: x in [x0] + free <==> x in free || x == x0
  {
    var more := [x0] + free;
    forall i | 0 <= i < |more| ensures next[more[i]] == Link(more, i)
    {
      if i > 0 { assert more[i] == free[i - 1]; assert next[free[i - 1]] == Link(free, i - 1); }
    }
  }

  // The 32-bit tag tells two head values apart as long as fewer than 2^32 exchanges lie between them.
  lemma TagsDistinguish(a: nat, b: nat)
    requires b <= a < b + U32
    requires a % U32 == b % U32
    ensures a == b
  {
  }

  // Fewer than 2^32 exchanges succeeded between the head load of thread `t` and its own exchange.
  predicate TagUnwrapped(s: State, t: nat) {
    t < |s.threads| && s.threads[t].pc.AcquireRead? && s.head.count < s.threads[t].pc.seen.count + U32
  }

  lemma PartitionTake(n: nat, owned: seq<set<Slot>>, free: seq<Slot>, t: nat)
    requires Partition(n, owned, free) && t < |owned| && free != [] && free[0] < n
    requires forall x :: x in free[1..] <==> x in free && x != free[0]
    ensures Partition(n, owned[t := owned[t] + {free[0]}], free[1..])
  {
    var x0, owned' := free[0], owned[t := owned[t] + {free[0]}];
    assert x0 in free;
    assert forall u: nat, x: Slot :: Has(owned', u, x) <==> Has(owned, u, x) || (u == t && x == x0);
    forall x: Slot | x < n && x !in free[1..] ensures Taken(owned', x)
    {
      if x == x0 {
        assert Has(owned', t, x);
      } else {
        var u: nat :| Has(owned, u, x);
        assert Has(owned', u, x);
      }
    }
  }

  lemma PartitionGive(n: nat, owned: seq<set<Slot>>, free: seq<Slot>, t: nat, x0: Slot)
    requires Partition(n, owned, free) && Has(owned, t, x0)
    requires forall x :: x in [x0] + free <==> x in free || x == x0
    ensures Partition(n, owned[t := owned[t] - {x0}], [x0] + free)
  {
    var owned' := owned[t := owned[t] - {x0}];
    assert forall u: nat, x: Slot :: Has(owned', u, x) <==> Has(owned, u, x) && !(u == t && x == x0);
    forall x: Slot | x < n && x !in [x0] + free ensures Taken(owned', x)
    {
      var u: nat :| Has(owned, u, x);
      assert Has(owned', u, x);
    }
  }

  lemma PartitionMove(n: nat, owned: seq<set<Slot>>, free: seq<Slot>, t: nat, to: nat, x0: Slot)
    requires Partition(n, owned, free) && Has(owned, t, x0) && to < |owned| && t != to
    ensures Partition(n, owned[t := owned[t] - {x0}][to := owned[to] + {x0}], free)
  {
    var owned' := owned[t := owned[t] - {x0}][to := owned[to] + {x0}];
    forall u: nat, x: Slot ensures Has(owned', u, x) <==> if x == x0 then u == to else Has(owned, u, x)
    {
      assert Has(owned, u, x0) ==> u == t;
    }
    forall x: Slot | x < n && x !in free ensures Taken(owned', x)
    {
      var u: nat :| Has(owned, u, x);
      assert Has(owned', if x == x0 then to else u, x);
    }
  }

  // Steps that leave memory and every thread's slots alone.
  lemma LocalStepInv(s: State, t: nat, th: Thread, free: seq<Slot>)
    requires Inv(s, free) && t < |s.threads|
    requires Mine(th) == Mine(s.threads[t])
    requires Releasing(th.pc) ==> th.pc.slot !in th.held
    requires CopyFresh(s.next, s.head, th.pc)
    ensures Inv(s.(threads := s.threads[t := th]), free)
  {
    assert Owned(s.(threads := s.threads[t := th])) == Owned(s);
  }

  // The successor a thread has read is still the successor of the slot it is about to take.
  predicate SuccessorCurrent(s: State, t: nat) {
    && t < |s.threads| && s.threads[t].pc.AcquireRead?
    && var pc := s.threads[t].pc;
       pc.seen.index < |s.next| && pc.successor == s.next[pc.seen.index]
  }

  lemma ExchangeForAcquireInv(s: State, t: nat, free: seq<Slot>)
    requires Inv(s, free) && Enabled(s, t, ExchangeForAcquire)
    requires SuccessorCurrent(s, t)
    ensures free != [] && s.threads[t].pc.seen.index == free[0]
    ensures Inv(Step(s, t, ExchangeForAcquire), free[1..])
  {
    var s' := Step(s, t, ExchangeForAcquire);
    assert CopyFresh(s.next, s.head, s.threads[t].pc);
    PopChain(s.next, free);
    PartitionTake(|s.next|, Owned(s), free, t);
    assert Owned(s') == Owned(s)[t := Owned(s)[t] + {free[0]}];
  }

  lemma ExchangeForReleaseInv(s: State, t: nat, free: seq<Slot>)
    requires Inv(s, free) && Enabled(s, t, ExchangeForRelease)
    ensures Inv(Step(s, t, ExchangeForRelease), [s.threads[t].pc.slot] + free)
  {
    hide Chain, NoDuplicates, Partition, Has;
    var s' := Step(s, t, ExchangeForRelease);
    var x0 := s.threads[t].pc.slot;
    assert CopyFresh(s.next, s.head, s.threads[t].pc);
    assert Owned(s)[t] == s.threads[t].held + {x0};
    OwnedNotFree(|s.next|, Owned(s), free, t, x0);
    PushChain(s.next, s.head.index, free, x0);
    PartitionGive(|s.next|, Owned(s), free, t, x0);
    assert Owned(s') == Owned(s)[t := Owned(s)[t] - {x0}];
    forall u | 0 <= u < |s'.threads| ensures CopyFresh(s'.next, s'.head, s'.threads[u].pc)
    {
      assert CopyFresh(s.next, s.head, s.threads[u].pc);
    }
  }

  lemma OwnedNotFree(n: nat, owned: seq<set<Slot>>, free: seq<Slot>, t: nat, x: Slot)
    requires Partition(n, owned, free) && t < |owned| && x in owned[t]
    ensures x < n && x !in free && Has(owned, t, x)
  {
    assert Has(owned, t, x);
  }

  lemma WriteNextInv(s: State, t: nat, free: seq<Slot>)
    requires Inv(s, free) && Enabled(s, t, WriteNext)
    ensures Inv(Step(s, t, WriteNext), free)
  {
    var s' := Step(s, t, WriteNext);
    var x0 := s.threads[t].pc.slot;
    assert Has(Owned(s), t, x0);
    assert Owned(s') == Owned(s);
    forall i | 0 <= i < |free| ensures s'.next[free[i]] == Link(free, i) { assert free[i] in free; }
    forall u | 0 <= u < |s'.threads| ensures CopyFresh(s'.next, s'.head, s'.threads[u].pc)
    {
      assert CopyFresh(s.next, s.head, s.threads[u].pc);
      if u != t && s.threads[u].pc.ReleaseWritten? {
        assert Has(Owned(s), u, s.threads[u].pc.slot);
      }
    }
  }

  lemma HandOverInv(s: State, t: nat, slot: Slot, to: nat, free: seq<Slot>)
    requires Inv(s, free) && Enabled(s, t, HandOver(slot, to))
    ensures Inv(Step(s, t, HandOver(slot, to)), free)
  {
    var s' := Step(s, t, HandOver(slot, to));
    assert Has(Owned(s), t, slot) && !Has(Owned(s), to, slot);
    PartitionMove(|s.next|, Owned(s), free, t, to, slot);
    assert Mine(s'.threads[t]) == Mine(s.threads[t]) - {slot};
    assert Mine(s'.threads[to]) == Mine(s.threads[to]) + {slot};
    assert Owned(s') == Owned(s)[t := Owned(s)[t] - {slot}][to := Owned(s)[to] + {slot}];
  }

  /**
   Every atomic step keeps the pool well formed and performs exactly its stack operation on the free
   slots: an acquiring exchange pops, a releasing exchange pushes, everything else changes nothing.
   Only the acquiring exchange relies on the tag; a releasing exchange is safe even on a wrapped tag.
   */
  lemma StepInv(s: State, t: nat, a: Action, free: seq<Slot>)
    requires Inv(s, free) && Enabled(s, t, a)
    requires a.ExchangeForAcquire? ==> TagUnwrapped(s, t)
    ensures Inv(Step(s, t, a), AbstractStep(s, t, a, free))
  {
    var th := s.threads[t];
    var pc := th.pc;
    assert CopyFresh(s.next, s.head, pc);
    match a
    case LoadForAcquire => LocalStepInv(s, t, th.(pc := AfterAcquireLoad(s.head)), free);
    case RetryAcquire => LocalStepInv(s, t, th.(pc := AfterAcquireLoad(s.head)), free);
    case ReadNext => LocalStepInv(s, t, th.(pc := AcquireRead(pc.seen, s.next[pc.seen.index])), free);
    case ExchangeForAcquire =>
      TagsDistinguish(s.head.count, pc.seen.count);
      ExchangeForAcquireInv(s, t, free);
    case LoadForRelease => LocalStepInv(s, t, th.(pc := ReleaseLoaded(pc.slot, s.head)), free);
    case RetryRelease => LocalStepInv(s, t, th.(pc := ReleaseLoaded(pc.slot, s.head)), free);
    case WriteNext => WriteNextInv(s, t, free);
    case ExchangeForRelease => ExchangeForReleaseInv(s, t, free);
    case CallRelease(slot) => LocalStepInv(s, t, Thread(ReleaseCalled(slot), th.held - {slot}), free);
    case HandOver(slot, to) => HandOverInv(s, t, slot, to, free);
  }

  // ---------------------------------------------------------------- whole runs

  datatype Move = Move(thread: nat, action: Action)

  // The moves can be taken one after the other, starting in `s`.
  predicate CanRun(s: State, moves: seq<Move>)
    decreases |moves|
  {
    moves == [] ||
    (Enabled(s, moves[0].thread, moves[0].action) &&
     CanRun(Step(s, moves[0].thread, moves[0].action), moves[1..]))
  }

  function Run(s: State, moves: seq<Move>): State
    requires CanRun(s, moves)
    decreases |moves|
  {
    if moves == [] then s else Run(Step(s, moves[0].thread, moves[0].action), moves[1..])
  }

  // No acquiring exchange of the run compares a tag that has wrapped around completely.
  predicate TagsUnwrapped(s: State, moves: seq<Move>)
    requires CanRun(s, moves)
    decreases |moves|
  {
    moves == [] ||
    ((moves[0].action.ExchangeForAcquire? ==> TagUnwrapped(s, moves[0].thread)) &&
     TagsUnwrapped(Step(s, moves[0].thread, moves[0].action), moves[1..]))
  }

  // The free stack after a run, computed by the abstract pops and pushes alone.
  function StackRun(s: State, moves: seq<Move>, free: seq<Slot>): seq<Slot>
    requires CanRun(s, moves)
    decreases |moves|
  {
    if moves == [] then free
    else StackRun(Step(s, moves[0].thread, moves[0].action), moves[1..],
                  AbstractStep(s, moves[0].thread, moves[0].action, free))
  }

  lemma {:induction false} RunInv(s: State, moves: seq<Move>, free: seq<Slot>)
    requires Inv(s, free) && CanRun(s, moves) && TagsUnwrapped(s, moves)
    ensures Inv(Run(s, moves), StackRun(s, moves, free))
    decreases |moves|
  {
    if moves != [] {
      var t, a := moves[0].thread, moves[0].action;
      StepInv(s, t, a, free);
      RunInv(Step(s, t, a), moves[1..], AbstractStep(s, t, a, free));
    }
  }

  /**
   Safety of every interleaving: the chain from the head is acyclic, free and owned slots partition
   {0..n-1}, no slot has two owners, and the list is the one the stack operations alone would leave.
   */
  lemma PoolSafe(s0: State, moves: seq<Move>)
    requires Init(s0) && CanRun(s0, moves) && TagsUnwrapped(s0, moves)
    ensures var s, free := Run(s0, moves), StackRun(s0, moves, seq(|s0.next|, i => i));
      && Chain(s.next, s.head.index, free) && NoDuplicates(free)
      && Partition(|s0.next|, Owned(s), free)
  {
    InitInv(s0);
    RunInv(s0, moves, seq(|s0.next|, i => i));
    RunKeepsSize(s0, moves);
  }

  lemma {:induction false} RunKeepsSize(s: State, moves: seq<Move>)
    requires CanRun(s, moves)
    ensures |Run(s, moves).next| == |s.next| && |Run(s, moves).threads| == |s.threads|
    decreases |moves|
  {
    if moves != [] { RunKeepsSize(Step(s, moves[0].thread, moves[0].action), moves[1..]); }
  }

  // `acquire` gives up exactly when the list is empty at its head read.
  lemma GivesUpIffEmpty(s: State, t: nat, a: Action, free: seq<Slot>)
    requires Inv(s, free) && Enabled(s, t, a) && (a.LoadForAcquire? || a.RetryAcquire?)
    ensures Step(s, t, a).threads[t].pc == Idle <==> free == []
  {
    if free != [] { assert free[0] < |s.next|; }
  }

  // ---------------------------------------------------------------- progress

  // An exchange that cannot succeed was overtaken by another thread's success.
  lemma FailureMeansProgress(s: State, t: nat, free: seq<Slot>)
    requires Inv(s, free) && t < |s.threads|
    requires s.threads[t].pc.AcquireRead? || s.threads[t].pc.ReleaseWritten?
    requires !SameWord(s.head, s.threads[t].pc.seen)
    ensures s.head.count > s.threads[t].pc.seen.count
  {
    assert CopyFresh(s.next, s.head, s.threads[t].pc);
  }

  predicate HasCopy(pc: Pc) {
    pc.AcquireLoaded? || pc.AcquireRead? || pc.ReleaseLoaded? || pc.ReleaseWritten?
  }

  // Whether the head copy of thread `t` is out of date.
  predicate Stale(s: State, t: nat) {
    t < |s.threads| && HasCopy(s.threads[t].pc) && s.threads[t].pc.seen != s.head
  }

  // The move is a retry of thread `t` whose exchange could not have succeeded.
  predicate Fails(s: State, m: Move, t: nat) {
    && Enabled(s, m.thread, m.action) && m.thread == t && (m.action.RetryAcquire? || m.action.RetryRelease?)
    && !SameWord(s.head, s.threads[t].pc.seen)
  }

  // How often exchanges of thread `t` fail, not counting spurious failures.
  function Failures(s: State, moves: seq<Move>, t: nat): nat
    requires CanRun(s, moves)
    decreases |moves|
  {
    if moves == [] then 0
    else (if Fails(s, moves[0], t) then 1 else 0) +
         Failures(Step(s, moves[0].thread, moves[0].action), moves[1..], t)
  }

  lemma StepStale(s: State, m: Move, t: nat)
    requires Enabled(s, m.thread, m.action)
    ensures var s' := Step(s, m.thread, m.action);
      && s.head.count <= s'.head.count
      && (s'.head.count == s.head.count && Stale(s', t) ==> Stale(s, t))
      && (Fails(s, m, t) ==> Stale(s, t) && !Stale(s', t) && s'.head.count == s.head.count)
  {
  }

  /**
   Lock freedom: in every run, each failed exchange of a thread is paid for by a successful exchange of another,
   because a failure reloads the head.  Only the first may be due to a success before the run.
   */
  lemma {:induction false} LockFree(s: State, moves: seq<Move>, t: nat)
    requires CanRun(s, moves)
    ensures s.head.count <= Run(s, moves).head.count
    ensures Failures(s, moves, t) <= Run(s, moves).head.count - s.head.count + (if Stale(s, t) then 1 else 0)
    decreases |moves|
  {
    if moves != [] {
      StepStale(s, moves[0], t);
      LockFree(Step(s, moves[0].thread, moves[0].action), moves[1..], t);
    }
  }

  lemma {:induction false} RunConcat(s: State, first: seq<Move>, rest: seq<Move>)
    requires CanRun(s, first) && CanRun(Run(s, first), rest)
    ensures CanRun(s, first + rest) && Run(s, first + rest) == Run(Run(s, first), rest)
    decreases |first|
  {
    if first == [] {
      assert first + rest == rest;
    } else {
      RunConcat(Step(s, first[0].thread, first[0].action), first[1..], rest);
      assert (first + rest)[1..] == first[1..] + rest;
    }
  }

  lemma RunOne(s: State, t: nat, a: Action)
    requires Enabled(s, t, a)
    ensures CanRun(s, [Move(t, a)]) && Run(s, [Move(t, a)]) == Step(s, t, a)
  {
    assert CanRun(Step(s, t, a), [Move(t, a)][1..]);
  }

  // Extends a run that leads from `s` to `mid` by one more move.
  lemma RunThen(s: State, moves: seq<Move>, mid: State, t: nat, a: Action) returns (more: seq<Move>, end: State)
    requires CanRun(s, moves) && Run(s, moves) == mid && Enabled(mid, t, a)
    ensures more == moves + [Move(t, a)] && CanRun(s, more) && Run(s, more) == end == Step(mid, t, a)
  {
    more, end := moves + [Move(t, a)], Step(mid, t, a);
    RunOne(mid, t, a);
    RunConcat(s, moves, [Move(t, a)]);
  }

  predicate Alone(moves: seq<Move>, t: nat) {
    forall i :: 0 <= i < |moves| ==> moves[i].thread == t
  }

  lemma NoMoves(s: State)
    ensures CanRun(s, []) && Run(s, []) == s
  {
  }

  lemma CanReadNext(s: State, t: nat, free: seq<Slot>)
    requires Inv(s, free) && t < |s.threads| && s.threads[t].pc.AcquireLoaded?
    ensures Enabled(s, t, ReadNext)
  {
    assert CopyFresh(s.next, s.head, s.threads[t].pc);
  }

  // From a current copy an acquire takes the first free slot in two more moves.
  lemma AcquireNow(s0: State, moves: seq<Move>, s: State, t: nat, free: seq<Slot>)
    returns (more: seq<Move>, end: State)
    requires CanRun(s0, moves) && Run(s0, moves) == s && Alone(moves, t)
    requires Inv(s, free) && t < |s.threads| && s.threads[t].pc == AcquireLoaded(s.head)
    ensures CanRun(s0, more) && Run(s0, more) == end && Alone(more, t) && |more| == |moves| + 2
    ensures free != [] && Inv(end, free[1..])
    ensures end.threads == s.threads[t := Thread(Idle, s.threads[t].held + {free[0]})]
  {
    assert CopyFresh(s.next, s.head, s.threads[t].pc);
    StepInv(s, t, ReadNext, free);
    more, end := RunThen(s0, moves, s, t, ReadNext);
    ExchangeForAcquireInv(end, t, free);
    more, end := RunThen(s0, more, end, t, ExchangeForAcquire);
  }

  /**
   A thread left alone inside `acquire` comes out of it within four moves, with the first free slot, or with
   nothing if and only if there is none.
   */
  lemma AcquireAlone(s: State, t: nat, free: seq<Slot>) returns (moves: seq<Move>, end: State)
    requires Inv(s, free) && t < |s.threads| && (s.threads[t].pc.AcquireLoaded? || s.threads[t].pc.AcquireRead?)
    ensures CanRun(s, moves) && Run(s, moves) == end && Alone(moves, t) && |moves| <= 4
    ensures if free == [] then Inv(end, []) && end.threads == s.threads[t := Thread(Idle, s.threads[t].held)]
            else Inv(end, free[1..]) && end.threads == s.threads[t := Thread(Idle, s.threads[t].held + {free[0]})]
  {
    hide Inv, CanRun, Run, SameWord;
    moves, end := [], s;
    NoMoves(s);
    if s.threads[t].pc.AcquireLoaded? {
      CanReadNext(s, t, free);
      StepInv(s, t, ReadNext, free);
      moves, end := RunThen(s, moves, end, t, ReadNext);
    }
    StepInv(end, t, RetryAcquire, free);
    GivesUpIffEmpty(end, t, RetryAcquire, free);
    moves, end := RunThen(s, moves, end, t, RetryAcquire);
    if free != [] {
      moves, end := AcquireNow(s, moves, end, t, free);
      assert end.threads == s.threads[t := Thread(Idle, s.threads[t].held + {free[0]})];
    } else {
      assert end.threads == s.threads[t := Thread(Idle, s.threads[t].held)];
    }
  }

  // From a current copy a release pushes its slot in two more moves.
  lemma ReleaseNow(s0: State, moves: seq<Move>, s: State, t: nat, free: seq<Slot>)
    returns (more: seq<Move>, end: State)
    requires CanRun(s0, moves) && Run(s0, moves) == s && Alone(moves, t) && Inv(s, free) && t < |s.threads|
    requires s.threads[t].pc.ReleaseLoaded? && s.threads[t].pc.seen == s.head
    ensures CanRun(s0, more) && Run(s0, more) == end && Alone(more, t) && |more| == |moves| + 2
    ensures Inv(end, [s.threads[t].pc.slot] + free)
    ensures end.threads == s.threads[t := Thread(Idle, s.threads[t].held)]
  {
    SlotInside(s, t, free);
    StepInv(s, t, WriteNext, free);
    more, end := RunThen(s0, moves, s, t, WriteNext);
    ExchangeForReleaseInv(end, t, free);
    more, end := RunThen(s0, more, end, t, ExchangeForRelease);
  }

  lemma SlotInside(s: State, t: nat, free: seq<Slot>)
    requires Inv(s, free) && t < |s.threads| && Releasing(s.threads[t].pc)
    ensures s.threads[t].pc.slot < |s.next|
  {
    OwnedNotFree(|s.next|, Owned(s), free, t, s.threads[t].pc.slot);
  }

  /** A thread left alone inside `release` comes out of it within four moves, its slot on top of the free ones. */
  lemma ReleaseAlone(s: State, t: nat, free: seq<Slot>) returns (moves: seq<Move>, end: State)
    requires Inv(s, free) && t < |s.threads| && Releasing(s.threads[t].pc)
    ensures CanRun(s, moves) && Run(s, moves) == end && Alone(moves, t) && |moves| <= 4
    ensures Inv(end, [s.threads[t].pc.slot] + free)
    ensures end.threads == s.threads[t := Thread(Idle, s.threads[t].held)]
  {
    hide Inv, CanRun, Run, SameWord;
    moves, end := [], s;
    NoMoves(s);
    SlotInside(s, t, free);
    if s.threads[t].pc.ReleaseCalled? {
      StepInv(s, t, LoadForRelease, free);
      moves, end := RunThen(s, moves, end, t, LoadForRelease);
    } else {
      if s.threads[t].pc.ReleaseLoaded? {
        StepInv(s, t, WriteNext, free);
        moves, end := RunThen(s, moves, end, t, WriteNext);
      }
      StepInv(end, t, RetryRelease, free);
      moves, end := RunThen(s, moves, end, t, RetryRelease);
    }
    moves, end := ReleaseNow(s, moves, end, t, free);
    assert end.threads == s.threads[t := Thread(Idle, s.threads[t].held)];
  }

  // ---------------------------------------------------------------- the exact condition

  lemma {:induction false} ChainUnique(next: seq<nat>, index: nat, a: seq<Slot>, b: seq<Slot>)
    requires |next| <= INVALID
    requires Chain(next, index, a) && Chain(next, index, b) && NoDuplicates(a) && NoDuplicates(b)
    ensures a == b
    decreases |a|
  {
    if a != [] && b != [] {
      PopChain(next, a);
      PopChain(next, b);
      ChainUnique(next, next[a[0]], a[1..], b[1..]);
      assert a == [a[0]] + a[1..] && b == [b[0]] + b[1..];
    }
  }

  lemma {:induction false} ChainDrop(next: seq<nat>, free: seq<Slot>, k: nat)
    requires k < |free| && NoDuplicates(free) && Chain(next, free[0], free)
    ensures Chain(next, free[k], free[k..]) && NoDuplicates(free[k..])
  {
    if k == 0 {
      assert free[0..] == free;
    } else {
      ChainDrop(next, free, k - 1);
      PopChain(next, free[k - 1..]);
      assert free[k - 1..][1..] == free[k..];
      assert next[free[k - 1]] == Link(free, k - 1);
    }
  }

  /**
   Exactly when an acquiring exchange is safe, whatever the tags did: the successor the thread read
   earlier must still be the successor of the slot it takes.  `StepInv` derives this from an unwrapped tag.
   */
  lemma AcquireExchangeExact(s: State, t: nat, free: seq<Slot>)
    requires Inv(s, free) && Enabled(s, t, ExchangeForAcquire)
    ensures (exists free' :: Structure(Step(s, t, ExchangeForAcquire), free')) <==> SuccessorCurrent(s, t)
  {
    assert CopyFresh(s.next, s.head, s.threads[t].pc);
    var s' := Step(s, t, ExchangeForAcquire);
    if SuccessorCurrent(s, t) {
      ExchangeForAcquireInv(s, t, free);
    }
    forall free' | Structure(s', free') ensures SuccessorCurrent(s, t)
    {
      SameFreeSlots(s, t, free, free');
      PopChain(s.next, free);
      if free' != [] {
        assert free'[0] in free;
        var k :| 0 <= k < |free| && free[k] == free'[0];
        ChainDrop(s.next, free, k);
        ChainUnique(s.next, free[k], free[k..], free');
        SuffixHoldsSecond(free, k);
      } else {
        NothingElseFree(free);
      }
    }
  }

  lemma NothingElseFree(free: seq<Slot>)
    requires free != [] && NoDuplicates(free) && forall x :: x in free ==> x == free[0]
    ensures |free| == 1
  {
    var last := free[|free| - 1];
    assert last in free;
  }

  // A suffix that holds the second element, but not the first, starts at it.
  lemma SuffixHoldsSecond(free: seq<Slot>, k: nat)
    requires NoDuplicates(free) && 1 <= k < |free| && free[1] in free[k..]
    ensures k == 1
  {
    var j :| 0 <= j < |free| - k && free[k..][j] == free[1];
    assert free[k + j] == free[1];
  }

  lemma InFreeOrTaken(n: nat, owned: seq<set<Slot>>, free: seq<Slot>)
    requires Partition(n, owned, free)
    ensures forall x: Slot :: x < n ==> (x in free <==> !Taken(owned, x))
  {
  }

  lemma SameFreeSlots(s: State, t: nat, free: seq<Slot>, free': seq<Slot>)
    requires Inv(s, free) && Enabled(s, t, ExchangeForAcquire)
    requires Structure(Step(s, t, ExchangeForAcquire), free')
    ensures free != [] && free[0] == s.threads[t].pc.seen.index
    ensures forall x :: x in free' <==> x in free && x != free[0]
  {
    assert CopyFresh(s.next, s.head, s.threads[t].pc);
    var s' := Step(s, t, ExchangeForAcquire);
    var x0 := s.threads[t].pc.seen.index;
    assert x0 == free[0] && x0 in free;
    assert Owned(s') == Owned(s)[t := Owned(s)[t] + {x0}];
    assert forall u: nat, x: Slot :: Has(Owned(s'), u, x) <==> Has(Owned(s), u, x) || (u == t && x == x0);
    assert Has(Owned(s'), t, x0);
    forall x: Slot ensures Taken(Owned(s'), x) <==> Taken(Owned(s), x) || x == x0
    {
      if u: nat :| Has(Owned(s), u, x) { assert Has(Owned(s'), u, x); }
      if u: nat :| Has(Owned(s'), u, x) { assert x == x0 || Has(Owned(s), u, x); }
    }
    InFreeOrTaken(|s.next|, Owned(s), free);
    InFreeOrTaken(|s.next|, Owned(s'), free');
    assert forall x :: x in free' ==> x < |s.next| by { assert forall i :: 0 <= i < |free'| ==> free'[i] < |s.next|; }
    assert forall x :: x in free ==> x < |s.next| by { assert forall i :: 0 <= i < |free| ==> free[i] < |s.next|; }
  }

  // ---------------------------------------------------------------- what a wrapped tag does

  // Three slots: thread 0 stalls before its exchange, thread 1 owns slots 1 and 2, slot 0 is free again.
  function Stalled(count: nat): State {
    State([INVALID, 2, INVALID], Head(0, count),
          [Thread(AcquireRead(Head(0, 0), 1), {}), Thread(Idle, {1, 2})])
  }

  // An `acquire` that nothing interrupts pops the first free slot.
  lemma WholeAcquire(s0: State, moves: seq<Move>, s: State, t: nat) returns (more: seq<Move>, end: State)
    requires CanRun(s0, moves) && Run(s0, moves) == s
    requires t < |s.threads| && s.threads[t].pc.Idle? && s.head.index < |s.next| <= INVALID
    ensures CanRun(s0, more) && Run(s0, more) == end
    ensures end == s.(head := Head(s.next[s.head.index], s.head.count + 1),
                      threads := s.threads[t := Thread(Idle, s.threads[t].held + {s.head.index})])
  {
    more, end := RunThen(s0, moves, s, t, LoadForAcquire);
    more, end := RunThen(s0, more, end, t, ReadNext);
    more, end := RunThen(s0, more, end, t, ExchangeForAcquire);
  }

  // A `release` that nothing interrupts pushes the slot.
  lemma WholeRelease(s0: State, moves: seq<Move>, s: State, t: nat, slot: Slot) returns (more: seq<Move>, end: State)
    requires CanRun(s0, moves) && Run(s0, moves) == s
    requires t < |s.threads| && s.threads[t].pc.Idle? && slot in s.threads[t].held && slot < |s.next|
    ensures CanRun(s0, more) && Run(s0, more) == end
    ensures end == State(s.next[slot := s.head.index], Head(slot, s.head.count + 1),
                         s.threads[t := Thread(Idle, s.threads[t].held - {slot})])
  {
    more, end := RunThen(s0, moves, s, t, CallRelease(slot));
    more, end := RunThen(s0, more, end, t, LoadForRelease);
    more, end := RunThen(s0, more, end, t, WriteNext);
    more, end := RunThen(s0, more, end, t, ExchangeForRelease);
  }

  // Thread 1 can take slot 0 and give it back, which advances the tag by two and changes nothing else.
  lemma OneRound(s0: State, moves: seq<Move>, count: nat) returns (more: seq<Move>)
    requires CanRun(s0, moves) && Run(s0, moves) == Stalled(count)
    ensures CanRun(s0, more) && Run(s0, more) == Stalled(count + 2)
  {
    var s;
    more, s := WholeAcquire(s0, moves, Stalled(count), 1);
    more, s := WholeRelease(s0, more, s, 1, 0);
    assert s.threads[1].held == {1, 2};
    assert s == Stalled(count + 2);
  }

  lemma {:induction false} ManyRounds(s0: State, moves: seq<Move>, count: nat, rounds: nat) returns (more: seq<Move>)
    requires CanRun(s0, moves) && Run(s0, moves) == Stalled(count)
    ensures CanRun(s0, more) && Run(s0, more) == Stalled(count + 2 * rounds)
    decreases rounds
  {
    more := moves;
    if rounds > 0 {
      more := OneRound(s0, moves, count);
      more := ManyRounds(s0, more, count + 2, rounds - 1);
    }
  }

  lemma ReachStalled(s0: State) returns (moves: seq<Move>)
    requires s0 == State([1, 2, INVALID], Head(0, 0), [Thread(Idle, {}), Thread(Idle, {})])
    ensures CanRun(s0, moves) && Run(s0, moves) == Stalled(4)
  {
    var s;
    moves, s := RunThen(s0, [], s0, 0, LoadForAcquire);
    moves, s := RunThen(s0, moves, s, 0, ReadNext);
    moves, s := WholeAcquire(s0, moves, s, 1);
    moves, s := WholeAcquire(s0, moves, s, 1);
    moves, s := WholeAcquire(s0, moves, s, 1);
    moves, s := WholeRelease(s0, moves, s, 1, 0);
    assert s.threads[1].held == {1, 2};
    assert s.next == [INVALID, 2, INVALID];
    assert s.threads == Stalled(4).threads;
  }

  /**
   The tag condition cannot be dropped: a run in which a stalled `acquire` sleeps through 2^32
   exchanges ends with the head pointing at slot 1, which another thread owns.
   */
  lemma WrappedTagBreaksPool() returns (s0: State, moves: seq<Move>)
    ensures Init(s0) && CanRun(s0, moves)
    ensures var s := Run(s0, moves); s.head.index == 1 && |s.threads| == 2 && 1 in s.threads[1].held
    ensures forall free :: !Structure(Run(s0, moves), free)
  {
    s0 := State([1, 2, INVALID], Head(0, 0), [Thread(Idle, {}), Thread(Idle, {})]);
    moves := ReachStalled(s0);
    moves := ManyRounds(s0, moves, 4, 0x7FFF_FFFE);
    var s;
    moves, s := RunThen(s0, moves, Stalled(U32), 0, ExchangeForAcquire);
    assert s.threads[1] == Stalled(U32).threads[1];
    forall free ensures !Structure(s, free)
    {
      if Structure(s, free) { HeadIsNotOwned(s, free, 1); }
    }
  }

  lemma HeadIsNotOwned(s: State, free: seq<Slot>, t: nat)
    requires Structure(s, free) && t < |s.threads| && s.head.index < |s.next|
    ensures s.head.index !in Mine(s.threads[t])
  {
    assert free[0] in free;
    assert Has(Owned(s), t, s.head.index) <==> s.head.index in Mine(s.threads[t]);
  }
}
