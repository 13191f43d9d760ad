/** Index arithmetic shared by the ring buffers: positions are unbounded, slots are positions modulo the capacity. */
module Ring {

  lemma AtLeastOnce(n: nat, k: nat)
    requires 1 <= k
    ensures n <= n * k
  {
    var more: nat := n * (k - 1);
  }

  // The only multiple of n strictly between -n and n is zero.
  lemma MultipleInside(n: nat, d: int)
    requires -(n as int) < n * d < n
    ensures d == 0
  {
    if d > 0 { AtLeastOnce(n, d); }
  }

  // Two positions less than one lap apart that share a slot are the same position.
  lemma SameSlot(a: nat, b: nat, capacity: nat)
    requires 0 < capacity && a < b + capacity && b < a + capacity
    requires a % capacity == b % capacity
    ensures a == b
  {
    var d := a / capacity - b / capacity;
    assert a - b == capacity * d;
    MultipleInside(capacity, d);
  }

  // With fewer than `capacity` entries behind it, the slot after `head` is the slot of `tail` exactly when the
  // ring is full.
  lemma FullTest(head: nat, tail: nat, capacity: nat)
    requires 0 < capacity && tail <= head < tail + capacity
    ensures (head + 1) % capacity == tail % capacity <==> head + 1 == tail + capacity
  {
    if head + 1 == tail + capacity {
      assert head + 1 == tail + 1 * capacity;
      ModShift(tail, capacity);
    } else if (head + 1) % capacity == tail % capacity {
      SameSlot(head + 1, tail, capacity);
    }
  }

  lemma ModShift(a: nat, capacity: nat)
    requires 0 < capacity
    ensures (a + capacity) % capacity == a % capacity
  {
    var q, r := a / capacity, a % capacity;
    assert a + capacity == capacity * (q + 1) + r;
    DivModUnique(a + capacity, capacity, q + 1, r);
  }

  lemma DivModUnique(a: nat, n: nat, q: nat, r: nat)
    requires 0 < n && r < n && a == n * q + r
    ensures a / n == q && a % n == r
  {
    var d := a / n - q;
    assert n * d == r - a % n;
    MultipleInside(n, d);
  }

  // Stepping a slot index forward agrees with stepping its position.
  lemma SlotSuccessor(a: nat, capacity: nat)
    requires 0 < capacity
    ensures (a % capacity + 1) % capacity == (a + 1) % capacity
  {
    var q, r := a / capacity, a % capacity;
    if r + 1 < capacity {
      assert a + 1 == capacity * q + (r + 1);
      DivModUnique(a + 1, capacity, q, r + 1);
      assert r + 1 == capacity * 0 + (r + 1);
      DivModUnique(r + 1, capacity, 0, r + 1);
    } else {
      assert r + 1 == capacity;
      OneMoreLap(capacity, q, a);
      DivModUnique(a + 1, capacity, q + 1, 0);
      DivModUnique(r + 1, capacity, 1, 0);
    }
  }

  lemma OneMoreLap(capacity: nat, q: nat, a: nat)
    requires 1 <= capacity && a == capacity * q + (capacity - 1)
    ensures a + 1 == capacity * (q + 1) + 0
  {
  }

  predicate IsLaps(a: nat, b: nat, capacity: nat, k: int) {
    a - b == capacity * k
  }

  // A whole number of laps lies between two positions.
  ghost predicate LapsApart(a: nat, b: nat, capacity: nat) {
    exists k: int :: IsLaps(a, b, capacity, k)
  }

  /** Two positions share a slot exactly when a whole number of laps lies between them. */
  lemma SameSlotExactly(a: nat, b: nat, capacity: nat)
    requires 0 < capacity
    ensures a % capacity == b % capacity <==> LapsApart(a, b, capacity)
  {
    if a % capacity == b % capacity {
      LapsBetween(a, b, capacity);
      assert IsLaps(a, b, capacity, a / capacity - b / capacity);
    }
    if k: int :| IsLaps(a, b, capacity, k) {
      LapsLater(a, b, capacity, k);
    }
  }

  lemma LapsBetween(a: nat, b: nat, capacity: nat)
    requires 0 < capacity && a % capacity == b % capacity
    ensures a - b == capacity * (a / capacity - b / capacity)
  {
    Distribute(capacity, a / capacity, b / capacity);
  }

  lemma Distribute(n: int, x: int, y: int)
    ensures n * (x - y) == n * x - n * y && n * (x + y) == n * x + n * y
  {
  }

  lemma LapsLater(a: nat, b: nat, capacity: nat, k: int)
    requires 0 < capacity && a - b == capacity * k
    ensures a % capacity == b % capacity
  {
    var q, r := b / capacity + k, b % capacity;
    Distribute(capacity, b / capacity, k);
    assert a == capacity * q + r;
    NotNegative(capacity, q, r, a);
    DivModUnique(a, capacity, q, r);
  }

  lemma NotNegative(n: nat, q: int, r: nat, a: nat)
    requires r < n && a == n * q + r
    ensures q >= 0
  {
    if q <= -1 {
      Distribute(n, -1, -1 - q);
      AtLeastZero(n, -1 - q);
    }
  }

  lemma AtLeastZero(n: nat, d: nat)
    ensures n * d >= 0
  {
  }
}
