/**
 The prediction cache: a list of entries in order of recency and a hash map from key to list node.
 A prediction is found exactly when fewer than `maxSize` other keys have been used since its key was.
 */
module PredictionCache {
  import opened Basics
  import opened Market
  import opened Ring

  datatype Key = Key(symbol: Symbol, bucket: nat)

  // ---------------------------------------------------------------- the trace and what it promises

  datatype Op = Put(key: Key, value: real) | Get(key: Key)

  // The distinct other keys used after the last use of k.
  function Since(uses: seq<Key>, k: Key): set<Key> {
    if uses == [] || uses[|uses| - 1] == k then {}
    else Since(uses[..|uses| - 1], k) + {uses[|uses| - 1]}
  }

  predicate Remembered(uses: seq<Key>, k: Key, maxSize: nat) {
    k in uses && |Since(uses, k)| < maxSize
  }

  // The keys used by a trace: every put, and every get that finds its key remembered.
  function Uses(trace: seq<Op>, maxSize: nat): seq<Key> {
    if trace == [] then []
    else
      var before, op := Uses(trace[..|trace| - 1], maxSize), trace[|trace| - 1];
      if op.Put? || Remembered(before, op.key, maxSize) then before + [op.key] else before
  }

  function LastPut(trace: seq<Op>, k: Key): Option<real> {
    if trace == [] then None
    else if trace[|trace| - 1].Put? && trace[|trace| - 1].key == k then Some(trace[|trace| - 1].value)
    else LastPut(trace[..|trace| - 1], k)
  }

  // What a lookup must answer after a trace.
  function Answer(trace: seq<Op>, k: Key, maxSize: nat): Option<real> {
    if Remembered(Uses(trace, maxSize), k, maxSize) then LastPut(trace, k) else None
  }

  // ---------------------------------------------------------------- calls

  // A call as the caller makes it, with a point in time.
  datatype Call = PutCall(symbol: Symbol, timestamp: nat, value: real) | GetCall(symbol: Symbol, timestamp: nat)

  predicate InBucket(k: nat, timestamp: nat, width: nat) {
    k * width <= timestamp < (k + 1) * width
  }

  // The same symbol at two times of one bucket.
  ghost predicate SameEntry(a: Symbol, t: nat, b: Symbol, u: nat, width: nat) {
    a == b && exists k: nat :: InBucket(k, t, width) && InBucket(k, u, width)
  }

  function KeyOf(symbol: Symbol, timestamp: nat, width: nat): Key
    requires width >= 1
  {
    Key(symbol, timestamp / width)
  }

  lemma BucketIs(k: nat, t: nat, width: nat)
    requires width >= 1
    ensures InBucket(k, t, width) <==> t / width == k
  {
    var q, r := t / width, t % width;
    assert t == width * q + r;
    if InBucket(k, t, width) {
      assert t == width * k + (t - width * k);
      DivModUnique(t, width, k, t - width * k);
    }
    if q == k { assert k * width <= t < k * width + width; }
  }

  /** Which calls share an entry: those for one symbol within one bucket of time, and no others. */
  lemma SameKeyExactly(a: Symbol, t: nat, b: Symbol, u: nat, width: nat)
    requires width >= 1
    ensures KeyOf(a, t, width) == KeyOf(b, u, width) <==> SameEntry(a, t, b, u, width)
  {
    hide InBucket;
    BucketIs(t / width, t, width);
    BucketIs(t / width, u, width);
    if k: nat :| InBucket(k, t, width) && InBucket(k, u, width) {
      BucketIs(k, t, width);
      BucketIs(k, u, width);
    }
  }

  function OpOf(c: Call, width: nat): Op
    requires width >= 1
  {
    var key := KeyOf(c.symbol, c.timestamp, width);
    if c.PutCall? then Put(key, c.value) else Get(key)
  }

  // The trace of keys that a trace of calls amounts to.
  function Keyed(calls: seq<Call>, width: nat): (r: seq<Op>)
    requires width >= 1
    ensures |r| == |calls| && forall i :: 0 <= i < |calls| ==> r[i] == OpOf(calls[i], width)
  {
    seq(|calls|, i requires 0 <= i < |calls| => OpOf(calls[i], width))
  }

  // The last value put for the symbol within the bucket of the time.
  ghost function LastPutCall(calls: seq<Call>, symbol: Symbol, timestamp: nat, width: nat): Option<real> {
    if calls == [] then None
    else
      var c := calls[|calls| - 1];
      if c.PutCall? && SameEntry(c.symbol, c.timestamp, symbol, timestamp, width) then Some(c.value)
      else LastPutCall(calls[..|calls| - 1], symbol, timestamp, width)
  }

  lemma {:induction false} LastPutOfCalls(calls: seq<Call>, symbol: Symbol, timestamp: nat, width: nat)
    requires width >= 1
    ensures LastPut(Keyed(calls, width), KeyOf(symbol, timestamp, width)) ==
            LastPutCall(calls, symbol, timestamp, width)
  {
    hide SameEntry, KeyOf;
    if calls != [] {
      var n := |calls| - 1;
      LastPutOfCalls(calls[..n], symbol, timestamp, width);
      SameKeyExactly(calls[n].symbol, calls[n].timestamp, symbol, timestamp, width);
      assert Keyed(calls, width)[..n] == Keyed(calls[..n], width);
    }
  }

  // ---------------------------------------------------------------- recency lists

  predicate Distinct<T(==)>(s: seq<T>) {
    forall i, j :: 0 <= i < j < |s| ==> s[i] != s[j]
  }

  function Without<T(==)>(s: seq<T>, x: T): seq<T> {
    if s == [] then [] else if s[0] == x then s[1..] else [s[0]] + Without(s[1..], x)
  }

  function Take<T>(s: seq<T>, n: nat): seq<T> {
    if |s| <= n then s else s[..n]
  }

  // All keys ever used, most recent first.
  function Recency(uses: seq<Key>): seq<Key> {
    if uses == [] then [] else [uses[|uses| - 1]] + Without(Recency(uses[..|uses| - 1]), uses[|uses| - 1])
  }

  // The elements in front of x.
  function InFront<T(==)>(s: seq<T>, x: T): set<T> {
    if s == [] || s[0] == x then {} else {s[0]} + InFront(s[1..], x)
  }

  lemma DistinctCons<T>(x: T, t: seq<T>)
    ensures Distinct([x] + t) <==> Distinct(t) && x !in t
  {
    var s := [x] + t;
    if Distinct(s) {
      forall i, j | 0 <= i < j < |t| ensures t[i] != t[j] { assert s[i + 1] != s[j + 1]; }
      forall i | 0 <= i < |t| ensures t[i] != x { assert s[0] != s[i + 1]; }
    }
  }

  lemma TakeCons<T>(x: T, t: seq<T>, n: nat)
    ensures Take([x] + t, n + 1) == [x] + Take(t, n)
  {
  }

  lemma {:induction false} WithoutElements<T>(s: seq<T>, x: T)
    requires Distinct(s)
    ensures Distinct(Without(s, x))
    ensures forall y :: y in Without(s, x) <==> y in s && y != x
    ensures |Without(s, x)| == if x in s then |s| - 1 else |s|
  {
    if s != [] {
      assert s == [s[0]] + s[1..];
      DistinctCons(s[0], s[1..]);
      WithoutElements(s[1..], x);
      assert forall y :: y in s <==> y == s[0] || y in s[1..];
      if s[0] != x { DistinctCons(s[0], Without(s[1..], x)); }
    }
  }

  lemma {:induction false} WithoutAbsent<T>(s: seq<T>, x: T)
    requires x !in s
    ensures Without(s, x) == s
  {
    if s != [] { WithoutAbsent(s[1..], x); }
  }

  lemma {:induction false} InFrontWithout<T>(s: seq<T>, x: T, y: T)
    requires Distinct(s) && y in s && y != x
    ensures InFront(Without(s, x), y) == InFront(s, y) - {x}
  {
    if s[0] == x {
      InFrontExcludes(s[1..], x, y);
    } else if s[0] != y {
      assert y in s[1..];
      InFrontWithout(s[1..], x, y);
      assert ([s[0]] + Without(s[1..], x))[1..] == Without(s[1..], x);
    }
  }

  lemma {:induction false} InFrontExcludes<T>(s: seq<T>, x: T, y: T)
    requires x !in s
    ensures x !in InFront(s, y)
  {
    if s != [] && s[0] != y { InFrontExcludes(s[1..], x, y); }
  }

  // In a list without repetition, being among the first n means having fewer than n in front.
  lemma {:induction false} TakeIffFewInFront<T>(s: seq<T>, n: nat, x: T)
    requires Distinct(s)
    ensures x in Take(s, n) <==> x in s && |InFront(s, x)| < n
  {
    if s != [] {
      if s[0] == x {
        assert n > 0 ==> Take(s, n)[0] == x;
      } else {
        InFrontExcludes(s[1..], s[0], x);
        if n > 0 {
          TakeIffFewInFront(s[1..], n - 1, x);
          assert Take(s, n) == [s[0]] + Take(s[1..], n - 1);
        }
      }
    }
  }

  lemma {:induction false} RecencyProperties(uses: seq<Key>)
    ensures Distinct(Recency(uses)) && forall k :: k in Recency(uses) <==> k in uses
  {
    if uses != [] {
      var front, x := uses[..|uses| - 1], uses[|uses| - 1];
      RecencyProperties(front);
      WithoutElements(Recency(front), x);
      assert uses == front + [x];
    }
  }

  // The keys in front of k are exactly those used since.
  lemma {:induction false} InFrontIsSince(uses: seq<Key>, k: Key)
    requires k in uses
    ensures InFront(Recency(uses), k) == Since(uses, k)
  {
    var front, x := uses[..|uses| - 1], uses[|uses| - 1];
    assert uses == front + [x];
    if x != k {
      InFrontIsSince(front, k);
      RecencyProperties(front);
      InFrontWithout(Recency(front), x, k);
      assert Recency(uses)[1..] == Without(Recency(front), x);
    }
  }

  // A bounded recency list holds exactly the remembered keys.
  lemma TakeIsRemembered(uses: seq<Key>, k: Key, maxSize: nat)
    ensures k in Take(Recency(uses), maxSize) <==> Remembered(uses, k, maxSize)
  {
    RecencyProperties(uses);
    TakeIffFewInFront(Recency(uses), maxSize, k);
    if k in uses { InFrontIsSince(uses, k); }
  }

  // ---------------------------------------------------------------- one use of a bounded list

  lemma HeadTail<T>(s: seq<T>, n: nat, x: T) returns (h: T, t: seq<T>)
    requires Distinct(s) && n >= 1 && x in Take(s, n)
    ensures s == [h] + t && Distinct(t) && s != [] && s[0] == h && s[1..] == t
    ensures h != x ==> n >= 2 && x in Take(t, n - 1)
  {
    h, t := s[0], s[1..];
    assert s == [h] + t;
    DistinctCons(h, t);
    TakeCons(h, t, n - 1);
  }

  // Moving a present key to the front of the bounded list.
  lemma {:induction false} TakeWithout<T>(s: seq<T>, n: nat, x: T)
    requires Distinct(s) && n >= 1 && x in Take(s, n)
    ensures Take(Without(s, x), n - 1) == Without(Take(s, n), x)
    decreases n
  {
    hide Take, Distinct;
    var h, t := HeadTail(s, n, x);
    TakeCons(h, t, n - 1);
    if h != x {
      TakeWithout(t, n - 1, x);
      TakeCons(h, Without(t, x), n - 2);
    }
  }

  // A key beyond the bound does not disturb the first n.
  lemma {:induction false} TakeWithoutFar<T>(s: seq<T>, n: nat, x: T)
    requires Distinct(s) && x !in Take(s, n + 1)
    ensures Take(Without(s, x), n) == Take(s, n)
    decreases n
  {
    if s != [] {
      assert s[0] == Take(s, n + 1)[0];
      if n > 0 {
        assert Take(s, n + 1) == [s[0]] + Take(s[1..], n);
        TakeWithoutFar(s[1..], n - 1, x);
        assert Take([s[0]] + Without(s[1..], x), n) == [s[0]] + Take(Without(s[1..], x), n - 1);
      }
    }
  }

  // The bounded list after a use of k: moved or inserted at the front, the last dropped if it would overflow.
  function Used(keys: seq<Key>, k: Key, maxSize: nat): seq<Key> {
    if k in keys then [k] + Without(keys, k)
    else if |keys| >= maxSize then [k] + (if keys == [] then [] else keys[..|keys| - 1])
    else [k] + keys
  }

  lemma UsedIsTake(uses: seq<Key>, k: Key, maxSize: nat)
    requires maxSize >= 1
    ensures Used(Take(Recency(uses), maxSize), k, maxSize) == Take(Recency(uses + [k]), maxSize)
  {
    var r := Recency(uses);
    var keys := Take(r, maxSize);
    RecencyProperties(uses);
    assert (uses + [k])[..|uses|] == uses;
    assert Take([k] + Without(r, k), maxSize) == [k] + Take(Without(r, k), maxSize - 1);
    if k in keys {
      TakeWithout(r, maxSize, k);
    } else {
      TakeWithoutFar(r, maxSize - 1, k);
      if |keys| >= maxSize {
        assert keys[..|keys| - 1] == Take(r, maxSize - 1);
      } else {
        WithoutAbsent(r, k);
      }
    }
  }

  // ---------------------------------------------------------------- list nodes

  datatype Entry = Entry(key: Key, value: real)

  type Nodes = map<nat, Entry>

  // The list holds existing nodes, each once, and the index leads from each key to its node and nowhere else.
  ghost predicate Linked(list: seq<nat>, nodes: Nodes, index: map<Key, nat>) {
    && Distinct(list) && (forall n :: n in list <==> n in nodes)
    && (forall n :: n in nodes ==> nodes[n].key in index && index[nodes[n].key] == n)
    && (forall k :: k in index ==> index[k] in nodes && nodes[index[k]].key == k)
  }

  function KeysOf(list: seq<nat>, nodes: Nodes): (r: seq<Key>)
    requires forall n :: n in list ==> n in nodes
    ensures |r| == |list| && forall i :: 0 <= i < |list| ==> r[i] == nodes[list[i]].key
  {
    seq(|list|, i requires 0 <= i < |list| => assert list[i] in list; nodes[list[i]].key)
  }

  lemma KeyInList(list: seq<nat>, nodes: Nodes, index: map<Key, nat>, k: Key)
    requires Linked(list, nodes, index)
    ensures k in KeysOf(list, nodes) <==> k in index
  {
    if k in index {
      assert index[k] in list;
      var i :| 0 <= i < |list| && list[i] == index[k];
      assert KeysOf(list, nodes)[i] == k;
    }
  }

  lemma KeysCons(h: nat, t: seq<nat>, nodes: Nodes)
    requires h in nodes && forall m :: m in t ==> m in nodes
    ensures forall m :: m in [h] + t ==> m in nodes
    ensures KeysOf([h] + t, nodes) == [nodes[h].key] + KeysOf(t, nodes)
  {
  }

  lemma {:induction false} KeysWithout(list: seq<nat>, nodes: Nodes, n: nat)
    requires (forall m :: m in list ==> m in nodes) && Distinct(list) && n in list
    requires forall a, b :: a in list && b in list && nodes[a].key == nodes[b].key ==> a == b
    ensures forall m :: m in Without(list, n) ==> m in nodes
    ensures KeysOf(Without(list, n), nodes) == Without(KeysOf(list, nodes), nodes[n].key)
  {
    hide Distinct, KeysOf;
    var h, t := list[0], list[1..];
    assert list == [h] + t;
    assert h in list && forall m :: m in t ==> m in list;
    DistinctCons(h, t);
    KeysCons(h, t, nodes);
    var keys := KeysOf(list, nodes);
    assert keys[0] == nodes[h].key && keys[1..] == KeysOf(t, nodes);
    if h != n {
      assert n in t;
      KeysWithout(t, nodes, n);
      KeysCons(h, Without(t, n), nodes);
    }
  }

  // Splicing a node to the front.
  lemma MoveToFront(list: seq<nat>, nodes: Nodes, index: map<Key, nat>, k: Key, maxSize: nat)
    requires Linked(list, nodes, index) && k in index
    ensures var list' := [index[k]] + Without(list, index[k]);
      && Linked(list', nodes, index) && |list'| == |list| && (forall n :: n in list' ==> n in nodes)
      && KeysOf(list', nodes) == Used(KeysOf(list, nodes), k, maxSize)
  {
    hide Distinct;
    SpliceLinked(list, nodes, index, index[k]);
    SpliceKeys(list, nodes, index, index[k]);
    hide Linked;
    KeyInList(list, nodes, index, k);
  }

  lemma SpliceLinked(list: seq<nat>, nodes: Nodes, index: map<Key, nat>, n: nat)
    requires Linked(list, nodes, index) && n in nodes
    ensures var list' := [n] + Without(list, n);
      Linked(list', nodes, index) && |list'| == |list|
  {
    hide Distinct, Without;
    WithoutElements(list, n);
    DistinctCons(n, Without(list, n));
    var list' := [n] + Without(list, n);
    assert forall m :: m in list' <==> m == n || m in Without(list, n);
  }

  lemma SpliceKeys(list: seq<nat>, nodes: Nodes, index: map<Key, nat>, n: nat)
    requires Linked(list, nodes, index) && n in nodes
    ensures var list' := [n] + Without(list, n);
      && (forall m :: m in list' ==> m in nodes)
      && KeysOf(list', nodes) == [nodes[n].key] + Without(KeysOf(list, nodes), nodes[n].key)
  {
    hide Distinct, Without;
    KeysWithout(list, nodes, n);
  }

  // Changing the value in a node.
  lemma SetValue(list: seq<nat>, nodes: Nodes, index: map<Key, nat>, k: Key, v: real)
    requires Linked(list, nodes, index) && k in index
    ensures Linked(list, nodes[index[k] := Entry(k, v)], index)
    ensures KeysOf(list, nodes[index[k] := Entry(k, v)]) == KeysOf(list, nodes)
  {
  }

  // Dropping the last node.
  lemma DropLast(list: seq<nat>, nodes: Nodes, index: map<Key, nat>)
    requires Linked(list, nodes, index) && list != []
    ensures var last := list[|list| - 1];
      && last in nodes && Linked(list[..|list| - 1], nodes - {last}, index - {nodes[last].key})
      && KeysOf(list[..|list| - 1], nodes - {last}) == KeysOf(list, nodes)[..|list| - 1]
  {
    hide Distinct;
    var last, front := list[|list| - 1], list[..|list| - 1];
    DistinctFront(list);
    assert last in list;
  }

  lemma DistinctFront<T>(s: seq<T>)
    requires Distinct(s) && s != []
    ensures Distinct(s[..|s| - 1]) && s[|s| - 1] !in s[..|s| - 1]
    ensures forall x :: x in s <==> x == s[|s| - 1] || x in s[..|s| - 1]
  {
    assert s == s[..|s| - 1] + [s[|s| - 1]];
  }

  // Inserting a fresh node at the front.
  lemma PushFront(list: seq<nat>, nodes: Nodes, index: map<Key, nat>, n: nat, k: Key, v: real)
    requires Linked(list, nodes, index) && n !in nodes && k !in index
    ensures Linked([n] + list, nodes[n := Entry(k, v)], index[k := n])
    ensures KeysOf([n] + list, nodes[n := Entry(k, v)]) == [k] + KeysOf(list, nodes)
  {
    hide Distinct;
    DistinctCons(n, list);
    var more := [n] + list;
    assert forall m :: m in more <==> m == n || m in list;
    assert KeysOf(more, nodes[n := Entry(k, v)]) == [k] + KeysOf(list, nodes);
  }

  // ---------------------------------------------------------------- the cache object

  // The list and the map are in step, within the bound, and unused node numbers are fresh.
  ghost predicate Sized(list: seq<nat>, nodes: Nodes, index: map<Key, nat>, nextNode: nat, maxSize: nat)
    ensures Sized(list, nodes, index, nextNode, maxSize) ==> forall n :: n in list ==> n in nodes
  {
    Linked(list, nodes, index) && |list| <= maxSize && forall n :: n in nodes ==> n < nextNode
  }

  // Every node is unchanged or holds the new entry, and no other node has its key.
  ghost predicate OneEntryPut(nodes: Nodes, nodes': Nodes, key: Key, value: real) {
    forall n :: n in nodes' ==>
      nodes'[n] == Entry(key, value) || (n in nodes && nodes'[n] == nodes[n] && nodes'[n].key != key)
  }

  // The cache holds the remembered keys in order of recency, each with the last value put for it.
  ghost predicate Follows(trace: seq<Op>, maxSize: nat, list: seq<nat>, nodes: Nodes) {
    && (forall n :: n in list ==> n in nodes)
    && KeysOf(list, nodes) == Take(Recency(Uses(trace, maxSize)), maxSize)
    && (forall n :: n in nodes ==> LastPut(trace, nodes[n].key) == Some(nodes[n].value))
  }

  lemma Extend(trace: seq<Op>, op: Op, maxSize: nat, k: Key)
    ensures Uses(trace + [op], maxSize) ==
            if op.Put? || Remembered(Uses(trace, maxSize), op.key, maxSize) then Uses(trace, maxSize) + [op.key]
            else Uses(trace, maxSize)
    ensures LastPut(trace + [op], k) == if op.Put? && op.key == k then Some(op.value) else LastPut(trace, k)
  {
    assert (trace + [op])[..|trace|] == trace;
  }

  class Cache {
    const maxSize: nat
    const bucketWidth: nat
    var list: seq<nat>
    var nodes: Nodes
    var index: map<Key, nat>
    var nextNode: nat
    var hits: nat
    var misses: nat
    ghost var calls: seq<Call>

    ghost predicate Valid()
      reads this
    {
      && maxSize >= 1 && bucketWidth >= 1 && Sized(list, nodes, index, nextNode, maxSize)
      && Follows(Keyed(calls, bucketWidth), maxSize, list, nodes)
    }

    constructor (maxSize: nat, bucketWidth: nat)
      requires maxSize >= 1 && bucketWidth >= 1
      ensures Valid() && calls == [] && this.maxSize == maxSize && this.bucketWidth == bucketWidth
    {
      this.maxSize, this.bucketWidth := maxSize, bucketWidth;
      list, nodes, index, nextNode, hits, misses, calls := [], map[], map[], 0, 0, 0, [];
    }

    function MakeKey(symbol: Symbol, timestamp: nat): Key
      requires bucketWidth >= 1
    {
      KeyOf(symbol, timestamp, bucketWidth)
    }

    // Drops the least recent entry if the cache is full.
    method MakeRoom()
      requires maxSize >= 1 && Sized(list, nodes, index, nextNode, maxSize)
      modifies this`list, this`nodes, this`index
      ensures Sized(list, nodes, index, nextNode, maxSize) && |list| < maxSize
      ensures var keys := KeysOf(old(list), old(nodes));
        KeysOf(list, nodes) == if |keys| >= maxSize then keys[..|keys| - 1] else keys
      ensures forall n :: n in nodes ==> n in old(nodes) && nodes[n] == old(nodes)[n]
      ensures forall k :: k in index ==> k in old(index)
    {
      hide Distinct, Linked;
      ListSize(list, nodes, index);
      if |index| >= maxSize {
        DropLast(list, nodes, index);
        var back := list[|list| - 1];
        index := index - {nodes[back].key};
        nodes := nodes - {back};
        list := list[..|list| - 1];
      }
    }

    // Inserts a new key at the front.
    method Insert(key: Key, value: real)
      requires maxSize >= 1 && Sized(list, nodes, index, nextNode, maxSize) && key !in index
      modifies this`list, this`nodes, this`index, this`nextNode
      ensures Sized(list, nodes, index, nextNode, maxSize)
      ensures KeysOf(list, nodes) == Used(KeysOf(old(list), old(nodes)), key, maxSize)
      ensures OneEntryPut(old(nodes), nodes, key, value)
    {
      hide Distinct, Linked;
      KeyInList(list, nodes, index, key);
      OldKeysDiffer(list, nodes, index, key);
      MakeRoom();
      PushFront(list, nodes, index, nextNode, key, value);
      list := [nextNode] + list;
      nodes := nodes[nextNode := Entry(key, value)];
      index := index[key := nextNode];
      nextNode := nextNode + 1;
    }

    // Stores a new value for a present key and moves it to the front.
    method Refresh(key: Key, value: real)
      requires Sized(list, nodes, index, nextNode, maxSize) && key in index
      modifies this`list, this`nodes
      ensures Sized(list, nodes, index, nextNode, maxSize)
      ensures KeysOf(list, nodes) == Used(KeysOf(old(list), old(nodes)), key, maxSize)
      ensures OneEntryPut(old(nodes), nodes, key, value)
    {
      SetValue(list, nodes, index, key, value);
      nodes := nodes[index[key] := Entry(key, value)];
      MoveToFront(list, nodes, index, key, maxSize);
      list := [index[key]] + Without(list, index[key]);
    }

    method PutPrediction(symbol: Symbol, timestamp: nat, prediction: real)
      requires Valid()
      modifies this
      ensures Valid() && calls == old(calls) + [PutCall(symbol, timestamp, prediction)]
      ensures hits == old(hits) && misses == old(misses)
    {
      hide Sized, Linked, Used, Follows, OneEntryPut, KeyOf;
      var key := MakeKey(symbol, timestamp);
      ghost var oldNodes := nodes;
      if key in index {
        Refresh(key, prediction);
      } else {
        Insert(key, prediction);
      }
      FollowsPut(Keyed(calls, bucketWidth), key, prediction, maxSize, old(list), oldNodes, list, nodes);
      calls := calls + [PutCall(symbol, timestamp, prediction)];
      assert Keyed(calls, bucketWidth) == Keyed(old(calls), bucketWidth) + [Put(key, prediction)];
    }

    /**
     Finds a value exactly when the calls so far say so, and that value is the last one put for the symbol within
     the bucket of time.
     */
    method GetPrediction(symbol: Symbol, timestamp: nat) returns (r: Option<real>)
      requires Valid()
      modifies this
      ensures Valid() && calls == old(calls) + [GetCall(symbol, timestamp)]
      ensures var trace, key := Keyed(old(calls), bucketWidth), KeyOf(symbol, timestamp, bucketWidth);
        r == if Remembered(Uses(trace, maxSize), key, maxSize)
             then LastPutCall(old(calls), symbol, timestamp, bucketWidth) else None
      ensures hits + misses == old(hits) + old(misses) + 1 && (r.Some? <==> hits == old(hits) + 1)
    {
      hide Distinct, Linked, Follows, KeyOf, LastPutCall, LastPut, Remembered, Uses;
      ghost var trace := Keyed(calls, bucketWidth);
      var key := MakeKey(symbol, timestamp);
      LastPutOfCalls(calls, symbol, timestamp, bucketWidth);
      KeyInList(list, nodes, index, key);
      FollowsGet(trace, key, maxSize, list, nodes, index);
      calls := calls + [GetCall(symbol, timestamp)];
      assert Keyed(calls, bucketWidth) == trace + [Get(key)];
      if key !in index {
        misses := misses + 1;
        return None;
      }
      hits := hits + 1;
      MoveToFront(list, nodes, index, key, maxSize);
      list := [index[key]] + Without(list, index[key]);
      FollowsHit(trace, key, maxSize, old(list), list, nodes);
      return Some(nodes[index[key]].value);
    }
  }

  lemma OldKeysDiffer(list: seq<nat>, nodes: Nodes, index: map<Key, nat>, key: Key)
    requires Linked(list, nodes, index) && key !in index
    ensures forall n :: n in nodes ==> nodes[n].key != key
  {
  }

  lemma EmptyIndex(nodes: Nodes, index: map<Key, nat>)
    requires Linked([], nodes, index)
    ensures index == map[]
  {
  }

  // A lookup finds the key exactly when it is remembered; a miss changes nothing.
  lemma FollowsGet(trace: seq<Op>, key: Key, maxSize: nat, list: seq<nat>, nodes: Nodes, index: map<Key, nat>)
    requires maxSize >= 1 && Linked(list, nodes, index) && Follows(trace, maxSize, list, nodes)
    ensures key in index ==> index[key] in nodes && Answer(trace, key, maxSize) == Some(nodes[index[key]].value)
    ensures key !in index ==> Answer(trace, key, maxSize) == None && Follows(trace + [Get(key)], maxSize, list, nodes)
    ensures key in KeysOf(list, nodes) <==> key in index
  {
    hide Distinct, Recency, Take;
    var op := Get(key);
    KeyInList(list, nodes, index, key);
    TakeIsRemembered(Uses(trace, maxSize), key, maxSize);
    Extend(trace, op, maxSize, key);
    forall n | n in nodes ensures LastPut(trace + [op], nodes[n].key) == LastPut(trace, nodes[n].key)
    {
      Extend(trace, op, maxSize, nodes[n].key);
    }
  }

  lemma FollowsHit(trace: seq<Op>, key: Key, maxSize: nat, list: seq<nat>, list': seq<nat>, nodes: Nodes)
    requires maxSize >= 1 && Follows(trace, maxSize, list, nodes) && key in KeysOf(list, nodes)
    requires (forall n :: n in list' ==> n in nodes) && KeysOf(list', nodes) == Used(KeysOf(list, nodes), key, maxSize)
    ensures Follows(trace + [Get(key)], maxSize, list', nodes)
  {
    hide Recency, Take, Used;
    var op := Get(key);
    TakeIsRemembered(Uses(trace, maxSize), key, maxSize);
    Extend(trace, op, maxSize, key);
    UsedIsTake(Uses(trace, maxSize), key, maxSize);
    forall n | n in nodes ensures LastPut(trace + [op], nodes[n].key) == LastPut(trace, nodes[n].key)
    {
      Extend(trace, op, maxSize, nodes[n].key);
    }
  }

  lemma FollowsPut(trace: seq<Op>, key: Key, value: real, maxSize: nat, list: seq<nat>, nodes: Nodes,
                   list': seq<nat>, nodes': Nodes)
    requires maxSize >= 1 && Follows(trace, maxSize, list, nodes)
    requires forall n :: n in list' ==> n in nodes'
    requires KeysOf(list', nodes') == Used(KeysOf(list, nodes), key, maxSize)
    requires OneEntryPut(nodes, nodes', key, value)
    ensures Follows(trace + [Put(key, value)], maxSize, list', nodes')
  {
    hide Recency, Take, Used;
    var op := Put(key, value);
    Extend(trace, op, maxSize, key);
    UsedIsTake(Uses(trace, maxSize), key, maxSize);
    forall n | n in nodes' ensures LastPut(trace + [op], nodes'[n].key) == Some(nodes'[n].value)
    {
      Extend(trace, op, maxSize, nodes'[n].key);
    }
  }

  // List and map have the same size.
  lemma {:induction false} ListSize(list: seq<nat>, nodes: Nodes, index: map<Key, nat>)
    requires Linked(list, nodes, index)
    ensures |index| == |list|
    decreases |list|
  {
    if list == [] {
      EmptyIndex(nodes, index);
    } else {
      var last := list[|list| - 1];
      DropLast(list, nodes, index);
      ListSize(list[..|list| - 1], nodes - {last}, index - {nodes[last].key});
      assert index.Keys == (index - {nodes[last].key}).Keys + {nodes[last].key};
    }
  }
}
