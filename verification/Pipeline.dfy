/**
 The whole feed: the simulator's messages are batched into datagrams, the parser stage takes the datagrams
 apart, and the book stage rebuilds the books.  Datagrams and queue entries are neither lost nor reordered.
 */
module Pipeline {
  import opened Basics
  import opened Market
  import opened Wire
  import opened Batcher
  import opened BookManager
  import opened OrderGenerator

  function Messages(ms: seq<Stamped>): (r: seq<Message>)
    ensures |r| == |ms| && forall i :: 0 <= i < |ms| ==> r[i] == ms[i].message
  {
    seq(|ms|, i requires 0 <= i < |ms| => ms[i].message)
  }

  // Whenever a message is processed, the level it touches has room for it.
  ghost predicate AllRoom(s: State, ms: seq<Message>, exact: bool) {
    forall k :: 0 <= k < |ms| ==> RoomFor(ApplyAll(s, ms[..k]), ms[k], exact)
  }

  // Takes one datagram after the other apart; what fails validation is skipped.
  method ParserStage(datagrams: seq<seq<byte>>) returns (events: seq<Stamped>)
    ensures events == Receive(datagrams)
  {
    hide DecodeAll, ParseDatagram;
    events := [];
    NoViews();
    for i := 0 to |datagrams|
      invariant events == DecodeAll(Delivered(datagrams[..i]))
    {
      assert datagrams[..i + 1][..i] == datagrams[..i];
      var batch := ParseDatagram(datagrams[i]);
      if batch.Some? {
        var decoded := DecodeViews(batch.value.messages);
        DecodeConcat(Delivered(datagrams[..i]), batch.value.messages);
        events := events + decoded;
      } else {
        assert Delivered(datagrams[..i]) + [] == Delivered(datagrams[..i]);
      }
    }
    assert datagrams[..|datagrams|] == datagrams;
  }

  // Validates and decodes the messages of one datagram.
  method DecodeViews(views: seq<seq<byte>>) returns (events: seq<Stamped>)
    ensures events == DecodeAll(views)
  {
    hide Validate, DecodeMessage;
    events := [];
    for j := 0 to |views|
      invariant events == DecodeAll(views[..j])
    {
      assert views[..j + 1][..j] == views[..j];
      if Validate(views[j]) == None {
        events := events + [DecodeMessage(views[j])];
      }
    }
    assert views[..|views|] == views;
  }

  lemma {:induction false} DecodeConcat(a: seq<seq<byte>>, b: seq<seq<byte>>)
    ensures DecodeAll(a + b) == DecodeAll(a) + DecodeAll(b)
  {
    hide Validate, DecodeMessage;
    if b == [] {
      assert a + b == a;
    } else {
      DecodeConcat(a, b[..|b| - 1]);
      assert (a + b)[..|a + b| - 1] == a + b[..|b| - 1];
    }
  }

  // Processes the messages in order.
  method BookStage(manager: Manager, ms: seq<Message>)
    requires manager.Shaped()
    modifies manager, manager.books.Values
    ensures manager.Shaped()
    ensures old(manager.Sound(false) && AllRoom(manager.Abs(), ms, false)) ==>
      && manager.Sound(false) && manager.Abs() == ApplyAll(old(manager.Abs()), ms)
      && (old(manager.Sound(true) && AllRoom(manager.Abs(), ms, true)) ==> manager.Sound(true))
  {
    hide Apply, RoomFor, MakeUpdate, PublishesBook, UsedUp;
    ghost var s0 := manager.Abs();
    ghost var sound := manager.Sound(false) && AllRoom(manager.Abs(), ms, false);
    ghost var exact := manager.Sound(true) && AllRoom(manager.Abs(), ms, true);
    for k := 0 to |ms|
      invariant manager.Shaped()
      invariant sound ==> manager.Sound(false) && manager.Abs() == ApplyAll(s0, ms[..k])
      invariant sound && exact ==> manager.Sound(true)
      invariant fresh(manager.books.Values - old(manager.books.Values))
    {
      assert ms[..k + 1][..k] == ms[..k];
      var update := manager.Process(ms[k]);
    }
    assert ms[..|ms|] == ms;
  }

  /**
   From the simulator's book to the handler's books and through every byte in between: after a generated stream
   of fewer than 2^32 messages, the handler's books together hold exactly the simulator's live orders if and only
   if the stream has no Trade.
   */
  method Replicate(g: Generator, ms: seq<Stamped>, b: Batching, manager: Manager)
    requires g.Valid() && Messages(ms) == g.stream && |ms| < U32
    requires forall i :: 0 <= i < |ms| ==> StampedFits(ms[i])
    requires b.Valid() && b.sent == [] && b.pending == [] && b.maxSize >= BATCH_HEADER + 43
    requires manager.Abs() == EMPTY
    modifies b, b.buffer, manager, manager.books.Values
    ensures manager.Sound(false) && Routed(manager.Abs()) && g.book.orders == old(g.book.orders)
    ensures Flat(manager.Abs()) == g.book.orders <==> NoTrade(g.stream)
  {
    hide Routed, Flat, ApplyAll, AllRoom, NoTrade, Replayed;
    ReplicaAgrees(g);
    RoomForAll(g.stream);
    manager.EmptySound();
    var events := Transmit(b, ms);
    BookStage(manager, Messages(events));
  }

  lemma RoomForAll(ms: seq<Message>)
    requires |ms| < U32
    ensures AllRoom(EMPTY, ms, false)
  {
    hide ApplyAll, RoomFor;
    forall k | 0 <= k < |ms| ensures RoomFor(ApplyAll(EMPTY, ms[..k]), ms[k], false)
    {
      ShortStreamsHaveRoom(ms, k);
    }
  }

  // Everything sent through datagrams large enough comes out of the parser stage unchanged.
  method Transmit(b: Batching, ms: seq<Stamped>) returns (events: seq<Stamped>)
    requires b.Valid() && b.sent == [] && b.pending == [] && b.maxSize >= BATCH_HEADER + 43
    requires forall i :: 0 <= i < |ms| ==> StampedFits(ms[i])
    modifies b, b.buffer
    ensures b.Valid() && events == ms
  {
    hide Receive, Carries, Datagram;
    SendAll(b, ms);
    events := ParserStage(b.sent);
  }
}
