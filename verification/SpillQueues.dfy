/**
 A bounded channel that spills: entries that do not fit are counted per key, and the keys are kept in the
 order of their first spill. The handle table queues finalizer releases this way, and the buffer store its
 deferred named releases.
 */
module SpillQueues {
  import opened Options
  import opened Sequences

  ghost function Repeat<T>(x: T, n: int): (r: seq<T>)
    decreases n
  {
    if n <= 0 then [] else [x] + Repeat(x, n - 1)
  }

  /** The spilled entries in the order in which they will be taken. */
  ghost function Spilled<T>(order: seq<T>, counts: map<T, int>): seq<T> {
    if order == [] then [] else
    Repeat(order[0], if order[0] in counts then counts[order[0]] else 0) + Spilled(order[1..], counts)
  }

  lemma {:induction false} SpilledFrame<T>(order: seq<T>, a: map<T, int>, b: map<T, int>)
    requires forall x :: x in order ==> x in a && x in b && a[x] == b[x]
    ensures Spilled(order, a) == Spilled(order, b)
  {
    if order != [] {
      assert order[0] in order;
      SpilledFrame(order[1..], a, b);
    }
  }

  lemma {:induction false} SpilledSnoc<T>(order: seq<T>, x: T, counts: map<T, int>)
    requires (forall y :: y in order ==> y in counts) && x in counts
    ensures Spilled(order + [x], counts) == Spilled(order, counts) + Repeat(x, counts[x])
  {
    if order == [] {
      assert [x][1..] == [] && [] + [x] == [x];
    } else {
      assert (order + [x])[1..] == order[1..] + [x];
      SpilledSnoc(order[1..], x, counts);
    }
  }

  /** One more spill of a known key adds one entry of that key. */
  lemma {:induction false} SpilledBump<T>(order: seq<T>, x: T, counts: map<T, int>)
    requires Distinct(order) && x in order && (forall y :: y in order ==> y in counts) && counts[x] >= 0
    ensures |Spilled(order, counts[x := counts[x] + 1])| == |Spilled(order, counts)| + 1
    ensures multiset(Spilled(order, counts[x := counts[x] + 1])) == multiset(Spilled(order, counts)) + multiset{x}
  {
    var counts' := counts[x := counts[x] + 1];
    if order[0] == x {
      SpilledFrame(order[1..], counts, counts');
      assert Spilled(order, counts') == [x] + Spilled(order, counts);
    } else {
      SpilledBump(order[1..], x, counts);
      assert Spilled(order, counts') == Repeat(order[0], counts[order[0]]) + Spilled(order[1..], counts');
    }
  }

  ghost predicate SpillOk<T(!new)>(order: seq<T>, counts: map<T, int>, total: int) {
    && Distinct(order) && (forall x :: x in order <==> x in counts) && |order| == |counts|
    && (forall x :: x in counts ==> counts[x] >= 1)
    && total == |Spilled(order, counts)|
  }

  /** The first spill of a key goes to the end. */
  lemma SpillNew<T(!new)>(order: seq<T>, counts: map<T, int>, total: int, x: T)
    requires SpillOk(order, counts, total) && x !in counts
    ensures SpillOk(order + [x], counts[x := 1], total + 1)
    ensures Spilled(order + [x], counts[x := 1]) == Spilled(order, counts) + [x]
  {
    SpilledFrame(order, counts, counts[x := 1]);
    SpilledSnoc(order, x, counts[x := 1]);
    assert Repeat(x, 1) == [x] + Repeat(x, 0);
  }

  /** A further spill of a key joins the earlier ones. */
  lemma SpillMore<T(!new)>(order: seq<T>, counts: map<T, int>, total: int, x: T)
    requires SpillOk(order, counts, total) && x in counts
    ensures SpillOk(order, counts[x := counts[x] + 1], total + 1)
    ensures multiset(Spilled(order, counts[x := counts[x] + 1])) == multiset(Spilled(order, counts)) + multiset{x}
  {
    hide Spilled, Distinct;
    SpilledBump(order, x, counts);
  }

  lemma FewerKeys<T>(counts: map<T, int>, x: T)
    requires x in counts
    ensures |counts - {x}| == |counts| - 1 && |counts[x := counts[x] - 1]| == |counts|
  {
    assert counts.Keys == (counts - {x}).Keys + {x};
    assert counts[x := counts[x] - 1].Keys == counts.Keys;
    assert |(counts - {x}).Keys| == |counts - {x}| && |counts.Keys| == |counts|;
  }

  lemma DropFirst<T(!new)>(order: seq<T>, counts: map<T, int>)
    requires Distinct(order) && order != [] && (forall x :: x in order <==> x in counts) && |order| == |counts|
    ensures var rest := counts - {order[0]};
            Distinct(order[1..]) && (forall x :: x in order[1..] <==> x in rest) && |order[1..]| == |rest|
  {
    HeadLeaves(order);
    FewerKeys(counts, order[0]);
    hide Distinct;
  }

  lemma SpilledWithoutFirst<T(!new)>(order: seq<T>, counts: map<T, int>)
    requires order != [] && order[0] in counts && counts[order[0]] == 1
    requires forall x :: x in order[1..] ==> x in counts - {order[0]}
    ensures Spilled(order, counts) == [order[0]] + Spilled(order[1..], counts - {order[0]})
  {
    assert Repeat(order[0], 1) == [order[0]] + Repeat(order[0], 0);
    SpilledFrame(order[1..], counts, counts - {order[0]});
  }

  /** Taking the last spilled entry of a key takes the key as well. */
  lemma UnspillLast<T(!new)>(order: seq<T>, counts: map<T, int>, total: int)
    requires SpillOk(order, counts, total) && order != [] && order[0] in counts && counts[order[0]] <= 1
    ensures SpillOk(order[1..], counts - {order[0]}, total - 1)
    ensures Spilled(order, counts) == [order[0]] + Spilled(order[1..], counts - {order[0]})
  {
    hide Spilled, Distinct;
    DropFirst(order, counts);
    SpilledWithoutFirst(order, counts);
  }

  /** Taking a spilled entry of a key that has more. */
  lemma UnspillMore<T(!new)>(order: seq<T>, counts: map<T, int>, total: int)
    requires SpillOk(order, counts, total) && order != [] && order[0] in counts && counts[order[0]] > 1
    ensures var counts' := counts[order[0] := counts[order[0]] - 1];
            SpillOk(order, counts', total - 1) && Spilled(order, counts) == [order[0]] + Spilled(order, counts')
  {
    var x := order[0];
    var counts' := counts[x := counts[x] - 1];
    SpilledFrame(order[1..], counts, counts');
    assert Repeat(x, counts[x]) == [x] + Repeat(x, counts[x] - 1);
    var tail := Spilled(order[1..], counts);
    assert ([x] + Repeat(x, counts[x] - 1)) + tail == [x] + (Repeat(x, counts[x] - 1) + tail);
  }

  // ---------- the queue as a value

  datatype Queue<T> = Queue(channel: seq<T>, counts: map<T, int>, order: seq<T>, total: int)

  /** Everything queued, in the order in which it will be taken. */
  ghost function Contents<T(!new)>(q: Queue<T>): seq<T> {
    q.channel + Spilled(q.order, q.counts)
  }

  ghost predicate QueueOk<T(!new)>(q: Queue<T>, capacity: nat, keyLimit: nat) {
    |q.channel| <= capacity && |q.counts| <= keyLimit && SpillOk(q.order, q.counts, q.total)
  }

  /** An entry is refused only if the channel is full, its key is not spilled, and no more keys may be. */
  predicate Accepts<T(==)>(q: Queue<T>, x: T, capacity: nat, keyLimit: nat) {
    |q.channel| < capacity || x in q.counts || |q.counts| < keyLimit
  }

  function Offered<T(==)>(q: Queue<T>, x: T, capacity: nat): Queue<T> {
    if |q.channel| < capacity then q.(channel := q.channel + [x])
    else if x in q.counts then q.(counts := q.counts[x := q.counts[x] + 1], total := q.total + 1)
    else q.(counts := q.counts[x := 1], order := q.order + [x], total := q.total + 1)
  }

  predicate IsEmpty<T(==)>(q: Queue<T>) {
    q.channel == [] && q.order == []
  }

  function Head<T>(q: Queue<T>): T
    requires |q.channel| > 0 || |q.order| > 0
  {
    if |q.channel| > 0 then q.channel[0] else q.order[0]
  }

  function Taken<T(==)>(q: Queue<T>): Queue<T>
    requires |q.channel| > 0 || (|q.order| > 0 && q.order[0] in q.counts)
  {
    if |q.channel| > 0 then q.(channel := q.channel[1..])
    else if q.counts[q.order[0]] <= 1
    then q.(counts := q.counts - {q.order[0]}, order := q.order[1..], total := q.total - 1)
    else q.(counts := q.counts[q.order[0] := q.counts[q.order[0]] - 1], total := q.total - 1)
  }

  lemma InsertOne<T>(a: seq<T>, x: T, b: seq<T>)
    ensures multiset((a + [x]) + b) == multiset(a + b) + multiset{x}
  {
  }

  /** Moving one entry of a balance from one side of the books to the other. */
  lemma Accepting<T>(accepted: multiset<T>, taken: multiset<T>, queued: multiset<T>, x: T)
    requires accepted == taken + queued
    ensures accepted + multiset{x} == taken + (queued + multiset{x})
  {
  }

  lemma Taking<T>(accepted: multiset<T>, taken: multiset<T>, before: seq<T>, x: T, after: seq<T>)
    requires accepted == taken + multiset(before) && before == [x] + after
    ensures accepted == (taken + multiset{x}) + multiset(after)
  {
    assert multiset(before) == multiset{x} + multiset(after);
  }

  /** An accepted entry is queued once more, whichever of the two structures holds it; nothing else changes. */
  lemma OfferConserves<T(!new)>(q: Queue<T>, x: T, capacity: nat, keyLimit: nat)
    requires QueueOk(q, capacity, keyLimit) && Accepts(q, x, capacity, keyLimit)
    ensures QueueOk(Offered(q, x, capacity), capacity, keyLimit)
    ensures multiset(Contents(Offered(q, x, capacity))) == multiset(Contents(q)) + multiset{x}
  {
    hide Spilled, Distinct;
    if |q.channel| < capacity {
      InsertOne(q.channel, x, Spilled(q.order, q.counts));
    } else if x in q.counts {
      SpillMore(q.order, q.counts, q.total, x);
      Accepting(multiset(Contents(q)), multiset(q.channel), multiset(Spilled(q.order, q.counts)), x);
    } else {
      SpillNew(q.order, q.counts, q.total, x);
      assert Contents(Offered(q, x, capacity)) == Contents(q) + [x];
    }
  }

  lemma EmptyContents<T(!new)>(q: Queue<T>, capacity: nat, keyLimit: nat)
    requires QueueOk(q, capacity, keyLimit)
    ensures IsEmpty(q) <==> Contents(q) == []
    ensures IsEmpty(q) ==> q == Queue([], map[], [], 0)
    ensures !IsEmpty(q) && q.channel == [] ==> q.order[0] in q.counts
  {
    if q.order != [] {
      var x := q.order[0];
      assert x in q.order && q.counts[x] >= 1;
      assert Repeat(x, q.counts[x]) != [];
    }
  }

  lemma TakeFromChannel<T(!new)>(q: Queue<T>)
    requires q.channel != []
    ensures Contents(q) == [Head(q)] + Contents(Taken(q))
  {
    hide Spilled;
    assert q.channel == [q.channel[0]] + q.channel[1..];
  }

  lemma TakeFromSpill<T(!new)>(q: Queue<T>, capacity: nat, keyLimit: nat)
    requires QueueOk(q, capacity, keyLimit) && q.channel == [] && q.order != [] && q.order[0] in q.counts
    ensures QueueOk(Taken(q), capacity, keyLimit)
    ensures Spilled(q.order, q.counts) == [Head(q)] + Spilled(Taken(q).order, Taken(q).counts)
  {
    hide Spilled, SpillOk;
    FewerKeys(q.counts, q.order[0]);
    if q.counts[q.order[0]] <= 1 {
      UnspillLast(q.order, q.counts, q.total);
    } else {
      UnspillMore(q.order, q.counts, q.total);
    }
  }

  /** Taking removes exactly the first entry of the contents. */
  lemma TakeConserves<T(!new)>(q: Queue<T>, capacity: nat, keyLimit: nat)
    requires QueueOk(q, capacity, keyLimit) && !IsEmpty(q)
    ensures |q.channel| > 0 || q.order[0] in q.counts
    ensures QueueOk(Taken(q), capacity, keyLimit)
    ensures Contents(q) == [Head(q)] + Contents(Taken(q))
  {
    EmptyContents(q, capacity, keyLimit);
    if |q.channel| > 0 {
      TakeFromChannel(q);
      hide SpillOk, Contents;
    } else {
      TakeFromSpill(q, capacity, keyLimit);
      assert Taken(q).channel == [];
      hide QueueOk, Spilled;
    }
  }

  lemma {:induction false} RepeatCount<T>(x: T, n: int, y: T)
    ensures multiset(Repeat(x, n))[y] == if x == y && n > 0 then n else 0
    decreases n
  {
    if n > 0 { RepeatCount(x, n - 1, y); }
  }

  /** A key is spilled as often as it is counted. */
  lemma {:induction false} SpilledCount<T>(order: seq<T>, counts: map<T, int>, x: T)
    requires Distinct(order) && forall y :: y in order ==> y in counts && counts[y] >= 1
    ensures multiset(Spilled(order, counts))[x] == if x in order then counts[x] else 0
  {
    if order != [] {
      HeadLeaves(order);
      RepeatCount(order[0], counts[order[0]], x);
      SpilledCount(order[1..], counts, x);
      var a, b := Repeat(order[0], counts[order[0]]), Spilled(order[1..], counts);
      assert multiset(a + b) == multiset(a) + multiset(b);
      hide Distinct;
    }
  }

  /** How often an entry is queued: its occurrences in the channel, and its count. */
  ghost function QueuedTimes<T(!new)>(q: Queue<T>, x: T): int {
    multiset(q.channel)[x] + if x in q.counts then q.counts[x] else 0
  }

  lemma ContentsCount<T(!new)>(q: Queue<T>, capacity: nat, keyLimit: nat, x: T)
    requires QueueOk(q, capacity, keyLimit)
    ensures multiset(Contents(q))[x] == QueuedTimes(q, x)
  {
    SpilledCount(q.order, q.counts, x);
    hide Distinct, Spilled;
  }

  // ---------- order and room

  lemma {:induction false} SpilledJoins<T>(order: seq<T>, x: T, counts: map<T, int>) returns (i: nat)
    requires Distinct(order) && x in order && (forall y :: y in order ==> y in counts) && counts[x] >= 0
    ensures var before, after := Spilled(order, counts), Spilled(order, counts[x := counts[x] + 1]);
            i <= |before| && after == before[..i] + [x] + before[i..]
  {
    var counts' := counts[x := counts[x] + 1];
    if order[0] == x {
      i := 0;
      SpilledFrame(order[1..], counts, counts');
      assert Spilled(order, counts') == [x] + Spilled(order, counts);
    } else {
      var j := SpilledJoins(order[1..], x, counts);
      var head := Repeat(order[0], counts[order[0]]);
      i := |head| + j;
      Insert(head, Spilled(order[1..], counts), x, j);
    }
  }

  lemma Insert<T>(head: seq<T>, tail: seq<T>, x: T, j: nat)
    requires j <= |tail|
    ensures head + (tail[..j] + [x] + tail[j..]) == (head + tail)[..|head| + j] + [x] + (head + tail)[|head| + j..]
  {
  }

  /** The later sequence is the earlier one with `x` put in at `i`. */
  ghost predicate Inserted<T>(before: seq<T>, after: seq<T>, x: T, i: nat) {
    i <= |before| && after == before[..i] + [x] + before[i..]
  }

  lemma IntoChannel<T>(channel: seq<T>, tail: seq<T>, x: T)
    ensures Inserted(channel + tail, (channel + [x]) + tail, x, |channel|)
  {
    assert (channel + tail)[..|channel|] == channel && (channel + tail)[|channel|..] == tail;
  }

  lemma BehindChannel<T>(channel: seq<T>, tail: seq<T>, tail': seq<T>, x: T, j: nat)
    requires Inserted(tail, tail', x, j)
    ensures Inserted(channel + tail, channel + tail', x, |channel| + j)
  {
    Insert(channel, tail, x, j);
  }

  /**
   An accepted entry is put at the end of the channel, or behind everything in the channel: whatever was queued keeps
   its order, and without a spill the queue is first in, first out.
   */
  lemma OfferInserts<T(!new)>(q: Queue<T>, x: T, capacity: nat, keyLimit: nat) returns (i: nat)
    requires QueueOk(q, capacity, keyLimit)
    ensures Inserted(Contents(q), Contents(Offered(q, x, capacity)), x, i) && |q.channel| <= i
    ensures |q.channel| < capacity ==> i == |q.channel|
    ensures q.order == [] ==> i == |Contents(q)|
  {
    var tail := Spilled(q.order, q.counts);
    hide Inserted, Spilled, Distinct;
    if |q.channel| < capacity {
      i := |q.channel|;
      IntoChannel(q.channel, tail, x);
      assert q.order == [] ==> tail == [] by { NothingSpilled(q.counts); }
    } else if x in q.counts {
      var j := KnownKey(q.order, x, q.counts);
      i := |q.channel| + j;
      BehindChannel(q.channel, tail, Spilled(q.order, q.counts[x := q.counts[x] + 1]), x, j);
    } else {
      i := |q.channel| + |tail|;
      SpillNew(q.order, q.counts, q.total, x);
      AtEnd(tail, x);
      BehindChannel(q.channel, tail, tail + [x], x, |tail|);
    }
  }

  lemma NothingSpilled<T>(counts: map<T, int>)
    ensures Spilled([], counts) == []
  {
  }

  lemma KnownKey<T>(order: seq<T>, x: T, counts: map<T, int>) returns (j: nat)
    requires Distinct(order) && x in order && (forall y :: y in order ==> y in counts) && counts[x] >= 0
    ensures Inserted(Spilled(order, counts), Spilled(order, counts[x := counts[x] + 1]), x, j)
  {
    hide Spilled, Distinct;
    j := SpilledJoins(order, x, counts);
  }

  lemma AtEnd<T>(tail: seq<T>, x: T)
    ensures Inserted(tail, tail + [x], x, |tail|)
  {
    assert tail[..|tail|] == tail && tail[|tail|..] == [];
  }

  lemma {:induction false} SpilledSize<T>(order: seq<T>, counts: map<T, int>)
    requires forall y :: y in order ==> y in counts && counts[y] >= 1
    ensures |Spilled(order, counts)| >= |order|
  {
    if order != [] {
      SpilledSize(order[1..], counts);
      RepeatSize(order[0], counts[order[0]]);
    }
  }

  lemma {:induction false} RepeatSize<T>(x: T, n: int)
    requires n >= 0
    ensures |Repeat(x, n)| == n
  {
    if n > 0 { RepeatSize(x, n - 1); }
  }

  /** An entry is refused only by a queue that holds at least as many entries as the two limits allow. */
  lemma RefusedWhenFull<T(!new)>(q: Queue<T>, x: T, capacity: nat, keyLimit: nat)
    requires QueueOk(q, capacity, keyLimit)
    ensures |Contents(q)| < capacity + keyLimit ==> Accepts(q, x, capacity, keyLimit)
    ensures multiset(Contents(q))[x] > multiset(q.channel)[x] ==> Accepts(q, x, capacity, keyLimit)
    ensures !Accepts(q, x, capacity, keyLimit) ==> |q.channel| == capacity && |q.counts| == keyLimit && x !in q.counts
  {
    SpilledSize(q.order, q.counts);
    ContentsCount(q, capacity, keyLimit, x);
    hide Spilled, Distinct;
  }

  // ---------- whole histories

  datatype QueueOp<T> = Offer(x: T) | Take

  /** The queue, what it accepted, and what was taken, in order. */
  datatype History<T> = History(queue: Queue<T>, accepted: seq<T>, taken: seq<T>)

  ghost function After<T(!new)>(ops: seq<QueueOp<T>>, capacity: nat, keyLimit: nat): History<T> {
    if ops == [] then History(Queue([], map[], [], 0), [], []) else
    var h := After(ops[..|ops| - 1], capacity, keyLimit);
    var q := h.queue;
    match ops[|ops| - 1]
    case Offer(x) =>
      if Accepts(q, x, capacity, keyLimit) then History(Offered(q, x, capacity), h.accepted + [x], h.taken) else h
    case Take =>
      if |q.channel| > 0 || (|q.order| > 0 && q.order[0] in q.counts)
      then History(Taken(q), h.accepted, h.taken + [Head(q)]) else h
  }

  /**
   Conservation over every history: entry by entry, what was accepted is what was taken plus what the channel
   and the count of the entry still hold; the spilled keys are distinct, are the keys of the counts, and stay within
   their limit.
   */
  lemma HistoryConserves<T(!new)>(ops: seq<QueueOp<T>>, capacity: nat, keyLimit: nat)
    ensures var h := After(ops, capacity, keyLimit);
            && QueueOk(h.queue, capacity, keyLimit)
            && multiset(h.accepted) == multiset(h.taken) + multiset(Contents(h.queue))
            && forall x :: multiset(h.accepted)[x] == multiset(h.taken)[x] + QueuedTimes(h.queue, x)
  {
    HistoryOk(ops, capacity, keyLimit);
    hide QueueOk, Contents, After, QueuedTimes;
    var h := After(ops, capacity, keyLimit);
    forall x ensures multiset(h.accepted)[x] == multiset(h.taken)[x] + QueuedTimes(h.queue, x) {
      ContentsCount(h.queue, capacity, keyLimit, x);
    }
  }

  lemma {:induction false} HistoryOk<T(!new)>(ops: seq<QueueOp<T>>, capacity: nat, keyLimit: nat)
    ensures var h := After(ops, capacity, keyLimit);
            && QueueOk(h.queue, capacity, keyLimit)
            && multiset(h.accepted) == multiset(h.taken) + multiset(Contents(h.queue))
  {
    if ops != [] {
      var before := After(ops[..|ops| - 1], capacity, keyLimit);
      HistoryOk(ops[..|ops| - 1], capacity, keyLimit);
      HistoryStep(before, ops[|ops| - 1], capacity, keyLimit);
    }
  }

  lemma HistoryStep<T(!new)>(h: History<T>, op: QueueOp<T>, capacity: nat, keyLimit: nat)
    requires QueueOk(h.queue, capacity, keyLimit)
    requires multiset(h.accepted) == multiset(h.taken) + multiset(Contents(h.queue))
    ensures op.Offer? && Accepts(h.queue, op.x, capacity, keyLimit) ==>
              && QueueOk(Offered(h.queue, op.x, capacity), capacity, keyLimit)
              && multiset(h.accepted + [op.x])
                == multiset(h.taken) + multiset(Contents(Offered(h.queue, op.x, capacity)))
    ensures op.Take? && !IsEmpty(h.queue) ==>
              && (|h.queue.channel| > 0 || h.queue.order[0] in h.queue.counts)
              && QueueOk(Taken(h.queue), capacity, keyLimit)
              && multiset(h.accepted) == multiset(h.taken + [Head(h.queue)]) + multiset(Contents(Taken(h.queue)))
  {
    if op.Offer? && Accepts(h.queue, op.x, capacity, keyLimit) {
      OfferConserves(h.queue, op.x, capacity, keyLimit);
      Accepting(multiset(h.accepted), multiset(h.taken), multiset(Contents(h.queue)), op.x);
    }
    if op.Take? && !IsEmpty(h.queue) {
      TakeConserves(h.queue, capacity, keyLimit);
      Taking(multiset(h.accepted), multiset(h.taken), Contents(h.queue), Head(h.queue), Contents(Taken(h.queue)));
    }
  }

  // ---------- the queue in place

  class SpillQueue<T(==, !new)> {
    const capacity: nat
    const keyLimit: nat
    var channel: seq<T>
    var counts: map<T, int>
    var order: seq<T>
    var total: int

    constructor (capacity: nat, keyLimit: nat)
      ensures Valid() && View() == Queue([], map[], [], 0)
      ensures this.capacity == capacity && this.keyLimit == keyLimit
    {
      this.capacity, this.keyLimit := capacity, keyLimit;
      channel, counts, order, total := [], map[], [], 0;
    }

    ghost function View(): Queue<T>
      reads this
    {
      Queue(channel, counts, order, total)
    }

    ghost predicate Valid()
      reads this
    {
      QueueOk(View(), capacity, keyLimit)
    }

    method Offer(x: T) returns (ok: bool)
      requires Valid()
      modifies this
      ensures Valid()
      ensures ok <==> Accepts(old(View()), x, capacity, keyLimit)
      ensures View() == (if ok then Offered(old(View()), x, capacity) else old(View()))
    {
      if Accepts(View(), x, capacity, keyLimit) {
        OfferConserves(View(), x, capacity, keyLimit);
      }
      hide QueueOk, Contents;
      if |channel| < capacity {
        channel := channel + [x];
        return true;
      }
      ok := Spill(x);
    }

    /** Takes the next entry: the channel first, then the spilled keys in the order of their first spill. */
    method Take() returns (next: Option<T>)
      requires Valid()
      modifies this
      ensures Valid()
      ensures next == None <==> IsEmpty(old(View()))
      ensures next == None ==> View() == old(View())
      ensures next.Some? ==> Contents(old(View())) == [next.value] + Contents(View())
    {
      if !IsEmpty(View()) {
        TakeConserves(View(), capacity, keyLimit);
      }
      hide QueueOk, Contents;
      if |channel| > 0 {
        next := Some(channel[0]);
        channel := channel[1..];
        return;
      }
      if |order| == 0 {
        return None;
      }
      var x := TakeSpilled();
      return Some(x);
    }

    /** Takes a spilled entry of the oldest key. */
    method TakeSpilled() returns (x: T)
      requires Valid() && channel == [] && order != [] && order[0] in counts
      modifies this
      ensures View() == Taken(old(View())) && x == Head(old(View()))
    {
      hide QueueOk, Contents;
      x := order[0];
      counts := counts[x := counts[x] - 1];
      total := total - 1;
      if counts[x] <= 0 {
        assert counts - {x} == old(counts) - {x};
        counts := counts - {x};
        order := order[1..];
      }
    }

    /** Adds a spilled entry of a key. */
    method Spill(x: T) returns (ok: bool)
      requires Valid() && |channel| >= capacity
      modifies this
      ensures ok <==> Accepts(old(View()), x, capacity, keyLimit)
      ensures View() == (if ok then Offered(old(View()), x, capacity) else old(View()))
    {
      hide QueueOk, Contents;
      if x !in counts {
        if |counts| >= keyLimit {
          return false;
        }
        order := order + [x];
      }
      counts := counts[x := if x in counts then counts[x] + 1 else 1];
      total := total + 1;
      return true;
    }
  }
}
