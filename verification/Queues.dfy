/** The scheduler's bounded priority queues (src/comfyng/scheduler/queues.py,
    src/comfyng/scheduler/priority.py). */
module Queues {
  import opened Graphs

  type JobId = string

  datatype QueueName = Interactive | Normal | Batch | Background | Download | Maintenance

  function Rank(q: QueueName): nat
  {
    match q
    case Interactive => 0
    case Normal => 1
    case Batch => 2
    case Background => 3
    case Download => 4
    case Maintenance => 5
  }

  // ----- Priorities -----

  datatype Factors = Factors(user: nat, age: real, warm: real, reuse: real, memory: real, duration: real)

  predicate ValidFactors(f: Factors)
  {
    f.user <= 100 && f.age >= 0.0 && f.warm >= 0.0 && f.reuse >= 0.0 && f.memory >= 0.0 && f.duration >= 0.0
  }

  function PriorityScore(f: Factors): real
  {
    f.user as real + f.age + f.warm + f.reuse - f.memory - f.duration
  }

  function AgeBonus(enqueuedAt: real, now: real, rate: real): real
  {
    (if now - enqueuedAt > 0.0 then now - enqueuedAt else 0.0) * rate
  }

  datatype Item = Item(jobId: JobId, queue: QueueName, enqueuedAt: real, factors: Factors)

  datatype Queued = Queued(item: Item, sequence: nat)

  /** `_score`. */
  function Score(q: Queued, now: real, rate: real): real
  {
    PriorityScore(q.item.factors.(age := q.item.factors.age + AgeBonus(q.item.enqueuedAt, now, rate)))
  }

  /** The comparison of `pop_next` at a given time. Sequence numbers are unique, so the last
      component of its key, the job id, is never reached. */
  predicate Precedes(a: Queued, b: Queued, now: real, rate: real)
  {
    Score(a, now, rate) > Score(b, now, rate) ||
    (Score(a, now, rate) == Score(b, now, rate) && TieBreak(a, b))
  }

  predicate TieBreak(a: Queued, b: Queued)
  {
    Rank(a.item.queue) < Rank(b.item.queue) ||
    (Rank(a.item.queue) == Rank(b.item.queue) &&
      (a.item.enqueuedAt < b.item.enqueuedAt ||
        (a.item.enqueuedAt == b.item.enqueuedAt && a.sequence < b.sequence)))
  }

  /** The part of the score that does not move with time. */
  function Standing(q: Queued, rate: real): real
  {
    PriorityScore(q.item.factors) - rate * q.item.enqueuedAt
  }

  /** The one fixed order. */
  predicate Ahead(a: Queued, b: Queued, rate: real)
  {
    Standing(a, rate) > Standing(b, rate) || (Standing(a, rate) == Standing(b, rate) && TieBreak(a, b))
  }

  lemma ScoreMovesTogether(q: Queued, now: real, rate: real)
    requires now >= q.item.enqueuedAt
    ensures Score(q, now, rate) == Standing(q, rate) + rate * now
  {
    assert AgeBonus(q.item.enqueuedAt, now, rate) == (now - q.item.enqueuedAt) * rate;
  }

  /** Waiting items all age alike: who is first does not depend on when one asks. */
  lemma OrderIsFixed(a: Queued, b: Queued, now: real, rate: real)
    requires now >= a.item.enqueuedAt && now >= b.item.enqueuedAt
    ensures Precedes(a, b, now, rate) <==> Ahead(a, b, rate)
  {
    ScoreMovesTogether(a, now, rate);
    ScoreMovesTogether(b, now, rate);
  }

  lemma AheadIsTotal(a: Queued, b: Queued, rate: real)
    ensures !(Ahead(a, b, rate) && Ahead(b, a, rate))
    ensures a.sequence != b.sequence ==> Ahead(a, b, rate) || Ahead(b, a, rate)
  {
    assert Rank(a.item.queue) == Rank(b.item.queue) ==> a.item.queue == b.item.queue;
  }

  /** An item may only be overtaken by one whose head start in priority outweighs the time it
      came later. */
  lemma OvertakingIsBounded(a: Queued, b: Queued, now: real, rate: real)
    requires rate > 0.0 && now >= a.item.enqueuedAt && now >= b.item.enqueuedAt && Precedes(b, a, now, rate)
    ensures b.item.enqueuedAt <= a.item.enqueuedAt + (PriorityScore(b.item.factors) - PriorityScore(a.item.factors)) / rate
  {
    OrderIsFixed(b, a, now, rate);
    var gap, lead := b.item.enqueuedAt - a.item.enqueuedAt, PriorityScore(b.item.factors) - PriorityScore(a.item.factors);
    assert rate * b.item.enqueuedAt - rate * a.item.enqueuedAt == rate * gap;
    assert rate * gap <= lead;
    Divide(gap, lead, rate);
  }

  lemma Divide(gap: real, lead: real, rate: real)
    requires rate > 0.0 && rate * gap <= lead
    ensures gap <= lead / rate
  {
    var x := lead / rate;
    assert x * rate == lead;
    assert (gap - x) * rate <= 0.0;
    NotPositive(gap - x, rate);
  }

  lemma NotPositive(a: real, rate: real)
    requires rate > 0.0 && a * rate <= 0.0
    ensures a <= 0.0
  {
  }

  /** A point of user priority, of age, of a warm model or of reuse counts one for the item, a
      point of memory or of duration one against it. */
  lemma FactorsCount(f: Factors, x: real, n: nat)
    ensures PriorityScore(Factors(0, 0.0, 0.0, 0.0, 0.0, 0.0)) == 0.0
    ensures PriorityScore(f.(user := f.user + n)) == PriorityScore(f) + n as real
    ensures PriorityScore(f.(age := f.age + x)) == PriorityScore(f) + x
    ensures PriorityScore(f.(warm := f.warm + x)) == PriorityScore(f) + x
    ensures PriorityScore(f.(reuse := f.reuse + x)) == PriorityScore(f) + x
    ensures PriorityScore(f.(memory := f.memory + x)) == PriorityScore(f) - x
    ensures PriorityScore(f.(duration := f.duration + x)) == PriorityScore(f) - x
  {
    assert (f.user + n) as real == f.user as real + n as real;
  }

  /** At least as much in favour, at most as much against. */
  predicate NoWorse(f: Factors, g: Factors)
  {
    && f.user >= g.user && f.age >= g.age && f.warm >= g.warm && f.reuse >= g.reuse
    && f.memory <= g.memory && f.duration <= g.duration
  }

  const SERVED := [Interactive, Normal, Batch, Background, Download, Maintenance]

  /** An item that is no worse in any factor, was queued no later and was first put in comes first,
      if its queue is served no later than the other's. */
  lemma NoWorseComesFirst(a: Queued, b: Queued, now: real, rate: real, i: nat, j: nat)
    requires rate >= 0.0 && now >= a.item.enqueuedAt && now >= b.item.enqueuedAt
    requires NoWorse(a.item.factors, b.item.factors) && a.item.enqueuedAt <= b.item.enqueuedAt && a.sequence < b.sequence
    requires i <= j < |SERVED| && a.item.queue == SERVED[i] && b.item.queue == SERVED[j]
    ensures Precedes(a, b, now, rate)
  {
    hide PriorityScore, Standing, Precedes;
    OrderIsFixed(a, b, now, rate);
    NoWorseStanding(a, b, rate);
    RankAt(i);
    RankAt(j);
    assert TieBreak(a, b);
  }

  lemma NoWorseStanding(a: Queued, b: Queued, rate: real)
    requires rate >= 0.0 && NoWorse(a.item.factors, b.item.factors) && a.item.enqueuedAt <= b.item.enqueuedAt
    ensures Standing(a, rate) >= Standing(b, rate)
  {
    hide PriorityScore;
    NoWorseScore(a.item.factors, b.item.factors);
    var earlier, later := rate * a.item.enqueuedAt, rate * b.item.enqueuedAt;
    assert earlier <= later by { WaitingCounts(a.item.enqueuedAt, b.item.enqueuedAt, rate); }
    assert Standing(a, rate) == PriorityScore(a.item.factors) - earlier;
    assert Standing(b, rate) == PriorityScore(b.item.factors) - later;
  }

  lemma NoWorseScore(f: Factors, g: Factors)
    requires NoWorse(f, g)
    ensures PriorityScore(f) >= PriorityScore(g)
  {
    assert f.user as real >= g.user as real;
  }

  lemma RankAt(i: nat)
    requires i < |SERVED|
    ensures Rank(SERVED[i]) == i
  {
  }

  lemma WaitingCounts(earlier: real, later: real, rate: real)
    requires rate >= 0.0 && earlier <= later
    ensures rate * earlier <= rate * later
  {
    assert rate * (later - earlier) >= 0.0;
  }

  // ----- Draining -----

  ghost predicate Foremost(q: Queued, waiting: set<Queued>, now: real, rate: real)
  {
    q in waiting && forall o :: o in waiting && o != q ==> Precedes(q, o, now, rate)
  }

  /** Popping everything, at any times that are not before the items were queued. */
  ghost predicate Drains(waiting: set<Queued>, times: seq<real>, rate: real, popped: seq<Queued>)
  {
    if popped == [] then waiting == {} && times == []
    else
      && times != [] && (forall o :: o in waiting ==> o.item.enqueuedAt <= times[0])
      && Foremost(popped[0], waiting, times[0], rate)
      && Drains(waiting - {popped[0]}, times[1..], rate, popped[1..])
  }

  /** All drains give the same order, and it is the fixed one. */
  lemma {:induction false} DrainIsUnique(waiting: set<Queued>, times: seq<real>, times': seq<real>, rate: real,
                                         popped: seq<Queued>, popped': seq<Queued>)
    requires Drains(waiting, times, rate, popped) && Drains(waiting, times', rate, popped')
    ensures popped == popped'
    decreases |popped|
  {
    DrainEmptiesAll(waiting, times, rate, popped);
    DrainEmptiesAll(waiting, times', rate, popped');
    if popped != [] {
      var a, b := popped[0], popped'[0];
      if a != b {
        OrderIsFixed(a, b, times[0], rate);
        OrderIsFixed(b, a, times'[0], rate);
        AheadIsTotal(a, b, rate);
      }
      DrainIsUnique(waiting - {a}, times[1..], times'[1..], rate, popped[1..], popped'[1..]);
    }
  }

  lemma {:induction false} DrainEmptiesAll(waiting: set<Queued>, times: seq<real>, rate: real, popped: seq<Queued>)
    requires Drains(waiting, times, rate, popped)
    ensures |popped| == |waiting|
    decreases |popped|
  {
    if popped != [] {
      DrainEmptiesAll(waiting - {popped[0]}, times[1..], rate, popped[1..]);
      assert waiting == (waiting - {popped[0]}) + {popped[0]};
    }
  }

  // ----- The queues -----

  datatype Config = Config(maxQueued: nat, limits: map<QueueName, nat>, rate: real)

  predicate ValidConfig(c: Config)
  {
    c.maxQueued >= 1 && c.rate >= 0.0 && forall q :: q in c.limits ==> c.limits[q] >= 1
  }

  /** The value of the queues. */
  datatype Waiting = Waiting(items: map<JobId, Queued>, next: nat)

  function Members(items: map<JobId, Queued>, q: QueueName): set<JobId>
  {
    set id | id in items && items[id].item.queue == q
  }

  /** `ensure_capacity`: room in all queues together and in this one. */
  predicate Room(c: Config, w: Waiting, q: QueueName)
  {
    |w.items| < c.maxQueued && (q in c.limits ==> |Members(w.items, q)| < c.limits[q])
  }

  function Put(w: Waiting, item: Item): Waiting
  {
    Waiting(w.items[item.jobId := Queued(item, w.next)], w.next + 1)
  }

  function Removed(w: Waiting, id: JobId): Waiting
  {
    w.(items := w.items - {id})
  }

  ghost predicate Orderly(c: Config, w: Waiting)
  {
    && |w.items| <= c.maxQueued && (forall q :: q in c.limits ==> |Members(w.items, q)| <= c.limits[q])
    && (forall id :: id in w.items ==> w.items[id].item.jobId == id && w.items[id].sequence < w.next)
    && (forall a, b :: a in w.items && b in w.items && a != b ==> w.items[a].sequence != w.items[b].sequence)
  }

  lemma PutCounts(w: Waiting, item: Item, q: QueueName)
    requires item.jobId !in w.items
    ensures |Put(w, item).items| == |w.items| + 1
    ensures |Members(Put(w, item).items, q)| == |Members(w.items, q)| + if item.queue == q then 1 else 0
  {
    var after := Put(w, item).items;
    assert after.Keys == w.items.Keys + {item.jobId};
    PutMembers(w.items, after, item, Queued(item, w.next), q);
    if item.queue == q {
      assert item.jobId !in Members(w.items, q);
    }
  }

  lemma PutMembers(items: map<JobId, Queued>, after: map<JobId, Queued>, item: Item, added: Queued, q: QueueName)
    requires item.jobId !in items && added.item == item && after == items[item.jobId := added]
    ensures Members(after, q) == Members(items, q) + if item.queue == q then {item.jobId} else {}
  {
    forall id
      ensures id in Members(after, q) <==> id in Members(items, q) || (id == item.jobId && item.queue == q)
    {
    }
  }

  lemma RemoveCounts(w: Waiting, id: JobId, q: QueueName)
    requires id in w.items
    ensures |Removed(w, id).items| == |w.items| - 1
    ensures |Members(Removed(w, id).items, q)| == |Members(w.items, q)| - if w.items[id].item.queue == q then 1 else 0
  {
    var after := Removed(w, id).items;
    assert after.Keys == w.items.Keys - {id};
    assert Members(after, q) == Members(w.items, q) - if w.items[id].item.queue == q then {id} else {};
  }

  lemma PutKeepsOrder(c: Config, w: Waiting, item: Item)
    requires Orderly(c, w) && Room(c, w, item.queue) && item.jobId !in w.items
    ensures Orderly(c, Put(w, item))
  {
    forall q
      ensures |Members(Put(w, item).items, q)| == |Members(w.items, q)| + if item.queue == q then 1 else 0
    {
      PutCounts(w, item, q);
    }
    PutCounts(w, item, item.queue);
  }

  lemma RemoveKeepsOrder(c: Config, w: Waiting, id: JobId)
    requires Orderly(c, w)
    ensures Orderly(c, Removed(w, id))
  {
    if id in w.items {
      forall q
        ensures |Members(Removed(w, id).items, q)| == |Members(w.items, q)| - if w.items[id].item.queue == q then 1 else 0
      {
        RemoveCounts(w, id, q);
      }
      RemoveCounts(w, id, w.items[id].item.queue);
    } else {
      assert Removed(w, id).items == w.items;
    }
  }

  /** Taking an item off and putting it back, as a deferred launch does, always finds room. */
  lemma PutBackFits(c: Config, w: Waiting, id: JobId)
    requires Orderly(c, w) && id in w.items
    ensures Room(c, Removed(w, id), w.items[id].item.queue)
  {
    RemoveCounts(w, id, w.items[id].item.queue);
  }

  /** The item that is served next. */
  ghost predicate Next(w: Waiting, now: real, rate: real, id: JobId)
  {
    id in w.items && forall o :: o in w.items && o != id ==> Precedes(w.items[id], w.items[o], now, rate)
  }

  lemma NextIsUnique(w: Waiting, now: real, rate: real, a: JobId, b: JobId)
    requires Next(w, now, rate, a) && Next(w, now, rate, b)
    ensures a == b
  {
  }

  datatype EnqueueResult = Enqueued | Duplicate | Full

  class SchedulerQueues {
    const config: Config
    var items: map<JobId, Queued>
    var byQueue: map<QueueName, nat>
    var next: nat

    ghost function State(): Waiting
      reads this
    {
      Waiting(items, next)
    }

    ghost predicate Valid()
      reads this
    {
      && ValidConfig(config) && Orderly(config, State())
      && forall q: QueueName :: q in byQueue && byQueue[q] == |Members(items, q)|
    }

    constructor (config: Config)
      requires ValidConfig(config)
      ensures Valid() && State() == Waiting(map[], 1) && this.config == config
    {
      this.config, items, next := config, map[], 1;
      byQueue := map[Interactive := 0, Normal := 0, Batch := 0, Background := 0, Download := 0, Maintenance := 0];
      new;
      forall q: QueueName
        ensures q in byQueue && byQueue[q] == |Members(items, q)|
      {
        assert Members(items, q) == {};
        match q {
          case Interactive =>
          case Normal =>
          case Batch =>
          case Background =>
          case Download =>
          case Maintenance =>
        }
      }
    }

    method HasCapacity(q: QueueName) returns (room: bool)
      requires Valid()
      ensures room == Room(config, State(), q)
    {
      room := |items| < config.maxQueued && (q in config.limits ==> byQueue[q] < config.limits[q]);
    }

    method Enqueue(item: Item) returns (r: EnqueueResult)
      requires Valid()
      modifies this
      ensures Valid()
      ensures r == if item.jobId in old(items) then Duplicate else if Room(config, old(State()), item.queue) then Enqueued else Full
      ensures State() == if r.Enqueued? then Put(old(State()), item) else old(State())
    {
      if item.jobId in items { return Duplicate; }
      var room := HasCapacity(item.queue);
      if !room { return Full; }
      PutKeepsOrder(config, State(), item);
      forall q
        ensures |Members(Put(State(), item).items, q)| == |Members(items, q)| + if item.queue == q then 1 else 0
      {
        PutCounts(State(), item, q);
      }
      byQueue := byQueue[item.queue := byQueue[item.queue] + 1];
      items, next := items[item.jobId := Queued(item, next)], next + 1;
      r := Enqueued;
    }

    method Drop(id: JobId)
      requires Valid() && id in items
      modifies this
      ensures Valid() && State() == Removed(old(State()), id)
    {
      RemoveKeepsOrder(config, State(), id);
      forall q
        ensures |Members(Removed(State(), id).items, q)| == |Members(items, q)| - if items[id].item.queue == q then 1 else 0
      {
        RemoveCounts(State(), id, q);
      }
      var q := items[id].item.queue;
      byQueue := byQueue[q := byQueue[q] - 1];
      items := items - {id};
    }

    /** The minimum over all waiting items. */
    method Best(now: real) returns (best: JobId)
      requires Valid() && items != map[]
      ensures Next(State(), now, config.rate, best)
    {
      best :| best in items;
      var rest := items.Keys - {best};
      while rest != {}
        invariant best in items && rest <= items.Keys && best !in rest
        invariant forall o :: o in items && o !in rest && o != best ==> Precedes(items[best], items[o], now, config.rate)
      {
        var o :| o in rest;
        PrecedesIsTotal(items[best], items[o], now, config.rate);
        rest := rest - {o};
        if Precedes(items[o], items[best], now, config.rate) {
          forall p | p in items && p !in rest && p != o
            ensures Precedes(items[o], items[p], now, config.rate)
          {
            if p != best { PrecedesIsTransitive(items[o], items[best], items[p], now, config.rate); }
          }
          best := o;
        }
      }
    }

    /** `pop_next`: the item that precedes all others now. */
    method PopNext(now: real) returns (r: Option<Item>)
      requires Valid()
      modifies this
      ensures Valid() && (r.None? <==> old(items) == map[])
      ensures r.Some? ==> Next(old(State()), now, config.rate, r.value.jobId) && r.value == old(items)[r.value.jobId].item
      ensures State() == if r.Some? then Removed(old(State()), r.value.jobId) else old(State())
    {
      if items == map[] { return None; }
      var best := Best(now);
      r := Some(items[best].item);
      Drop(best);
    }

    method Remove(id: JobId) returns (r: Option<Item>)
      requires Valid()
      modifies this
      ensures Valid() && r == if id in old(items) then Some(old(items)[id].item) else None
      ensures State() == Removed(old(State()), id)
    {
      if id !in items {
        assert items - {id} == items;
        return None;
      }
      r := Some(items[id].item);
      Drop(id);
    }
  }

  lemma PrecedesIsTotal(a: Queued, b: Queued, now: real, rate: real)
    ensures a.sequence != b.sequence ==> Precedes(a, b, now, rate) || Precedes(b, a, now, rate)
  {
  }

  lemma PrecedesIsTransitive(a: Queued, b: Queued, c: Queued, now: real, rate: real)
    requires Precedes(a, b, now, rate) && Precedes(b, c, now, rate)
    ensures Precedes(a, c, now, rate)
  {
    var x, y, z := Score(a, now, rate), Score(b, now, rate), Score(c, now, rate);
    assert x >= y >= z;
  }
}
