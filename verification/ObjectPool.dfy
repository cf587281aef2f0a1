/** A pool of reusable objects. An object is named by the number of objects made
    before it; a borrower's pointer gives its object back when it goes away. */
module ObjectPool {
  import opened Bytes

  /** What a pool and its borrowers hold between them. */
  datatype Pool = Pool(
    minimum: nat, maximum: nat,
    idle: seq<nat>,                      // the stack, its top last
    borrowed: set<nat>, deleted: set<nat>,
    created: nat,                        // objects made so far
    numBorrowed: nat, numIdle: nat,      // 64-bit counters
    alive: bool)

  function Numbers(n: nat): (s: set<nat>)
    ensures |s| == n && forall i: nat :: i in s <==> i < n
  {
    if n == 0 then {} else Numbers(n - 1) + {n - 1}
  }

  function SetOf(s: seq<nat>): set<nat> {
    set r | r in s
  }

  function UpTo(n: nat): seq<nat> {
    seq(n, (i: nat) => i)
  }

  function Made(minimum: nat, maximum: nat): Pool {
    Pool(minimum, maximum, UpTo(minimum), {}, {}, minimum, 0, 0, true)
  }

  function Increment(n: nat): nat {
    (n + 1) % TWO_TO_THE_64
  }

  function Decrement(n: nat): nat {
    (n + TWO_TO_THE_64 - 1) % TWO_TO_THE_64
  }

  /** The object that the next borrower gets. */
  function NextObject(p: Pool): nat {
    if p.idle == [] then p.created else p.idle[|p.idle| - 1]
  }

  function Acquired(p: Pool): Pool {
    var p' := p.(numBorrowed := Increment(p.numBorrowed), borrowed := p.borrowed + {NextObject(p)});
    if p.idle == [] then p'.(created := p.created + 1)
    else p'.(idle := p.idle[..|p.idle| - 1], numIdle := Decrement(p.numIdle))
  }

  /** The last pointer to `r` goes away. */
  function Dropped(p: Pool, r: nat): Pool {
    var p' := p.(borrowed := p.borrowed - {r});
    if !p.alive then p'.(deleted := p.deleted + {r})
    else
      var q := p'.(numBorrowed := Decrement(p.numBorrowed));
      if |p.idle| < p.maximum then q.(idle := p.idle + [r], numIdle := Increment(p.numIdle))
      else q.(deleted := p.deleted + {r})
  }

  function Destroyed(p: Pool): Pool {
    p.(alive := false, idle := [], deleted := p.deleted + SetOf(p.idle))
  }

  // ----- the pool as the program has it -----

  class ObjectPool {
    const min_pool_size_: nat
    const max_pool_size_: nat
    var alive: bool                      // the back pointer that borrowers test is not dangling
    var pool_: seq<nat>
    var num_borrowed_: nat
    var num_idle_: nat
    var created: nat                     // names the next object
    ghost var borrowed: set<nat>
    ghost var deleted: set<nat>

    ghost function View(): Pool
      reads this
    {
      Pool(min_pool_size_, max_pool_size_, pool_, borrowed, deleted, created, num_borrowed_, num_idle_, alive)
    }

    constructor (minimum: nat, maximum: nat)
      ensures View() == Made(minimum, maximum)
    {
      min_pool_size_, max_pool_size_ := minimum, maximum;
      alive, pool_, num_borrowed_, num_idle_, created := true, [], 0, 0, 0;
      borrowed, deleted := {}, {};
      new;
      while created < min_pool_size_
        invariant created <= min_pool_size_ && pool_ == UpTo(created)
        invariant alive && num_borrowed_ == 0 && num_idle_ == 0 && borrowed == {} && deleted == {}
      {
        pool_ := pool_ + [created];
        created := created + 1;
      }
    }

    method Acquire() returns (r: nat)
      requires alive
      modifies this
      ensures r == NextObject(old(View())) && View() == Acquired(old(View()))
    {
      num_borrowed_ := Increment(num_borrowed_);
      if pool_ != [] {
        r := pool_[|pool_| - 1];
        num_idle_ := Decrement(num_idle_);
        pool_ := pool_[..|pool_| - 1];
      } else {
        r := created;
        created := created + 1;
      }
      borrowed := borrowed + {r};
    }

    /** What the deleter of a borrower's pointer does. */
    method Drop(r: nat)
      modifies this
      ensures View() == Dropped(old(View()), r)
    {
      borrowed := borrowed - {r};
      if alive {
        Release(r);
      } else {
        deleted := deleted + {r};
      }
    }

    method Release(r: nat)
      requires alive
      modifies `pool_, `num_borrowed_, `num_idle_, `deleted
      ensures num_borrowed_ == Decrement(old(num_borrowed_))
      ensures old(|pool_|) < max_pool_size_ ==>
                pool_ == old(pool_) + [r] && num_idle_ == Increment(old(num_idle_)) && deleted == old(deleted)
      ensures old(|pool_|) >= max_pool_size_ ==>
                pool_ == old(pool_) && num_idle_ == old(num_idle_) && deleted == old(deleted) + {r}
    {
      num_borrowed_ := Decrement(num_borrowed_);
      if |pool_| < max_pool_size_ {
        pool_ := pool_ + [r];
        num_idle_ := Increment(num_idle_);
      } else {
        deleted := deleted + {r};
      }
    }

    /** The pool goes away: the back pointer dangles and the stack is deleted. */
    method Destroy()
      modifies this
      ensures View() == Destroyed(old(View()))
    {
      deleted := deleted + SetOf(pool_);
      alive, pool_ := false, [];
    }
  }

  // ----- every run -----

  datatype PoolEvent = Acquire | Drop(r: nat) | Destroy

  /** A pool that is gone lends nothing, and only what is borrowed can be given back. */
  function PoolStep(p: Pool, e: PoolEvent): Pool {
    match e
    case Acquire => if p.alive then Acquired(p) else p
    case Drop(r) => if r in p.borrowed then Dropped(p, r) else p
    case Destroy => if p.alive then Destroyed(p) else p
  }

  function PoolRun(p: Pool, events: seq<PoolEvent>): Pool {
    if events == [] then p else PoolStep(PoolRun(p, events[..|events| - 1]), events[|events| - 1])
  }

  predicate Distinct(s: seq<nat>) {
    forall i, j | 0 <= i < j < |s| :: s[i] != s[j]
  }

  /** Every object ever made is in exactly one place: idle, lent to one borrower, or deleted. */
  predicate Partitioned(p: Pool) {
    && Distinct(p.idle)
    && (forall r | r in p.idle :: r < p.created && r !in p.borrowed && r !in p.deleted)
    && (forall r | r in p.borrowed :: r < p.created && r !in p.deleted)
    && (forall r | r in p.deleted :: r < p.created)
    && (forall r: nat | r < p.created :: r in p.idle || r in p.borrowed || r in p.deleted)
  }

  predicate Bounded(p: Pool) {
    |p.idle| <= p.minimum || |p.idle| <= p.maximum
  }

  /** A 64-bit counter that falls short of `m` by `offset`. */
  predicate Agrees(counter: nat, offset: nat, m: nat) {
    counter < TWO_TO_THE_64 && (counter + offset) % TWO_TO_THE_64 == m % TWO_TO_THE_64
  }

  /** While a pool lives, one counter is the number of borrowers, the other falls short
      of the number of idle objects by the size the pool began with; in 64 bits. */
  predicate Counted(p: Pool) {
    p.alive ==> Agrees(p.numBorrowed, 0, |p.borrowed|) && Agrees(p.numIdle, p.minimum, |p.idle|)
  }

  lemma AcquirePartitions(p: Pool)
    requires Partitioned(p)
    ensures Partitioned(Acquired(p))
  {
    if p.idle != [] {
      var n := |p.idle| - 1;
      var rest, top := p.idle[..n], p.idle[n];
      assert p.idle == rest + [top];
      assert forall r :: r in p.idle <==> r in rest || r == top;
      assert forall i | 0 <= i < n :: rest[i] == p.idle[i];
      assert top !in rest;
    }
  }

  lemma DropPartitions(p: Pool, r: nat)
    requires Partitioned(p) && r in p.borrowed
    ensures Partitioned(Dropped(p, r))
  {
    var p' := Dropped(p, r);
    if p.alive && |p.idle| < p.maximum {
      assert forall i | 0 <= i < |p.idle| :: p.idle[i] in p.idle;
      assert p'.idle[|p.idle|] == r;
      assert forall s | s in p.idle :: s in p'.idle;
    }
  }

  lemma DestroyPartitions(p: Pool)
    requires Partitioned(p)
    ensures Partitioned(Destroyed(p))
  {}

  lemma StepPartitions(p: Pool, e: PoolEvent)
    requires Partitioned(p)
    ensures Partitioned(PoolStep(p, e))
  {
    hide Partitioned, Acquired, Dropped, Destroyed;
    match e {
      case Acquire => AcquirePartitions(p);
      case Drop(r) => if r in p.borrowed { DropPartitions(p, r); }
      case Destroy => DestroyPartitions(p);
    }
  }

  lemma CountsUp(n: nat, offset: nat, m: nat)
    requires Agrees(n, offset, m)
    ensures Agrees(Increment(n), offset, m + 1)
  {}

  lemma OneLess(x: nat, y: nat)
    requires x > 0 && y > 0 && x % TWO_TO_THE_64 == y % TWO_TO_THE_64
    ensures (x - 1) % TWO_TO_THE_64 == (y - 1) % TWO_TO_THE_64
  {
    var r := x % TWO_TO_THE_64;
    assert (x - 1) % TWO_TO_THE_64 == (if r == 0 then TWO_TO_THE_64 else r) - 1;
    assert (y - 1) % TWO_TO_THE_64 == (if r == 0 then TWO_TO_THE_64 else r) - 1;
  }

  lemma CountsDown(n: nat, offset: nat, m: nat)
    requires Agrees(n, offset, m) && m > 0
    ensures Agrees(Decrement(n), offset, m - 1)
  {
    OneLess(n + offset + TWO_TO_THE_64, m);
    if n > 0 {
      assert n + offset - 1 + TWO_TO_THE_64 == Decrement(n) + offset + TWO_TO_THE_64;
    }
  }

  lemma AcquireCounts(p: Pool)
    requires p.alive && Partitioned(p) && Counted(p) && Bounded(p)
    ensures Counted(Acquired(p)) && Bounded(Acquired(p))
  {
    hide Agrees, Increment, Decrement;
    CountsUp(p.numBorrowed, 0, |p.borrowed|);
    assert NextObject(p) !in p.borrowed by {
      if p.idle != [] { assert p.idle[|p.idle| - 1] in p.idle; }
    }
    if p.idle != [] {
      CountsDown(p.numIdle, p.minimum, |p.idle|);
    }
  }

  lemma DropCounts(p: Pool, r: nat)
    requires r in p.borrowed && Counted(p) && Bounded(p)
    ensures Counted(Dropped(p, r)) && Bounded(Dropped(p, r))
  {
    hide Agrees, Increment, Decrement;
    if p.alive {
      CountsDown(p.numBorrowed, 0, |p.borrowed|);
      CountsUp(p.numIdle, p.minimum, |p.idle|);
    }
  }

  lemma StepCounts(p: Pool, e: PoolEvent)
    requires Partitioned(p) && Counted(p) && Bounded(p)
    ensures Counted(PoolStep(p, e)) && Bounded(PoolStep(p, e))
  {
    hide Agrees, Acquired, Dropped, Partitioned;
    match e {
      case Acquire => if p.alive { AcquireCounts(p); }
      case Drop(r) => if r in p.borrowed { DropCounts(p, r); }
      case Destroy =>
    }
  }

  /** In every run of borrowing, dropping and destroying: no object is lost, none is in
      two places, the stack never outgrows both bounds, and the counters count. */
  lemma {:induction false} PoolConserves(minimum: nat, maximum: nat, events: seq<PoolEvent>)
    ensures var p := PoolRun(Made(minimum, maximum), events);
            && Partitioned(p) && Counted(p) && Bounded(p)
            && p.minimum == minimum && p.maximum == maximum
            && p.created == |p.idle| + |p.borrowed| + |p.deleted|
  {
    if events == [] {
      MadePartitioned(minimum, maximum);
    } else {
      hide Partitioned, Counted, Bounded;
      var init := events[..|events| - 1];
      PoolConserves(minimum, maximum, init);
      var p := PoolRun(Made(minimum, maximum), init);
      StepPartitions(p, events[|events| - 1]);
      StepCounts(p, events[|events| - 1]);
    }
    PartitionCounts(PoolRun(Made(minimum, maximum), events));
  }

  /** A pool that is gone keeps nothing: in every run, once it has been destroyed, each object
      ever made is lent or deleted, and one that is given back later is deleted. */
  lemma {:induction false} GoneKeepsNothing(minimum: nat, maximum: nat, events: seq<PoolEvent>)
    requires !PoolRun(Made(minimum, maximum), events).alive
    ensures var p := PoolRun(Made(minimum, maximum), events);
            && p.idle == [] && p.created == |p.borrowed| + |p.deleted|
            && (forall r: nat | r < p.created :: r in p.borrowed <==> r !in p.deleted)
            && (forall r | r in p.borrowed :: r in PoolStep(p, Drop(r)).deleted)
  {
    if events != [] {
      var init := events[..|events| - 1];
      if !PoolRun(Made(minimum, maximum), init).alive {
        GoneKeepsNothing(minimum, maximum, init);
      }
    }
    PoolConserves(minimum, maximum, events);
  }

  lemma MadePartitioned(minimum: nat, maximum: nat)
    ensures Partitioned(Made(minimum, maximum))
  {
    var idle := UpTo(minimum);
    forall r: nat | r < minimum
      ensures r in idle
    {
      assert idle[r] == r;
    }
  }

  lemma {:induction false} DistinctSize(s: seq<nat>)
    requires Distinct(s)
    ensures |SetOf(s)| == |s|
  {
    if s == [] {
      assert SetOf(s) == {};
    } else {
      var n := |s| - 1;
      DistinctSize(s[..n]);
      assert s == s[..n] + [s[n]];
      assert SetOf(s) == SetOf(s[..n]) + {s[n]};
      assert s[n] !in SetOf(s[..n]);
    }
  }

  lemma PartitionCounts(p: Pool)
    requires Partitioned(p)
    ensures p.created == |p.idle| + |p.borrowed| + |p.deleted|
  {
    DistinctSize(p.idle);
    var idle := SetOf(p.idle);
    assert Numbers(p.created) == idle + p.borrowed + p.deleted;
    assert idle !! p.borrowed && (idle + p.borrowed) !! p.deleted;
    DisjointSizes(idle, p.borrowed, p.deleted);
  }

  lemma DisjointSizes(a: set<nat>, b: set<nat>, c: set<nat>)
    requires a !! b && (a + b) !! c
    ensures |a + b + c| == |a| + |b| + |c|
  {}

  /** The count of idle objects is right exactly for a pool that began empty: those
      the pool was filled with are never counted. */
  lemma IdleCountIff(minimum: nat, maximum: nat, events: seq<PoolEvent>)
    requires minimum < TWO_TO_THE_64 && maximum < TWO_TO_THE_64
    requires PoolRun(Made(minimum, maximum), events).alive
    ensures var p := PoolRun(Made(minimum, maximum), events);
            p.numIdle == |p.idle| <==> minimum == 0
  {
    hide PoolRun, Partitioned;
    PoolConserves(minimum, maximum, events);
  }

  /** An object that goes back to the stack is the next one lent, and borrowing and
      dropping in turn makes no further object. */
  lemma DroppedIsNext(p: Pool, r: nat)
    requires p.alive && |p.idle| < p.maximum && r in p.borrowed
    ensures NextObject(Dropped(p, r)) == r
    ensures Acquired(Dropped(p, r)).idle == p.idle && Acquired(Dropped(p, r)).borrowed == p.borrowed
    ensures Acquired(Dropped(p, r)).created == p.created
  {
    assert (p.idle + [r])[..|p.idle|] == p.idle;
  }

  /** The largest number of objects lent at the same time. */
  function PeakBorrowed(p: Pool, events: seq<PoolEvent>): nat {
    var now := |PoolRun(p, events).borrowed|;
    if events == [] then now
    else
      var before := PeakBorrowed(p, events[..|events| - 1]);
      if now > before then now else before
  }

  /** A pool that has had to delete nothing has made no more objects than it began with
      or has lent at the same time. */
  lemma {:induction false} MakesNoMoreThanNeeded(minimum: nat, maximum: nat, events: seq<PoolEvent>)
    requires PoolRun(Made(minimum, maximum), events).deleted == {}
    ensures var peak := PeakBorrowed(Made(minimum, maximum), events);
            PoolRun(Made(minimum, maximum), events).created == (if peak > minimum then peak else minimum)
  {
    hide Partitioned, Counted, Bounded, Increment, Decrement;
    if events != [] {
      var init := events[..|events| - 1];
      var p := PoolRun(Made(minimum, maximum), init);
      assert p.deleted <= PoolStep(p, events[|events| - 1]).deleted;
      MakesNoMoreThanNeeded(minimum, maximum, init);
      PoolConserves(minimum, maximum, init);
      PoolConserves(minimum, maximum, events);
    }
  }
}
