/**
 The two bounded worker pools (src/audit/orchestrator.js and src/audit/persona-loop.js). A run is
 any sequence of scheduling decisions; `work` is the worker as a function of its item.
 */
module WorkerPools {
  import opened Text

  function Map<T, R>(f: T -> R, xs: seq<T>): (ys: seq<R>)
    ensures |ys| == |xs| && forall i | 0 <= i < |xs| :: ys[i] == f(xs[i])
  {
    seq(|xs|, i requires 0 <= i < |xs| => f(xs[i]))
  }

  // ---------------------------------------------------------------- the audit pool

  /** One of the `limit` loops that take items off the shared queue. */
  datatype Runner<T> = Polling | Busy(item: T) | Done | Failed(item: T)

  /** `started` and `finished` record the order in which the worker was called and returned. */
  datatype Pool<T> = Pool(queue: seq<Option<T>>, runners: seq<Runner<T>>, started: seq<T>, finished: seq<T>)

  /** Runner `runner` goes on up to its next await; `ok` says whether the awaited worker call succeeds. */
  datatype Turn = Turn(runner: nat, ok: bool)

  function Open<T>(items: seq<Option<T>>, limit: nat): Pool<T> {
    Pool(items, seq(limit, _ => Polling), [], [])
  }

  function Step<T>(p: Pool<T>, t: Turn): Pool<T> {
    if t.runner >= |p.runners| then p
    else
      match p.runners[t.runner]
      case Polling =>
        if p.queue == [] then p.(runners := p.runners[t.runner := Done])
        else (
          match p.queue[0]
          case None => p.(queue := p.queue[1..]) // a falsy item is skipped
          case Some(item) =>
            p.(queue := p.queue[1..], runners := p.runners[t.runner := Busy(item)], started := p.started + [item]))
      case Busy(item) =>
        if t.ok then p.(runners := p.runners[t.runner := Polling], finished := p.finished + [item])
        else p.(runners := p.runners[t.runner := Failed(item)])
      case Done => p
      case Failed(_) => p
  }

  function Run<T>(p: Pool<T>, turns: seq<Turn>): Pool<T>
    decreases |turns|
  {
    if turns == [] then p else Run(Step(p, turns[0]), turns[1..])
  }

  /** The items that are there. */
  function Present<T>(items: seq<Option<T>>): seq<T> {
    if items == [] then []
    else (if items[0].Some? then [items[0].value] else []) + Present(items[1..])
  }

  function Hand<T>(r: Runner<T>): multiset<T> {
    if r.Busy? || r.Failed? then multiset{r.item} else multiset{}
  }

  /** The items the runners have in hand, given up ones included. */
  function InHand<T>(runners: seq<Runner<T>>): multiset<T> {
    if runners == [] then multiset{} else Hand(runners[0]) + InHand(runners[1..])
  }

  lemma AddToBoth<T>(a: multiset<T>, x: multiset<T>, h: multiset<T>, y: multiset<T>, g: multiset<T>)
    requires x + h == y + g
    ensures a + x + h == a + y + g
  {
    assert a + x + h == a + (x + h);
  }

  lemma Cancel<T>(x: multiset<T>, y: multiset<T>, h: multiset<T>)
    requires x + h == y + h
    ensures x == y
  {
    forall e ensures x[e] == y[e] {
      assert (x + h)[e] == (y + h)[e];
    }
  }

  lemma MultisetHead<T>(a: seq<T>)
    requires a != []
    ensures multiset(a) == multiset(a[1..]) + multiset{a[0]}
  {
    assert a == [a[0]] + a[1..];
  }

  lemma MultisetWithout<T>(b: seq<T>, i: nat)
    requires i < |b|
    ensures multiset(b) == multiset(b[..i] + b[i + 1..]) + multiset{b[i]}
  {
    assert b == b[..i] + [b[i]] + b[i + 1..];
  }

  lemma {:induction false} InHandUpdate<T>(runners: seq<Runner<T>>, i: nat, r: Runner<T>)
    requires i < |runners|
    ensures InHand(runners[i := r]) + Hand(runners[i]) == InHand(runners) + Hand(r)
  {
    hide Hand;
    var updated := runners[i := r];
    if i == 0 {
      assert updated[1..] == runners[1..];
    } else {
      assert updated[1..] == runners[1..][i - 1 := r];
      InHandUpdate(runners[1..], i - 1, r);
      AddToBoth(Hand(runners[0]), InHand(updated[1..]), Hand(runners[i]), InHand(runners[1..]), Hand(r));
    }
  }

  ghost predicate PoolInv<T>(items: seq<Option<T>>, limit: nat, p: Pool<T>) {
    && |p.runners| == limit
    && p.started + Present(p.queue) == Present(items)
    && multiset(p.started) == multiset(p.finished) + InHand(p.runners)
    && (forall i | 0 <= i < limit && p.runners[i].Done? :: p.queue == [])
  }

  lemma OpenInv<T>(items: seq<Option<T>>, limit: nat)
    ensures PoolInv(items, limit, Open(items, limit))
  {
    NothingInHand<T>(limit);
  }

  lemma {:induction false} NothingInHand<T>(limit: nat)
    ensures InHand(seq(limit, _ => Runner<T>.Polling)) == multiset{}
  {
    if limit > 0 {
      assert seq(limit, _ => Runner<T>.Polling)[1..] == seq(limit - 1, _ => Runner<T>.Polling);
      NothingInHand<T>(limit - 1);
    }
  }

  /** The items a turn starts and the ones it finishes. */
  function Starts<T>(p: Pool<T>, t: Turn): seq<T>
    requires t.runner < |p.runners|
  {
    if p.runners[t.runner].Polling? && p.queue != [] && p.queue[0].Some? then [p.queue[0].value] else []
  }

  function Finishes<T>(p: Pool<T>, t: Turn): seq<T>
    requires t.runner < |p.runners|
  {
    if p.runners[t.runner].Busy? && t.ok then [p.runners[t.runner].item] else []
  }

  lemma StepMoves<T>(p: Pool<T>, t: Turn)
    requires t.runner < |p.runners|
    ensures var q := Step(p, t);
      && |q.runners| == |p.runners| && q.runners == p.runners[t.runner := q.runners[t.runner]]
      && q.started == p.started + Starts(p, t) && q.finished == p.finished + Finishes(p, t)
    ensures multiset(Starts(p, t)) + Hand(p.runners[t.runner]) == multiset(Finishes(p, t)) + Hand(Step(p, t).runners[t.runner])
  {
    hide Hand;
    HandMoves(p, t);
    match p.runners[t.runner]
    case Polling =>
      assert Finishes(p, t) == [];
    case Busy(item) =>
      assert Starts(p, t) == [];
    case _ =>
  }

  lemma HandMoves<T>(p: Pool<T>, t: Turn)
    requires t.runner < |p.runners|
    ensures |Step(p, t).runners| == |p.runners|
    ensures multiset(Starts(p, t)) + Hand(p.runners[t.runner]) == multiset(Finishes(p, t)) + Hand(Step(p, t).runners[t.runner])
  {
    var after := Step(p, t).runners[t.runner];
    match p.runners[t.runner]
    case Polling =>
      assert Hand(p.runners[t.runner]) == multiset{} && Finishes(p, t) == [];
    case Busy(item) =>
      assert Starts(p, t) == [];
    case _ =>
      assert after == p.runners[t.runner];
  }

  /** Whatever a runner's turn does, an item moves between "started only", "in hand" and "finished". */
  lemma StepBalance<T>(p: Pool<T>, t: Turn)
    requires t.runner < |p.runners|
    requires multiset(p.started) == multiset(p.finished) + InHand(p.runners)
    ensures multiset(Step(p, t).started) == multiset(Step(p, t).finished) + InHand(Step(p, t).runners)
  {
    hide *;
    StepMoves(p, t);
    var q := Step(p, t);
    InHandUpdate(p.runners, t.runner, q.runners[t.runner]);
    Balance(multiset(p.started), multiset(p.finished), InHand(p.runners), InHand(q.runners),
            Hand(p.runners[t.runner]), Hand(q.runners[t.runner]), multiset(Starts(p, t)), multiset(Finishes(p, t)));
  }

  lemma Balance<T>(
    started: multiset<T>, finished: multiset<T>, hand: multiset<T>, hand2: multiset<T>,
    before: multiset<T>, after: multiset<T>, newlyStarted: multiset<T>, newlyFinished: multiset<T>)
    requires started == finished + hand && hand2 + before == hand + after
    requires newlyStarted + before == newlyFinished + after
    ensures started + newlyStarted == finished + newlyFinished + hand2
  {
    forall e ensures (started + newlyStarted)[e] == (finished + newlyFinished + hand2)[e] {
      assert (hand2 + before)[e] == (hand + after)[e];
      assert (newlyStarted + before)[e] == (newlyFinished + after)[e];
    }
  }

  lemma StepOrder<T>(p: Pool<T>, t: Turn)
    ensures Step(p, t).started + Present(Step(p, t).queue) == p.started + Present(p.queue)
  {
    var q := Step(p, t);
    if q.queue != p.queue && p.queue[0].Some? {
      assert q.started + Present(q.queue) == p.started + ([p.queue[0].value] + Present(q.queue));
    }
  }

  lemma StepInv<T>(items: seq<Option<T>>, limit: nat, p: Pool<T>, t: Turn)
    requires PoolInv(items, limit, p)
    ensures PoolInv(items, limit, Step(p, t))
  {
    hide InHand, Present;
    StepOrder(p, t);
    if t.runner < limit {
      StepBalance(p, t);
    }
  }

  lemma {:induction false} RunInv<T>(items: seq<Option<T>>, limit: nat, p: Pool<T>, turns: seq<Turn>)
    requires PoolInv(items, limit, p)
    ensures PoolInv(items, limit, Run(p, turns))
    decreases |turns|
  {
    if turns != [] {
      StepInv(items, limit, p, turns[0]);
      RunInv(items, limit, Step(p, turns[0]), turns[1..]);
    }
  }

  lemma {:induction false} AtMostOneEach<T>(runners: seq<Runner<T>>)
    ensures |InHand(runners)| <= |runners|
  {
    if runners != [] {
      AtMostOneEach(runners[1..]);
    }
  }

  lemma {:induction false} AtMostBelow(s: set<nat>, n: nat)
    requires forall i | i in s :: i < n
    ensures |s| <= n
  {
    if n > 0 {
      AtMostBelow(s - {n - 1}, n - 1);
    } else {
      assert forall i | i in s :: i in {};
    }
  }

  /**
   Under every schedule at most `limit` workers run at once, so no more than that many calls are
   open, and the worker is called on the items of the list in list order, each at most once.
   */
  lemma PoolIsBounded<T>(items: seq<Option<T>>, limit: nat, turns: seq<Turn>)
    ensures var p := Run(Open(items, limit), turns);
      && |p.runners| == limit && |set i: nat | i < |p.runners| && p.runners[i].Busy?| <= limit
      && |p.finished| <= |p.started| <= |p.finished| + limit
      && p.started <= Present(items)
  {
    OpenInv(items, limit);
    RunInv(items, limit, Open(items, limit), turns);
    var p := Run(Open(items, limit), turns);
    hide Run, Open, InHand;
    AtMostOneEach(p.runners);
    var busy := set i: nat | i < |p.runners| && p.runners[i].Busy?;
    AtMostBelow(busy, limit);
    assert |multiset(p.started)| == |multiset(p.finished) + InHand(p.runners)|;
  }

  /** Promise.all over the runners has resolved. */
  ghost predicate Finished<T>(p: Pool<T>) {
    p.runners != [] && forall i | 0 <= i < |p.runners| :: p.runners[i].Done?
  }

  /** When the pool returns, the worker has been called on every item once and has returned for each. */
  lemma PoolRunsEachOnce<T>(items: seq<Option<T>>, limit: nat, turns: seq<Turn>)
    requires Finished(Run(Open(items, limit), turns))
    ensures var p := Run(Open(items, limit), turns);
      p.started == Present(items) && multiset(p.finished) == multiset(Present(items))
  {
    OpenInv(items, limit);
    RunInv(items, limit, Open(items, limit), turns);
    var p := Run(Open(items, limit), turns);
    assert p.runners[0].Done?;
    NoneInHand(p.runners);
  }

  lemma {:induction false} NoneInHand<T>(runners: seq<Runner<T>>)
    requires forall i | 0 <= i < |runners| :: runners[i].Done?
    ensures InHand(runners) == multiset{}
  {
    if runners != [] {
      NoneInHand(runners[1..]);
    }
  }

  function Effort<T>(r: Runner<T>): nat {
    match r
    case Busy(_) => 2
    case Polling => 1
    case _ => 0
  }

  function Efforts<T>(runners: seq<Runner<T>>): nat {
    if runners == [] then 0 else Effort(runners[0]) + Efforts(runners[1..])
  }

  /** What is left to do: every turn that changes anything uses up some of it. */
  function Remaining<T>(p: Pool<T>): nat {
    2 * |p.queue| + Efforts(p.runners)
  }

  lemma {:induction false} EffortsUpdate<T>(runners: seq<Runner<T>>, i: nat, r: Runner<T>)
    requires i < |runners|
    ensures Efforts(runners[i := r]) + Effort(runners[i]) == Efforts(runners) + Effort(r)
  {
    var updated := runners[i := r];
    if i == 0 {
      assert updated[1..] == runners[1..];
    } else {
      assert updated[1..] == runners[1..][i - 1 := r];
      EffortsUpdate(runners[1..], i - 1, r);
    }
  }

  /** A runner that has neither ended nor given up can always go on, and every such turn brings the end nearer. */
  lemma PoolProgress<T>(p: Pool<T>, t: Turn)
    requires t.runner < |p.runners|
    ensures p.runners[t.runner].Polling? || p.runners[t.runner].Busy? ==> Remaining(Step(p, t)) < Remaining(p)
    ensures p.runners[t.runner].Done? || p.runners[t.runner].Failed? ==> Step(p, t) == p
  {
    hide Efforts;
    var after := Step(p, t).runners[t.runner];
    EffortsUpdate(p.runners, t.runner, after);
    assert Step(p, t).runners == p.runners[t.runner := after];
  }

  /** No run has more turns of consequence than work: a schedule that keeps picking runners that can go on ends. */
  lemma {:induction false} PoolTerminates<T>(p: Pool<T>, turns: seq<Turn>)
    requires AllEffective(p, turns)
    ensures |turns| + Remaining(Run(p, turns)) <= Remaining(p)
    decreases |turns|
  {
    hide Step, Remaining;
    if turns != [] {
      PoolProgress(p, turns[0]);
      PoolTerminates(Step(p, turns[0]), turns[1..]);
    }
  }

  ghost predicate CanGoOn<T>(p: Pool<T>, t: Turn) {
    t.runner < |p.runners| && (p.runners[t.runner].Polling? || p.runners[t.runner].Busy?)
  }

  ghost predicate AllEffective<T>(p: Pool<T>, turns: seq<Turn>)
    decreases |turns|
  {
    turns == [] || (CanGoOn(p, turns[0]) && AllEffective(Step(p, turns[0]), turns[1..]))
  }

  /** When no turn can go on and no worker has failed, the pool has finished. */
  lemma PoolFinishes<T>(p: Pool<T>)
    requires p.runners != [] && forall t: Turn :: !CanGoOn(p, t)
    ensures Finished(p) || exists i :: 0 <= i < |p.runners| && p.runners[i].Failed?
  {
    forall i | 0 <= i < |p.runners| ensures p.runners[i].Done? || p.runners[i].Failed? {
      assert !CanGoOn(p, Turn(i, true));
    }
  }

  // ---------------------------------------------------------------- sorting the results

  /** Insertion into a list sorted by `rank`. */
  function Insert<R>(rank: R -> int, r: R, sorted: seq<R>): seq<R> {
    if sorted == [] || rank(r) <= rank(sorted[0]) then [r] + sorted
    else [sorted[0]] + Insert(rank, r, sorted[1..])
  }

  /** sort() by agent id; `rank` numbers the ids in the order of localeCompare. */
  function SortBy<R>(rank: R -> int, rs: seq<R>): seq<R> {
    if rs == [] then [] else Insert(rank, rs[0], SortBy(rank, rs[1..]))
  }

  ghost predicate Ordered<R>(rank: R -> int, rs: seq<R>) {
    forall i, j | 0 <= i < j < |rs| :: rank(rs[i]) <= rank(rs[j])
  }

  ghost predicate DistinctRanks<R>(rank: R -> int, rs: seq<R>) {
    forall i, j | 0 <= i < j < |rs| :: rank(rs[i]) != rank(rs[j])
  }

  lemma {:induction false} InsertKeeps<R>(rank: R -> int, r: R, sorted: seq<R>)
    ensures multiset(Insert(rank, r, sorted)) == multiset(sorted) + multiset{r}
  {
    if sorted != [] && rank(r) > rank(sorted[0]) {
      InsertKeeps(rank, r, sorted[1..]);
      assert sorted == [sorted[0]] + sorted[1..];
    }
  }

  lemma {:induction false} InsertSorts<R>(rank: R -> int, r: R, sorted: seq<R>)
    requires Ordered(rank, sorted)
    ensures Ordered(rank, Insert(rank, r, sorted))
    ensures multiset(Insert(rank, r, sorted)) == multiset(sorted) + multiset{r}
  {
    InsertKeeps(rank, r, sorted);
    if sorted != [] && rank(r) > rank(sorted[0]) {
      var rest := Insert(rank, r, sorted[1..]);
      InsertSorts(rank, r, sorted[1..]);
      forall i | 0 <= i < |rest| ensures rank(sorted[0]) <= rank(rest[i]) {
        assert rest[i] in multiset(rest);
        assert rest[i] == r || rest[i] in sorted[1..];
      }
    }
  }

  lemma {:induction false} SortSorts<R>(rank: R -> int, rs: seq<R>)
    ensures Ordered(rank, SortBy(rank, rs)) && multiset(SortBy(rank, rs)) == multiset(rs)
  {
    if rs != [] {
      SortSorts(rank, rs[1..]);
      InsertSorts(rank, rs[0], SortBy(rank, rs[1..]));
      assert rs == [rs[0]] + rs[1..];
    }
  }

  /** With distinct ranks there is only one sorted arrangement. */
  lemma {:induction false} SortedIsUnique<R>(rank: R -> int, a: seq<R>, b: seq<R>)
    requires multiset(a) == multiset(b)
    requires Ordered(rank, a) && Ordered(rank, b) && DistinctRanks(rank, a)
    ensures a == b
    decreases |a|
  {
    assert |multiset(a)| == |a| && |multiset(b)| == |b|;
    if a != [] {
      SameHead(rank, a, b);
      MultisetHead(a);
      MultisetHead(b);
      Cancel(multiset(a[1..]), multiset(b[1..]), multiset{a[0]});
      SortedIsUnique(rank, a[1..], b[1..]);
      assert a == [a[0]] + a[1..] && b == [b[0]] + b[1..];
    }
  }

  lemma SameHead<R>(rank: R -> int, a: seq<R>, b: seq<R>)
    requires multiset(a) == multiset(b) && a != [] && b != []
    requires Ordered(rank, a) && Ordered(rank, b) && DistinctRanks(rank, a)
    ensures a[0] == b[0]
  {
    assert a[0] in multiset(b) && b[0] in multiset(a);
    var i :| 0 <= i < |b| && b[i] == a[0];
    var j :| 0 <= j < |a| && a[j] == b[0];
    assert rank(a[0]) == rank(b[0]) && j == 0;
  }

  lemma {:induction false} MapKeepsMultiset<T, R>(f: T -> R, a: seq<T>, b: seq<T>)
    requires multiset(a) == multiset(b)
    ensures multiset(Map(f, a)) == multiset(Map(f, b))
    decreases |a|
  {
    assert |multiset(a)| == |a| && |multiset(b)| == |b|;
    if a != [] {
      var x := a[0];
      assert x in multiset(b);
      var rest := RemoveOne(f, b, x);
      RemoveFirst(f, a);
      Cancel(multiset(a[1..]), multiset(rest), multiset{x});
      MapKeepsMultiset(f, a[1..], rest);
    }
  }

  lemma RemoveFirst<T, R>(f: T -> R, a: seq<T>)
    requires a != []
    ensures multiset(a) == multiset(a[1..]) + multiset{a[0]}
    ensures multiset(Map(f, a)) == multiset(Map(f, a[1..])) + multiset{f(a[0])}
  {
    MultisetHead(a);
    MultisetHead(Map(f, a));
    assert Map(f, a)[1..] == Map(f, a[1..]);
  }

  lemma RemoveOne<T, R>(f: T -> R, b: seq<T>, x: T) returns (rest: seq<T>)
    requires x in b
    ensures multiset(b) == multiset(rest) + multiset{x}
    ensures multiset(Map(f, b)) == multiset(Map(f, rest)) + multiset{f(x)}
  {
    var i :| 0 <= i < |b| && b[i] == x;
    rest := b[..i] + b[i + 1..];
    MultisetWithout(b, i);
    MultisetWithout(Map(f, b), i);
    assert Map(f, b)[..i] + Map(f, b)[i + 1..] == Map(f, rest);
  }

  lemma DistinctSurvives<R>(rank: R -> int, a: seq<R>, b: seq<R>)
    requires multiset(a) == multiset(b) && DistinctRanks(rank, a) && Ordered(rank, b)
    ensures DistinctRanks(rank, b)
  {
    SortSorts(rank, a);
    MapKeepsMultiset(rank, a, b);
    DistinctRanksIff(rank, a);
    DistinctRanksIff(rank, b);
  }

  lemma DistinctRanksIff<R>(rank: R -> int, rs: seq<R>)
    ensures DistinctRanks(rank, rs) <==> forall n :: multiset(Map(rank, rs))[n] <= 1
  {
    var ns := Map(rank, rs);
    DistinctIff(ns);
  }

  lemma {:induction false} DistinctIff(ns: seq<int>)
    ensures (forall i, j | 0 <= i < j < |ns| :: ns[i] != ns[j]) <==> (forall n :: multiset(ns)[n] <= 1)
  {
    if forall i, j | 0 <= i < j < |ns| :: ns[i] != ns[j] {
      forall n ensures multiset(ns)[n] <= 1 {
        DistinctOccursOnce(ns, n);
      }
    } else {
      var i, j :| 0 <= i < j < |ns| && ns[i] == ns[j];
      assert ns == ns[..j] + [ns[j]] + ns[j + 1..];
      assert ns[..j][i] == ns[j];
      assert multiset(ns)[ns[j]] >= 2;
    }
  }

  lemma {:induction false} DistinctOccursOnce(ns: seq<int>, n: int)
    requires forall i, j | 0 <= i < j < |ns| :: ns[i] != ns[j]
    ensures multiset(ns)[n] <= 1
  {
    if ns != [] {
      var rest := ns[1..];
      assert ns == [ns[0]] + rest;
      assert forall i | 0 <= i < |rest| :: rest[i] == ns[i + 1];
      DistinctOccursOnce(rest, n);
      assert ns[0] !in rest;
    }
  }

  /** The sorted results of a finished pool are those of running the items one after the other, in any order. */
  lemma SortedResults<T, R>(work: T -> R, rank: R -> int, items: seq<Option<T>>, limit: nat, turns: seq<Turn>, inOrder: seq<T>)
    requires Finished(Run(Open(items, limit), turns))
    requires multiset(inOrder) == multiset(Present(items)) && DistinctRanks(rank, Map(work, inOrder))
    ensures SortBy(rank, Map(work, Run(Open(items, limit), turns).finished)) == SortBy(rank, Map(work, inOrder))
  {
    PoolRunsEachOnce(items, limit, turns);
    var got, want := Map(work, Run(Open(items, limit), turns).finished), Map(work, inOrder);
    MapKeepsMultiset(work, Run(Open(items, limit), turns).finished, inOrder);
    SortSorts(rank, got);
    SortSorts(rank, want);
    DistinctSurvives(rank, want, SortBy(rank, want));
    SortedIsUnique(rank, SortBy(rank, want), SortBy(rank, got));
  }

  /** After sorting by distinct agent ids, neither the schedule, nor the number of runners, nor the order of the items shows. */
  lemma ScheduleDoesNotShow<T, R>(
    work: T -> R, rank: R -> int,
    items1: seq<Option<T>>, limit1: nat, turns1: seq<Turn>, items2: seq<Option<T>>, limit2: nat, turns2: seq<Turn>)
    requires Finished(Run(Open(items1, limit1), turns1)) && Finished(Run(Open(items2, limit2), turns2))
    requires multiset(Present(items1)) == multiset(Present(items2)) && DistinctRanks(rank, Map(work, Present(items1)))
    ensures SortBy(rank, Map(work, Run(Open(items1, limit1), turns1).finished))
         == SortBy(rank, Map(work, Run(Open(items2, limit2), turns2).finished))
  {
    SortedResults(work, rank, items1, limit1, turns1, Present(items1));
    SortedResults(work, rank, items2, limit2, turns2, Present(items1));
  }

  // ---------------------------------------------------------------- the swarm pool

  /** The for-loop that starts one call per item and waits for any of them once enough are in flight. */
  datatype Swarm<R> = Swarm(next: nat, executing: set<nat>, settled: map<nat, R>, waiting: bool)

  /** The loop goes on to its next item, or the call on some item returns. */
  datatype Move = Launch | Settle(index: nat)

  function SwarmStep<T, R>(work: T -> R, items: seq<T>, maxConcurrent: int, s: Swarm<R>, m: Move): Swarm<R> {
    match m
    case Launch =>
      if s.waiting || s.next >= |items| then s
      else
        var executing := s.executing + {s.next};
        Swarm(s.next + 1, executing, s.settled, |executing| >= maxConcurrent)
    case Settle(i) =>
      if i in s.executing && i < |items| then Swarm(s.next, s.executing - {i}, s.settled[i := work(items[i])], false) else s
  }

  function SwarmRun<T, R>(work: T -> R, items: seq<T>, maxConcurrent: int, s: Swarm<R>, moves: seq<Move>): Swarm<R>
    decreases |moves|
  {
    if moves == [] then s else SwarmRun(work, items, maxConcurrent, SwarmStep(work, items, maxConcurrent, s, moves[0]), moves[1..])
  }

  function NoSwarm<R>(): Swarm<R> {
    Swarm(0, {}, map[], false)
  }

  /** Never fewer than one call is let through, whatever the limit. */
  function InFlightLimit(maxConcurrent: int): int {
    if maxConcurrent < 1 then 1 else maxConcurrent
  }

  ghost predicate SwarmInv<T, R>(work: T -> R, items: seq<T>, maxConcurrent: int, s: Swarm<R>) {
    && s.next <= |items|
    && |s.executing| <= InFlightLimit(maxConcurrent)
    && (s.waiting ==> s.executing != {} && |s.executing| >= maxConcurrent)
    && (!s.waiting ==> |s.executing| < InFlightLimit(maxConcurrent))
    && (forall i :: i in s.executing || i in s.settled <==> 0 <= i < s.next)
    && (forall i :: i in s.executing ==> i !in s.settled)
    && (forall i | i in s.settled :: i < |items| && s.settled[i] == work(items[i]))
  }

  lemma SwarmStepInv<T, R>(work: T -> R, items: seq<T>, maxConcurrent: int, s: Swarm<R>, m: Move)
    requires SwarmInv(work, items, maxConcurrent, s)
    ensures SwarmInv(work, items, maxConcurrent, SwarmStep(work, items, maxConcurrent, s, m))
  {
  }

  lemma {:induction false} SwarmRunInv<T, R>(work: T -> R, items: seq<T>, maxConcurrent: int, s: Swarm<R>, moves: seq<Move>)
    requires SwarmInv(work, items, maxConcurrent, s)
    ensures SwarmInv(work, items, maxConcurrent, SwarmRun(work, items, maxConcurrent, s, moves))
    decreases |moves|
  {
    if moves != [] {
      SwarmStepInv(work, items, maxConcurrent, s, moves[0]);
      SwarmRunInv(work, items, maxConcurrent, SwarmStep(work, items, maxConcurrent, s, moves[0]), moves[1..]);
    }
  }

  /** What Promise.all over the list of calls has so far, in input order. */
  function Collected<R>(s: Swarm<R>, n: nat): seq<Option<R>> {
    seq(n, i => if i in s.settled then Some(s.settled[i]) else None)
  }

  /**
   Under every schedule the limit is kept (one call at a time for a limit below one), calls start in
   input order, the loop waits only with the limit reached, and once all calls have settled the
   results are in input order.
   */
  lemma SwarmKeepsOrder<T, R>(work: T -> R, items: seq<T>, maxConcurrent: int, moves: seq<Move>)
    ensures var s := SwarmRun(work, items, maxConcurrent, NoSwarm(), moves);
      && |s.executing| <= (if maxConcurrent < 1 then 1 else maxConcurrent)
      && s.executing !! s.settled.Keys && (forall i :: i in s.executing || i in s.settled.Keys <==> 0 <= i < s.next)
      && (s.waiting ==> s.executing != {} && |s.executing| >= maxConcurrent)
      && (s.next == |items| && s.executing == {} ==>
            Collected(s, |items|) == seq(|items|, i requires 0 <= i < |items| => Some(work(items[i]))))
  {
    SwarmRunInv(work, items, maxConcurrent, NoSwarm(), moves);
    hide SwarmRun, SwarmStep;
  }

  /** The pool never stalls: until every call has settled, some move changes the state. */
  lemma SwarmProgress<T, R>(work: T -> R, items: seq<T>, maxConcurrent: int, moves: seq<Move>)
    requires var s := SwarmRun(work, items, maxConcurrent, NoSwarm(), moves); s.next < |items| || s.executing != {}
    ensures var s := SwarmRun(work, items, maxConcurrent, NoSwarm(), moves);
      exists m: Move :: SwarmStep(work, items, maxConcurrent, s, m) != s
  {
    SwarmRunInv(work, items, maxConcurrent, NoSwarm(), moves);
    var s := SwarmRun(work, items, maxConcurrent, NoSwarm(), moves);
    if s.executing != {} {
      var i :| i in s.executing;
      assert SwarmStep(work, items, maxConcurrent, s, Settle(i)).executing != s.executing;
    } else {
      assert SwarmStep(work, items, maxConcurrent, s, Launch).next != s.next;
    }
  }

  /** A move that does something: a call may be launched, or one in flight settles. */
  ghost predicate CanMove<T, R>(items: seq<T>, s: Swarm<R>, m: Move) {
    match m
    case Launch => !s.waiting && s.next < |items|
    case Settle(i) => i in s.executing && i < |items|
  }

  /** What is left to do: two moves for every item not yet launched, one for every call in flight. */
  function SwarmRemaining<T, R>(items: seq<T>, s: Swarm<R>): int {
    2 * (|items| - s.next) + |s.executing|
  }

  lemma SwarmStepCounts<T, R>(work: T -> R, items: seq<T>, maxConcurrent: int, s: Swarm<R>, m: Move)
    requires SwarmInv(work, items, maxConcurrent, s)
    ensures CanMove(items, s, m) ==> SwarmRemaining(items, SwarmStep(work, items, maxConcurrent, s, m)) == SwarmRemaining(items, s) - 1
    ensures !CanMove(items, s, m) ==> SwarmStep(work, items, maxConcurrent, s, m) == s
  {
    assert s.next !in s.executing;
  }

  ghost predicate AllMove<T, R>(work: T -> R, items: seq<T>, maxConcurrent: int, s: Swarm<R>, moves: seq<Move>)
    decreases |moves|
  {
    moves == [] || (CanMove(items, s, moves[0]) && AllMove(work, items, maxConcurrent, SwarmStep(work, items, maxConcurrent, s, moves[0]), moves[1..]))
  }

  /** Every run of moves that do something takes exactly two moves per item to its end, whatever their order. */
  lemma SwarmTerminates<T, R>(work: T -> R, items: seq<T>, maxConcurrent: int, moves: seq<Move>)
    requires AllMove(work, items, maxConcurrent, NoSwarm(), moves)
    ensures var s := SwarmRun(work, items, maxConcurrent, NoSwarm(), moves);
      && |moves| <= 2 * |items|
      && (|moves| == 2 * |items| <==> s.next == |items| && s.executing == {})
  {
    SwarmRunInv(work, items, maxConcurrent, NoSwarm(), moves);
    SwarmRunCounts(work, items, maxConcurrent, NoSwarm(), moves);
  }

  lemma {:induction false} SwarmRunCounts<T, R>(work: T -> R, items: seq<T>, maxConcurrent: int, s: Swarm<R>, moves: seq<Move>)
    requires SwarmInv(work, items, maxConcurrent, s) && AllMove(work, items, maxConcurrent, s, moves)
    ensures |moves| + SwarmRemaining(items, SwarmRun(work, items, maxConcurrent, s, moves)) == SwarmRemaining(items, s)
    decreases |moves|
  {
    hide SwarmInv, SwarmStep, CanMove, SwarmRemaining;
    if moves != [] {
      SwarmStepInv(work, items, maxConcurrent, s, moves[0]);
      SwarmStepCounts(work, items, maxConcurrent, s, moves[0]);
      SwarmRunCounts(work, items, maxConcurrent, SwarmStep(work, items, maxConcurrent, s, moves[0]), moves[1..]);
    }
  }
}
