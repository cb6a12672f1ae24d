/** The deduplicated, bounded artwork fan-out (internal/api/channeltimeline.go,
  `resolveTimelineThumbs`).

  Goroutines are interleaved: every hand-over on the unbuffered channel, every call, every
  return with its write, every worker's exit and the closing of the channel is one step, and
  the steps may come in any order that is enabled. */
module Thumbs {
  import opened Common

  datatype Key = Key(key: string, season: int, episode: int)

  datatype Thumb = Thumb(url: string, hash: string)

  const CONCURRENCY: nat := 8

  type Resolver = Key -> Thumb

  // ---------------------------------------------------------------- the distinct keys

  function Unique(requested: seq<Key>): seq<Key> {
    if requested == [] then []
    else
      var u, k := Unique(requested[..|requested| - 1]), requested[|requested| - 1];
      if k.key == "" || k in u then u else u + [k]
  }

  lemma {:induction false} UniqueMembers(requested: seq<Key>, k: Key)
    ensures k in Unique(requested) <==> k in requested && k.key != ""
  {
    if requested != [] {
      UniqueMembers(requested[..|requested| - 1], k);
      assert requested == requested[..|requested| - 1] + [requested[|requested| - 1]];
    }
  }

  lemma DistinctSnoc<T>(s: seq<T>, x: T)
    requires Distinct(s) && x !in s
    ensures Distinct(s + [x])
  {
  }

  lemma {:induction false} UniqueDistinct(requested: seq<Key>)
    ensures Distinct(Unique(requested))
  {
    if requested != [] {
      UniqueDistinct(requested[..|requested| - 1]);
      var u, k := Unique(requested[..|requested| - 1]), requested[|requested| - 1];
      if k !in u { DistinctSnoc(u, k); }
    }
  }

  // ---------------------------------------------------------------- the pool

  datatype Worker = Idle | Holding(job: nat) | Calling(job: nat) | Exited

  /** `next` is the next job to send; `called` and `written` list the jobs in the order their
      calls began and their results were written. */
  datatype Pool = Pool(next: nat, closed: bool, workers: seq<Worker>, results: seq<Thumb>,
                       called: seq<nat>, written: seq<nat>)

  datatype Step = HandOver(w: nat) | Call(w: nat) | Return(w: nat) | Close | Exit(w: nat)

  predicate Enabled(n: nat, p: Pool, step: Step) {
    match step
    case HandOver(w) => w < |p.workers| && p.workers[w] == Idle && p.next < n
    case Call(w) => w < |p.workers| && p.workers[w].Holding?
    case Return(w) => w < |p.workers| && p.workers[w].Calling?
    case Close => p.next == n && !p.closed
    case Exit(w) => w < |p.workers| && p.workers[w] == Idle && p.closed
  }

  /** A worker that returns writes its slot; a job without one, which no worker ever has, would
      write nothing. */
  function Next(unique: seq<Key>, resolver: Resolver, p: Pool, step: Step): Pool
    requires Enabled(|unique|, p, step)
  {
    match step
    case HandOver(w) => p.(workers := p.workers[w := Holding(p.next)], next := p.next + 1)
    case Call(w) =>
      var i := p.workers[w].job;
      p.(workers := p.workers[w := Calling(i)], called := p.called + [i])
    case Return(w) =>
      var i := p.workers[w].job;
      var results := if i < |unique| && i < |p.results| then p.results[i := resolver(unique[i])] else p.results;
      p.(workers := p.workers[w := Idle], results := results, written := p.written + [i])
    case Close => p.(closed := true)
    case Exit(w) => p.(workers := p.workers[w := Exited])
  }

  function Start(n: nat): Pool {
    Pool(0, false, seq(if n < CONCURRENCY then n else CONCURRENCY, _ => Idle), seq(n, _ => Thumb("", "")), [], [])
  }

  predicate Finished(p: Pool) {
    forall w :: 0 <= w < |p.workers| ==> p.workers[w].Exited?
  }

  // ---------------------------------------------------------------- the invariant

  predicate Busy(w: Worker) {
    w.Holding? || w.Calling?
  }

  function CallsOut(workers: seq<Worker>): nat {
    if workers == [] then 0 else CallsOut(workers[..|workers| - 1]) + if workers[|workers| - 1].Calling? then 1 else 0
  }

  /** A worker's job has been sent, is not yet written, and is being called if it says so. */
  predicate WorkerOk(p: Pool, w: Worker) {
    && (Busy(w) ==> w.job < p.next && w.job !in p.written && (w.Calling? <==> w.job in p.called))
    && (w.Exited? ==> p.closed)
  }

  predicate HeldBy(p: Pool, w: nat, i: nat) {
    w < |p.workers| && Busy(p.workers[w]) && p.workers[w].job == i
  }

  ghost predicate Held(p: Pool, i: nat) {
    exists w :: HeldBy(p, w, i)
  }

  /** Every sent job is in exactly one place: with one worker, or written. */
  ghost predicate Placed(p: Pool) {
    && (forall w :: 0 <= w < |p.workers| ==> WorkerOk(p, p.workers[w]))
    && (forall v, w, i :: HeldBy(p, v, i) && HeldBy(p, w, i) ==> v == w)
    && (forall i :: 0 <= i < p.next ==> i in p.written || Held(p, i))
  }

  /** Calls and writes happened once each, and what was written is the resolver's answer. */
  ghost predicate Logged(unique: seq<Key>, resolver: Resolver, p: Pool)
    requires |p.results| == |unique| && p.next <= |unique|
  {
    && Distinct(p.called) && Distinct(p.written)
    && (forall i :: i in p.written ==> i < p.next && i in p.called && p.results[i] == resolver(unique[i]))
    && (forall i :: i in p.called ==> i < p.next && (i in p.written || Held(p, i)))
    && |p.called| == |p.written| + CallsOut(p.workers)
  }

  ghost predicate Inv(unique: seq<Key>, resolver: Resolver, p: Pool) {
    && |p.results| == |unique| && p.next <= |unique|
    && Placed(p) && Logged(unique, resolver, p)
    && (p.closed ==> p.next == |unique|)
  }

  lemma {:induction false} NoneOut(workers: seq<Worker>)
    requires forall w :: 0 <= w < |workers| ==> !workers[w].Calling?
    ensures CallsOut(workers) == 0
  {
    if workers != [] {
      NoneOut(workers[..|workers| - 1]);
    }
  }

  lemma StartInv(unique: seq<Key>, resolver: Resolver)
    ensures Inv(unique, resolver, Start(|unique|))
  {
    NoneOut(Start(|unique|).workers);
  }

  lemma {:induction false} CallsOutUpdate(workers: seq<Worker>, w: nat, x: Worker)
    requires w < |workers|
    ensures CallsOut(workers[w := x]) == CallsOut(workers) - (if workers[w].Calling? then 1 else 0) + (if x.Calling? then 1 else 0)
    ensures workers[w].Calling? ==> CallsOut(workers) > 0
  {
    var n := |workers| - 1;
    if w < n {
      assert workers[w := x][..n] == workers[..n][w := x];
      CallsOutUpdate(workers[..n], w, x);
    } else {
      assert workers[w := x][..n] == workers[..n];
    }
  }

  /** Changing one worker leaves every other worker's hold as it was. */
  lemma HeldAfter(p: Pool, q: Pool, w: nat, i: nat)
    requires w < |p.workers| && |q.workers| == |p.workers|
    requires forall v :: 0 <= v < |p.workers| && v != w ==> q.workers[v] == p.workers[v]
    requires Held(p, i) && !HeldBy(p, w, i)
    ensures Held(q, i)
  {
    var v :| HeldBy(p, v, i);
    assert HeldBy(q, v, i);
  }

  lemma HandOverInv(unique: seq<Key>, resolver: Resolver, p: Pool, w: nat)
    requires Inv(unique, resolver, p) && Enabled(|unique|, p, HandOver(w))
    ensures Inv(unique, resolver, Next(unique, resolver, p, HandOver(w)))
  {
    var q := Next(unique, resolver, p, HandOver(w));
    CallsOutUpdate(p.workers, w, Holding(p.next));
    assert HeldBy(q, w, p.next);
    forall i | Held(p, i) ensures Held(q, i) { HeldAfter(p, q, w, i); }
    forall v | 0 <= v < |q.workers| ensures WorkerOk(q, q.workers[v]) { assert WorkerOk(p, p.workers[v]); }
    forall u: nat, v: nat, i: nat | HeldBy(q, u, i) && HeldBy(q, v, i) ensures u == v {
      assert u != w ==> WorkerOk(p, p.workers[u]) && HeldBy(p, u, i);
      assert v != w ==> WorkerOk(p, p.workers[v]) && HeldBy(p, v, i);
    }
  }

  lemma CallInv(unique: seq<Key>, resolver: Resolver, p: Pool, w: nat)
    requires Inv(unique, resolver, p) && Enabled(|unique|, p, Call(w))
    ensures Inv(unique, resolver, Next(unique, resolver, p, Call(w)))
  {
    var q, i := Next(unique, resolver, p, Call(w)), p.workers[w].job;
    CallsOutUpdate(p.workers, w, Calling(i));
    assert WorkerOk(p, p.workers[w]) && HeldBy(p, w, i) && HeldBy(q, w, i);
    DistinctSnoc(p.called, i);
    forall j | Held(p, j) ensures Held(q, j) { if j != i { HeldAfter(p, q, w, j); } }
    forall u, j | HeldBy(q, u, j) ensures HeldBy(p, u, j) {}
    forall v | 0 <= v < |q.workers| ensures WorkerOk(q, q.workers[v]) {
      assert WorkerOk(p, p.workers[v]);
      if v != w && Busy(p.workers[v]) { assert HeldBy(p, v, p.workers[v].job); }
    }
  }

  lemma ReturnInv(unique: seq<Key>, resolver: Resolver, p: Pool, w: nat)
    requires Inv(unique, resolver, p) && Enabled(|unique|, p, Return(w))
    ensures Inv(unique, resolver, Next(unique, resolver, p, Return(w)))
  {
    var q, i := Next(unique, resolver, p, Return(w)), p.workers[w].job;
    CallsOutUpdate(p.workers, w, Idle);
    assert WorkerOk(p, p.workers[w]) && HeldBy(p, w, i);
    DistinctSnoc(p.written, i);
    forall j | Held(p, j) && j != i ensures Held(q, j) { HeldAfter(p, q, w, j); }
    forall u, j | HeldBy(q, u, j) ensures HeldBy(p, u, j) && u != w {}
    forall v | 0 <= v < |q.workers| ensures WorkerOk(q, q.workers[v]) {
      assert WorkerOk(p, p.workers[v]);
      if v != w && Busy(p.workers[v]) { assert HeldBy(p, v, p.workers[v].job); }
    }
  }

  lemma LeaveInv(unique: seq<Key>, resolver: Resolver, p: Pool, step: Step)
    requires Inv(unique, resolver, p) && Enabled(|unique|, p, step) && (step.Close? || step.Exit?)
    ensures Inv(unique, resolver, Next(unique, resolver, p, step))
  {
    var q := Next(unique, resolver, p, step);
    if step.Exit? { CallsOutUpdate(p.workers, step.w, Exited); }
    forall u, j | HeldBy(q, u, j) ensures HeldBy(p, u, j) {}
    forall j | Held(p, j) ensures Held(q, j) {
      var v :| HeldBy(p, v, j);
      assert HeldBy(q, v, j);
    }
    forall v | 0 <= v < |q.workers| ensures WorkerOk(q, q.workers[v]) { assert WorkerOk(p, p.workers[v]); }
  }

  /** Whatever step comes next keeps the invariant. */
  lemma StepInv(unique: seq<Key>, resolver: Resolver, p: Pool, step: Step)
    requires Inv(unique, resolver, p) && Enabled(|unique|, p, step)
    ensures Inv(unique, resolver, Next(unique, resolver, p, step))
    ensures |Next(unique, resolver, p, step).workers| == |p.workers|
  {
    hide Inv;
    match step {
      case HandOver(w) => HandOverInv(unique, resolver, p, w);
      case Call(w) => CallInv(unique, resolver, p, w);
      case Return(w) => ReturnInv(unique, resolver, p, w);
      case _ => LeaveInv(unique, resolver, p, step);
    }
  }

  // ---------------------------------------------------------------- progress

  function Weight(w: Worker): nat {
    match w case Holding(_) => 3 case Calling(_) => 2 case Idle => 1 case Exited => 0
  }

  function Weights(workers: seq<Worker>): nat {
    if workers == [] then 0 else Weights(workers[..|workers| - 1]) + Weight(workers[|workers| - 1])
  }

  /** How many steps a pool can still take, at most. */
  function Left(n: nat, p: Pool): int {
    3 * (n - p.next) + Weights(p.workers) + if p.closed then 0 else 1
  }

  lemma {:induction false} WeightsUpdate(workers: seq<Worker>, w: nat, x: Worker)
    requires w < |workers|
    ensures Weights(workers[w := x]) == Weights(workers) - Weight(workers[w]) + Weight(x)
  {
    var n := |workers| - 1;
    if w < n {
      assert workers[w := x][..n] == workers[..n][w := x];
      WeightsUpdate(workers[..n], w, x);
    } else {
      assert workers[w := x][..n] == workers[..n];
    }
  }

  /** Every step uses up at least one of them. */
  lemma StepProgress(unique: seq<Key>, resolver: Resolver, p: Pool, step: Step)
    requires Inv(unique, resolver, p) && Enabled(|unique|, p, step)
    ensures 0 <= Left(|unique|, Next(unique, resolver, p, step)) < Left(|unique|, p)
  {
    var q := Next(unique, resolver, p, step);
    StepInv(unique, resolver, p, step);
    hide Placed, Logged, Weights;
    match step {
      case HandOver(w) => WeightsUpdate(p.workers, w, Holding(p.next));
      case Call(w) => WeightsUpdate(p.workers, w, Calling(p.workers[w].job));
      case Return(w) => WeightsUpdate(p.workers, w, Idle);
      case Close =>
      case Exit(w) => WeightsUpdate(p.workers, w, Exited);
    }
  }

  /** The pool never gets stuck: until every worker has left, some step is enabled. */
  lemma NeverStuck(unique: seq<Key>, resolver: Resolver, p: Pool) returns (step: Step)
    requires Inv(unique, resolver, p) && !Finished(p)
    ensures Enabled(|unique|, p, step)
  {
    var w :| 0 <= w < |p.workers| && !p.workers[w].Exited?;
    match p.workers[w] {
      case Holding(_) => step := Call(w);
      case Calling(_) => step := Return(w);
      case Idle => step := if p.closed then Exit(w) else if p.next == |unique| then Close else HandOver(w);
      case Exited =>
    }
  }

  // ---------------------------------------------------------------- every schedule

  /** Any enabled steps, one after the other. */
  ghost predicate Schedule(unique: seq<Key>, resolver: Resolver, p: Pool, steps: seq<Step>, end: Pool)
    decreases |steps|
  {
    if steps == [] then p == end
    else
      && Enabled(|unique|, p, steps[0])
      && Schedule(unique, resolver, Next(unique, resolver, p, steps[0]), steps[1..], end)
  }

  lemma {:induction false} ScheduleInv(unique: seq<Key>, resolver: Resolver, p: Pool, steps: seq<Step>, end: Pool)
    requires Inv(unique, resolver, p) && Schedule(unique, resolver, p, steps, end)
    ensures Inv(unique, resolver, end) && |end.workers| == |p.workers|
    ensures |steps| <= Left(|unique|, p) - Left(|unique|, end)
    decreases |steps|
  {
    hide Inv, Enabled, Next, Left;
    if steps != [] {
      StepInv(unique, resolver, p, steps[0]);
      StepProgress(unique, resolver, p, steps[0]);
      ScheduleInv(unique, resolver, Next(unique, resolver, p, steps[0]), steps[1..], end);
    }
  }

  lemma {:induction false} CallsWithinWorkers(workers: seq<Worker>)
    ensures CallsOut(workers) <= |workers|
  {
    if workers != [] {
      CallsWithinWorkers(workers[..|workers| - 1]);
    }
  }

  /** Under every schedule, at every moment: no job is called twice, no result is written twice,
      and at most min(8, n) calls are outstanding. */
  lemma AnyScheduleIsBounded(unique: seq<Key>, resolver: Resolver, steps: seq<Step>, end: Pool)
    requires Schedule(unique, resolver, Start(|unique|), steps, end)
    ensures Distinct(end.called) && Distinct(end.written)
    ensures |end.called| - |end.written| <= 8 && |end.called| - |end.written| <= |unique|
    ensures |end.workers| == if |unique| < 8 then |unique| else 8
    ensures |steps| <= 4 * |unique| + 1
  {
    StartInv(unique, resolver);
    ScheduleInv(unique, resolver, Start(|unique|), steps, end);
    CallsWithinWorkers(end.workers);
    StartWeights(|Start(|unique|).workers|);
    LeftIsNatural(unique, resolver, end);
  }

  lemma LeftIsNatural(unique: seq<Key>, resolver: Resolver, p: Pool)
    requires Inv(unique, resolver, p)
    ensures Left(|unique|, p) >= 0
  {
    hide Placed, Logged;
  }

  lemma {:induction false} StartWeights(n: nat)
    ensures Weights(seq(n, _ => Idle)) == n
  {
    if n > 0 {
      StartWeights(n - 1);
      assert seq(n, _ => Idle)[..n - 1] == seq(n - 1, _ => Idle);
    }
  }

  /** When every worker has left, every job has been called exactly once and its answer stands in
      its slot. */
  lemma FinishedIsComplete(unique: seq<Key>, resolver: Resolver, p: Pool)
    requires Inv(unique, resolver, p) && Finished(p) && (unique != [] ==> p.workers != [])
    ensures forall i :: 0 <= i < |unique| ==> i in p.called && p.results[i] == resolver(unique[i])
    ensures Distinct(p.called) && forall i :: i in p.called ==> i < |unique|
  {
    if unique != [] {
      assert WorkerOk(p, p.workers[0]);
      forall i | 0 <= i < |unique| ensures i in p.written {
        assert !Held(p, i) by {
          forall w: nat ensures !HeldBy(p, w, i) {}
        }
      }
    }
  }

  // ---------------------------------------------------------------- the batch

  /** The sequential loop: ask once per distinct key. */
  function Sequential(requested: seq<Key>, resolver: Resolver): map<Key, Thumb> {
    map k | k in requested && k.key != "" :: resolver(k)
  }

  method Distinguish(requested: seq<Key>) returns (unique: seq<Key>)
    ensures unique == Unique(requested)
  {
    unique := [];
    var seen: set<Key> := {};
    for i := 0 to |requested|
      invariant unique == Unique(requested[..i])
      invariant forall k :: k in seen <==> k in unique
    {
      var key := requested[i];
      assert requested[..i + 1][..i] == requested[..i];
      if key.key == "" || key in seen {
        continue;
      }
      seen := seen + {key};
      unique := unique + [key];
    }
    assert requested[..|requested|] == requested;
  }

  /** The scheduler: any enabled step, nothing more is promised. */
  method PickStep(unique: seq<Key>, resolver: Resolver, p: Pool) returns (step: Step)
    requires Inv(unique, resolver, p) && !Finished(p)
    ensures Enabled(|unique|, p, step)
  {
    ghost var possible := NeverStuck(unique, resolver, p);
    step :| Enabled(|unique|, p, step);
  }

  method RunPool(unique: seq<Key>, resolver: Resolver) returns (results: seq<Thumb>, called: seq<nat>)
    requires unique != []
    ensures |results| == |unique| && forall i :: 0 <= i < |unique| ==> results[i] == resolver(unique[i])
    ensures Distinct(called) && forall i :: i in called <==> 0 <= i < |unique|
  {
    hide Inv, Enabled, Next, Left;
    var p := Start(|unique|);
    StartInv(unique, resolver);
    LeftIsNatural(unique, resolver, p);
    while !Finished(p)
      invariant Inv(unique, resolver, p) && p.workers != [] && Left(|unique|, p) >= 0
      decreases Left(|unique|, p)
    {
      var step := PickStep(unique, resolver, p);
      StepInv(unique, resolver, p, step);
      StepProgress(unique, resolver, p, step);
      p := Next(unique, resolver, p, step);
    }
    FinishedIsComplete(unique, resolver, p);
    ResultsLength(unique, resolver, p);
    return p.results, p.called;
  }

  lemma ResultsLength(unique: seq<Key>, resolver: Resolver, p: Pool)
    requires Inv(unique, resolver, p)
    ensures |p.results| == |unique|
  {
  }

  /** The keys the calls were for. */
  function Asked(unique: seq<Key>, called: seq<nat>): seq<Key>
    requires forall i :: i in called ==> i < |unique|
  {
    seq(|called|, j requires 0 <= j < |called| => assert called[j] in called; unique[called[j]])
  }

  lemma AskedOnce(unique: seq<Key>, called: seq<nat>)
    requires Distinct(unique) && Distinct(called) && forall i :: i in called <==> 0 <= i < |unique|
    ensures Distinct(Asked(unique, called))
    ensures forall k :: k in Asked(unique, called) <==> k in unique
  {
    var asked := Asked(unique, called);
    forall k | k in unique ensures k in asked {
      var i :| 0 <= i < |unique| && unique[i] == k;
      assert i in called;
      var j :| 0 <= j < |called| && called[j] == i;
      assert asked[j] == k;
    }
    forall k | k in asked ensures k in unique {
      var j :| 0 <= j < |asked| && asked[j] == k;
      assert called[j] in called && unique[called[j]] == k;
    }
    forall i, j | 0 <= i < j < |asked| ensures asked[i] != asked[j] {
      assert called[i] in called && called[j] in called;
      assert unique[called[i]] != unique[called[j]];
    }
  }

  /** The batch returns what the sequential loop would, asking once per distinct key; without a
      resolver it asks nothing and returns nothing. */
  method ResolveThumbs(requested: seq<Key>, resolver: Option<Resolver>)
    returns (resolved: map<Key, Thumb>, asked: seq<Key>)
    ensures resolver.None? ==> resolved == map[] && asked == []
    ensures resolver.Some? ==> resolved == Sequential(requested, resolver.value)
    ensures Distinct(asked) && forall k :: k in asked <==> k in resolved
  {
    resolved, asked := map[], [];
    if resolver.None? {
      return;
    }
    var unique := Distinguish(requested);
    forall k ensures k in unique <==> k in requested && k.key != "" { UniqueMembers(requested, k); }
    UniqueDistinct(requested);
    if |unique| == 0 {
      return;
    }
    var results, called := RunPool(unique, resolver.value);
    resolved := Collect(unique, results, resolver.value);
    asked := Asked(unique, called);
    AskedOnce(unique, called);
  }

  method Collect(unique: seq<Key>, results: seq<Thumb>, ghost resolver: Resolver) returns (resolved: map<Key, Thumb>)
    requires |results| == |unique| && forall i :: 0 <= i < |unique| ==> results[i] == resolver(unique[i])
    ensures forall k :: k in resolved <==> k in unique
    ensures forall k :: k in resolved ==> resolved[k] == resolver(k)
  {
    resolved := map[];
    for i := 0 to |unique|
      invariant forall k :: k in resolved <==> k in unique[..i]
      invariant forall k :: k in resolved ==> resolved[k] == resolver(k)
    {
      assert unique[..i + 1] == unique[..i] + [unique[i]];
      resolved := resolved[unique[i] := results[i]];
    }
    assert unique[..|unique|] == unique;
  }
}
