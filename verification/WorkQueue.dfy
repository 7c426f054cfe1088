/** The worker pools of docs/archive/benchmarks/baseline_bench.cpp (run_pool) and
    benchmarks/benchmark_suite.cpp, as a machine over the atomic steps of its threads.

    Every worker repeats: fetch-and-add the shared counter, leave if the value is past the
    last text, else embed that text. run_pool joins the workers and resets the counter
    after each of its iterations; the suite runs a single round.
 */
module WorkQueue {

  datatype Worker = Ready | Claimed(index: nat) | Done

  datatype State = State(next: nat, workers: seq<Worker>, embedded: seq<nat>, round: nat)

  datatype Config = Config(total: nat, sessions: nat, rounds: nat)

  datatype Action = Fetch(w: nat) | Embed(w: nat) | Leave(w: nat) | Join

  function Team(c: Config): seq<Worker> { seq(c.sessions, _ => Ready) }

  function Init(c: Config): State {
    State(0, if c.rounds > 0 then Team(c) else [], seq(c.total, _ => 0), 0)
  }

  predicate AllDone(s: State) { forall w :: 0 <= w < |s.workers| ==> s.workers[w] == Done }

  predicate Enabled(c: Config, s: State, a: Action) {
    match a
    case Fetch(w) => w < |s.workers| && s.workers[w].Ready?
    case Embed(w) => w < |s.workers| && s.workers[w].Claimed? && s.workers[w].index < c.total == |s.embedded|
    case Leave(w) => w < |s.workers| && s.workers[w].Claimed? && s.workers[w].index >= c.total
    case Join => s.round < c.rounds && AllDone(s)
  }

  function Apply(c: Config, s: State, a: Action): State
    requires Enabled(c, s, a)
  {
    match a
    case Fetch(w) => s.(next := s.next + 1, workers := s.workers[w := Claimed(s.next)])
    case Embed(w) =>
      var i := s.workers[w].index;
      s.(embedded := s.embedded[i := s.embedded[i] + 1], workers := s.workers[w := Ready])
    case Leave(w) => s.(workers := s.workers[w := Done])
    case Join => s.(next := 0, round := s.round + 1, workers := if s.round + 1 < c.rounds then Team(c) else [])
  }

  /** A schedule: any interleaving of the workers' steps. */
  predicate Possible(c: Config, s: State, schedule: seq<Action>)
    decreases |schedule|
  {
    schedule == [] || (Enabled(c, s, schedule[0]) && Possible(c, Apply(c, s, schedule[0]), schedule[1..]))
  }

  function After(c: Config, s: State, schedule: seq<Action>): State
    requires Possible(c, s, schedule)
    decreases |schedule|
  {
    if schedule == [] then s else After(c, Apply(c, s, schedule[0]), schedule[1..])
  }

  /* ---- The invariant ---- */

  predicate IsClaimed(s: State, i: nat) {
    exists w :: 0 <= w < |s.workers| && s.workers[w] == Claimed(i)
  }

  // Workers that fetched a value past the last text.
  function Overrun(c: Config, workers: seq<Worker>): nat {
    if workers == [] then 0
    else (if workers[0].Done? || (workers[0].Claimed? && workers[0].index >= c.total) then 1 else 0)
         + Overrun(c, workers[1..])
  }

  ghost predicate Inv(c: Config, s: State) {
    && |s.embedded| == c.total
    && s.round <= c.rounds
    && |s.workers| == (if s.round < c.rounds then c.sessions else 0)
    && (forall w :: 0 <= w < |s.workers| && s.workers[w].Claimed? ==> s.workers[w].index < s.next)
    && (forall v, w :: 0 <= v < w < |s.workers| && s.workers[v].Claimed? ==> s.workers[v] != s.workers[w])
    && (if s.next <= c.total then Overrun(c, s.workers) == 0 else s.next == c.total + Overrun(c, s.workers))
    && (s.round == c.rounds ==> s.next == 0)
    && forall i :: 0 <= i < c.total ==>
         s.embedded[i] == s.round + if i < s.next && !IsClaimed(s, i) then 1 else 0
  }

  lemma {:induction false} OverrunUpdate(c: Config, workers: seq<Worker>, w: nat, x: Worker)
    requires w < |workers|
    ensures Overrun(c, workers[w := x])
            == Overrun(c, workers) - Overrun(c, [workers[w]]) + Overrun(c, [x])
    ensures Overrun(c, workers) >= Overrun(c, [workers[w]])
  {
    if w > 0 {
      assert workers[w := x][1..] == workers[1..][w - 1 := x];
      OverrunUpdate(c, workers[1..], w - 1, x);
    } else {
      assert workers[0 := x][1..] == workers[1..];
    }
  }

  lemma {:induction false} OverrunReady(c: Config, n: nat)
    ensures Overrun(c, seq(n, _ => Ready)) == 0
  {
    if n > 0 {
      assert seq(n, _ => Ready)[1..] == seq(n - 1, _ => Ready);
      OverrunReady(c, n - 1);
    }
  }

  lemma {:induction false} OverrunBounded(c: Config, workers: seq<Worker>)
    ensures Overrun(c, workers) <= |workers|
    ensures (forall w :: 0 <= w < |workers| ==> workers[w] == Done) ==> Overrun(c, workers) == |workers|
  {
    if workers != [] {
      OverrunBounded(c, workers[1..]);
    }
  }

  lemma InitInv(c: Config)
    ensures Inv(c, Init(c))
  {
    OverrunReady(c, c.sessions);
  }

  lemma FetchKeepsInv(c: Config, s: State, w: nat)
    requires Inv(c, s) && Enabled(c, s, Fetch(w))
    ensures Inv(c, Apply(c, s, Fetch(w)))
  {
    var t := Apply(c, s, Fetch(w));
    OverrunUpdate(c, s.workers, w, Claimed(s.next));
    forall i | 0 <= i < c.total ensures IsClaimed(t, i) <==> IsClaimed(s, i) || i == s.next {
      if v :| 0 <= v < |s.workers| && s.workers[v] == Claimed(i) {
        assert t.workers[v] == Claimed(i);
      }
      assert t.workers[w] == Claimed(s.next);
    }
  }

  lemma EmbedKeepsInv(c: Config, s: State, w: nat)
    requires Inv(c, s) && Enabled(c, s, Embed(w))
    ensures Inv(c, Apply(c, s, Embed(w)))
  {
    var t := Apply(c, s, Embed(w));
    var claimed := s.workers[w].index;
    OverrunUpdate(c, s.workers, w, Ready);
    forall i | 0 <= i < c.total ensures IsClaimed(s, i) <==> IsClaimed(t, i) || i == claimed {
      if v :| 0 <= v < |s.workers| && s.workers[v] == Claimed(i) {
        assert v != w ==> t.workers[v] == Claimed(i);
      }
      assert s.workers[w] == Claimed(claimed);
    }
    assert !IsClaimed(t, claimed);
  }

  lemma LeaveKeepsInv(c: Config, s: State, w: nat)
    requires Inv(c, s) && Enabled(c, s, Leave(w))
    ensures Inv(c, Apply(c, s, Leave(w)))
  {
    var t := Apply(c, s, Leave(w));
    OverrunUpdate(c, s.workers, w, Done);
    forall i | 0 <= i < c.total ensures IsClaimed(t, i) <==> IsClaimed(s, i) {
      if v :| 0 <= v < |s.workers| && s.workers[v] == Claimed(i) {
        assert t.workers[v] == Claimed(i);
      }
    }
  }

  /** When all workers have left, every text has been embedded once more than before the
      round began, and the counter has overshot by one per worker. */
  lemma JoinPoint(c: Config, s: State)
    requires Inv(c, s) && s.round < c.rounds && AllDone(s) && c.sessions > 0
    ensures forall i :: 0 <= i < c.total ==> s.embedded[i] == s.round + 1
    ensures s.next == c.total + c.sessions
  {
    OverrunBounded(c, s.workers);
  }

  lemma JoinKeepsInv(c: Config, s: State)
    requires Inv(c, s) && Enabled(c, s, Join) && c.sessions > 0
    ensures Inv(c, Apply(c, s, Join))
  {
    JoinPoint(c, s);
    OverrunReady(c, c.sessions);
  }

  lemma StepKeepsInv(c: Config, s: State, a: Action)
    requires Inv(c, s) && Enabled(c, s, a) && c.sessions > 0
    ensures Inv(c, Apply(c, s, a))
  {
    match a
    case Fetch(w) => FetchKeepsInv(c, s, w);
    case Embed(w) => EmbedKeepsInv(c, s, w);
    case Leave(w) => LeaveKeepsInv(c, s, w);
    case Join => JoinKeepsInv(c, s);
  }

  /* ---- Every step counts down ---- */

  // Steps a worker still has to take: an embed returns it to Ready, a fetch past the end makes it leave.
  function WorkerCost(c: Config, w: Worker): nat {
    match w
    case Ready => 2
    case Claimed(i) => if i < c.total then 3 else 1
    case Done => 0
  }

  function TeamCost(c: Config, workers: seq<Worker>): nat {
    if workers == [] then 0 else WorkerCost(c, workers[0]) + TeamCost(c, workers[1..])
  }

  function RoundCost(c: Config): nat { 2 * c.total + 2 * c.sessions + 1 }

  function RoundsCost(c: Config, n: nat): nat {
    if n == 0 then 0 else RoundsCost(c, n - 1) + RoundCost(c)
  }

  lemma {:induction false} RoundsCostIs(c: Config, n: nat)
    ensures RoundsCost(c, n) == n * RoundCost(c)
  {
    if n > 0 {
      RoundsCostIs(c, n - 1);
      assert n * RoundCost(c) == (n - 1) * RoundCost(c) + RoundCost(c);
    }
  }

  function Remaining(c: Config, s: State): nat
    requires s.round <= c.rounds
  {
    if s.round == c.rounds then 0
    else RoundsCost(c, c.rounds - s.round - 1)
         + (if s.next < c.total then 2 * (c.total - s.next) else 0) + TeamCost(c, s.workers) + 1
  }

  lemma {:induction false} TeamCostUpdate(c: Config, workers: seq<Worker>, w: nat, x: Worker)
    requires w < |workers|
    ensures TeamCost(c, workers[w := x]) == TeamCost(c, workers) - WorkerCost(c, workers[w]) + WorkerCost(c, x)
  {
    if w > 0 {
      assert workers[w := x][1..] == workers[1..][w - 1 := x];
      TeamCostUpdate(c, workers[1..], w - 1, x);
    } else {
      assert workers[0 := x][1..] == workers[1..];
    }
  }

  lemma {:induction false} TeamCostOf(c: Config, workers: seq<Worker>)
    ensures (forall w :: 0 <= w < |workers| ==> workers[w] == Ready) ==> TeamCost(c, workers) == 2 * |workers|
    ensures (forall w :: 0 <= w < |workers| ==> workers[w] == Done) ==> TeamCost(c, workers) == 0
  {
    if workers != [] {
      TeamCostOf(c, workers[1..]);
    }
  }

  lemma StepCountsDown(c: Config, s: State, a: Action)
    requires Inv(c, s) && Enabled(c, s, a) && c.sessions > 0
    ensures Apply(c, s, a).round <= c.rounds && Remaining(c, Apply(c, s, a)) == Remaining(c, s) - 1
  {
    match a
    case Fetch(w) => TeamCostUpdate(c, s.workers, w, Claimed(s.next));
    case Embed(w) => TeamCostUpdate(c, s.workers, w, Ready);
    case Leave(w) => TeamCostUpdate(c, s.workers, w, Done);
    case Join =>
      JoinPoint(c, s);
      TeamCostOf(c, s.workers);
      TeamCostOf(c, Team(c));
  }

  /** As long as a round is open, some worker can move, or all can be joined. */
  lemma NeverStuck(c: Config, s: State)
    requires Inv(c, s) && s.round < c.rounds
    ensures exists a :: Enabled(c, s, a)
  {
    if AllDone(s) {
      assert Enabled(c, s, Join);
    } else {
      var w :| 0 <= w < |s.workers| && s.workers[w] != Done;
      match s.workers[w]
      case Ready => assert Enabled(c, s, Fetch(w));
      case Claimed(i) => assert Enabled(c, s, if i < c.total then Embed(w) else Leave(w));
    }
  }

  /* ---- Whole runs ---- */

  /** Every state that any interleaving reaches satisfies the invariant, and the number of
      steps taken is exactly what the remaining work has gone down by. */
  lemma {:induction false} RunsKeepInv(c: Config, s: State, schedule: seq<Action>)
    requires c.sessions > 0 && Inv(c, s) && Possible(c, s, schedule)
    ensures Inv(c, After(c, s, schedule))
    ensures Remaining(c, s) == |schedule| + Remaining(c, After(c, s, schedule))
    decreases |schedule|
  {
    if schedule != [] {
      StepKeepsInv(c, s, schedule[0]);
      StepCountsDown(c, s, schedule[0]);
      RunsKeepInv(c, Apply(c, s, schedule[0]), schedule[1..]);
    }
  }

  /** Safety over every interleaving: nothing out of range is ever embedded, no text is
      held by two workers, no text runs more than one embedding ahead of its round, and
      the counter never passes total + sessions. */
  lemma AnyInterleavingIsSafe(c: Config, schedule: seq<Action>)
    requires c.sessions > 0 && Possible(c, Init(c), schedule)
    ensures var s := After(c, Init(c), schedule);
            && |s.embedded| == c.total
            && (forall i :: 0 <= i < c.total ==> s.round <= s.embedded[i] <= s.round + 1)
            && (forall v, w :: 0 <= v < w < |s.workers| && s.workers[v].Claimed? ==> s.workers[v] != s.workers[w])
            && s.next <= c.total + c.sessions
  {
    InitInv(c);
    RunsKeepInv(c, Init(c), schedule);
    OverrunBounded(c, After(c, Init(c), schedule).workers);
  }

  /** Every interleaving ends after exactly rounds * (2 total + 2 sessions + 1) steps
      (RoundsCostIs), and then each text has been embedded exactly once per round. A run
      that is not over can always go on. */
  lemma EveryRunEmbedsEachTextOncePerRound(c: Config, schedule: seq<Action>)
    requires c.sessions > 0 && Possible(c, Init(c), schedule)
    ensures |schedule| <= RoundsCost(c, c.rounds)
    ensures var s := After(c, Init(c), schedule);
            if |schedule| == RoundsCost(c, c.rounds)
            then s.embedded == seq(c.total, _ => c.rounds)
            else exists a :: Enabled(c, s, a)
  {
    InitInv(c);
    RunsKeepInv(c, Init(c), schedule);
    InitialWork(c);
    EndsOrGoesOn(c, After(c, Init(c), schedule));
  }

  lemma EndsOrGoesOn(c: Config, s: State)
    requires c.sessions > 0 && Inv(c, s)
    ensures if Remaining(c, s) == 0 then s.embedded == seq(c.total, _ => c.rounds) else exists a :: Enabled(c, s, a)
  {
    if s.round < c.rounds {
      NeverStuck(c, s);
    }
  }

  lemma InitialWork(c: Config)
    ensures Remaining(c, Init(c)) == RoundsCost(c, c.rounds)
  {
    TeamCostOf(c, Team(c));
  }

  function NextAction(c: Config, worker: Worker, w: nat): Action
    requires worker != Done
  {
    match worker
    case Ready => Fetch(w)
    case Claimed(i) => if i < c.total then Embed(w) else Leave(w)
  }

  /** run_pool under an arbitrary scheduler: while a worker is alive, pick any one and let
      it take its next step; join, reset the counter, repeat. Without sessions there is
      nobody to embed anything. */
  method RunPool(total: nat, sessions: nat, rounds: nat) returns (embedded: seq<nat>)
    ensures |embedded| == total && forall i :: 0 <= i < total ==> embedded[i] == if sessions > 0 then rounds else 0
  {
    ghost var c := Config(total, sessions, rounds);
    embedded := seq(total, _ => 0);
    var idx := 0;
    InitInv(c);
    for iter := 0 to rounds
      invariant idx == 0
      invariant sessions > 0 ==> Inv(c, State(0, if iter < rounds then Team(c) else [], embedded, iter))
      invariant sessions == 0 ==> embedded == seq(total, _ => 0)
    {
      var workers: seq<Worker> := seq(sessions, _ => Ready);
      while exists w :: 0 <= w < |workers| && workers[w] != Done
        invariant |workers| == sessions
        invariant sessions > 0 ==> Inv(c, State(idx, workers, embedded, iter))
        invariant sessions == 0 ==> embedded == seq(total, _ => 0)
        decreases Remaining(c, State(idx, workers, embedded, iter))
      {
        var w :| 0 <= w < |workers| && workers[w] != Done;
        ghost var s, a := State(idx, workers, embedded, iter), NextAction(c, workers[w], w);
        StepKeepsInv(c, s, a);
        StepCountsDown(c, s, a);
        match workers[w] {
          case Ready =>
            workers, idx := workers[w := Claimed(idx)], idx + 1;
          case Claimed(i) =>
            if i >= total {
              workers := workers[w := Done];
            } else {
              embedded := embedded[i := embedded[i] + 1];
              workers := workers[w := Ready];
            }
        }
        assert State(idx, workers, embedded, iter) == Apply(c, s, a);
      }
      if sessions > 0 {
        JoinKeepsInv(c, State(idx, workers, embedded, iter));
      }
      idx := 0;
    }
  }

  /* ---- The static split of benchmarks/bench_reranker_compare.cpp ---- */

  /** The queries [start, end) that session s of n gets. */
  function QuerySlice(queries: nat, n: nat, s: nat): (nat, nat)
    requires s < n
  {
    var share := if queries / n == 0 then 1 else queries / n;
    (s * share, if s == n - 1 then queries else s * share + share)
  }

  predicate InSlice(queries: nat, n: nat, s: nat, q: int)
    requires s < n
  {
    QuerySlice(queries, n, s).0 <= q < QuerySlice(queries, n, s).1
  }

  lemma ShareBounds(queries: nat, n: nat)
    requires n > 0
    ensures n * (queries / n) <= queries
    ensures queries / n == 0 <==> queries < n
  {
  }

  // With enough queries the slices are consecutive.
  lemma SlicesCover(queries: nat, n: nat, q: nat)
    requires 0 < n <= queries && q < queries
    ensures exists s: nat :: s < n && InSlice(queries, n, s, q)
  {
    var share := queries / n;
    ShareBounds(queries, n);
    var s := q / share;
    assert s * share <= q < s * share + share;
    if s < n - 1 {
      assert InSlice(queries, n, s, q);
    } else {
      Times(n - 1, s, share);
      assert InSlice(queries, n, n - 1, q);
    }
  }

  lemma Times(a: nat, b: nat, c: nat)
    requires a <= b
    ensures a * c <= b * c
  {
  }

  lemma SliceEnds(queries: nat, n: nat, s: nat, t: nat)
    requires s < t < n <= queries
    ensures QuerySlice(queries, n, s).1 <= QuerySlice(queries, n, t).0 <= queries
  {
    var share := queries / n;
    ShareBounds(queries, n);
    Times(s + 1, t, share);
    assert s * share + share == (s + 1) * share;
    Times(t, n, share);
  }

  ghost predicate Covered(queries: nat, n: nat, q: nat) {
    exists s: nat :: s < n && InSlice(queries, n, s, q)
  }

  ghost predicate SplitInBounds(queries: nat, n: nat) {
    forall s: nat, q: nat :: s < n && InSlice(queries, n, s, q) ==> q < queries
  }

  ghost predicate SplitCovers(queries: nat, n: nat) {
    forall q: nat :: q < queries ==> Covered(queries, n, q)
  }

  ghost predicate SplitDisjoint(queries: nat, n: nat) {
    forall s: nat, t: nat, q: nat :: s < t < n && InSlice(queries, n, s, q) ==> !InSlice(queries, n, t, q)
  }

  lemma EnoughQueries(queries: nat, n: nat)
    requires 0 < n <= queries
    ensures SplitInBounds(queries, n) && SplitCovers(queries, n) && SplitDisjoint(queries, n)
  {
    forall s: nat, t: nat, q: nat | s < t < n && InSlice(queries, n, s, q) ensures !InSlice(queries, n, t, q) {
      SliceEnds(queries, n, s, t);
    }
    forall s: nat, q: nat | s < n && InSlice(queries, n, s, q) ensures q < queries {
      if s < n - 1 {
        SliceEnds(queries, n, s, n - 1);
      }
    }
    forall q: nat | q < queries ensures Covered(queries, n, q) {
      SlicesCover(queries, n, q);
    }
  }

  lemma OneSpareSession(queries: nat, n: nat)
    requires n == queries + 1
    ensures SplitInBounds(queries, n) && SplitCovers(queries, n) && SplitDisjoint(queries, n)
  {
    ShareBounds(queries, n);
    forall q: nat | q < queries ensures Covered(queries, n, q) {
      assert InSlice(queries, n, q, q);
    }
  }

  /** The split reads only existing queries, and gives every query to exactly one session,
      exactly when there is at most one more session than there are queries. With more,
      some session reads past the end of the query list. */
  lemma SplitIsExactIff(queries: nat, n: nat)
    requires n > 0
    ensures n <= queries + 1 <==>
              SplitInBounds(queries, n) && SplitCovers(queries, n) && SplitDisjoint(queries, n)
  {
    if n <= queries {
      EnoughQueries(queries, n);
    } else if n == queries + 1 {
      OneSpareSession(queries, n);
    } else {
      ShareBounds(queries, n);
      assert InSlice(queries, n, queries, queries);
    }
  }

  /** While there are enough queries every session but the last gets queries / n of them, one
      slice behind the other, and the last one the rest. */
  lemma SliceSizes(queries: nat, n: nat, s: nat)
    requires s < n <= queries
    ensures QuerySlice(queries, n, 0).0 == 0 && QuerySlice(queries, n, n - 1).1 == queries
    ensures s < n - 1 ==>
              && QuerySlice(queries, n, s).1 == QuerySlice(queries, n, s + 1).0
              && QuerySlice(queries, n, s).1 - QuerySlice(queries, n, s).0 == queries / n
  {
    ShareBounds(queries, n);
    assert (s + 1) * (queries / n) == s * (queries / n) + queries / n;
  }
}
