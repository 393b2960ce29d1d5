/** Two threads, a bounded stock and two semaphores. The check of the bound, the wait, the update
    of the stock and the post are separate atomic steps, interleaved in any order. */
module ProducerConsumer {

  /** Where a thread is: at the test of its inner loop, at `sem_wait`, at the update of the stock,
      at `sem_post`, or past its last iteration. */
  datatype Pc = Check | Wait | Update | Post | Done

  /** `made` and `used` are the two loop counters. */
  datatype State = State(stock: int, semP: nat, semC: nat, p: Pc, made: nat, c: Pc, used: nat)

  datatype Thread = Producer | Consumer

  function Next(i: nat, n: nat): Pc { if i < n then Check else Done }

  function Init(n: nat): State {
    State(0, 0, 0, Next(0, n), 0, Next(0, n), 0)
  }

  predicate Enabled(s: State, t: Thread) {
    match t
    case Producer => s.p != Done && (s.p == Wait ==> s.semC > 0)
    case Consumer => s.c != Done && (s.c == Wait ==> s.semP > 0)
  }

  function Step(n: nat, limit: nat, s: State, t: Thread): State
    requires Enabled(s, t)
  {
    match t
    case Producer => (
      match s.p
      case Check => s.(p := if limit == s.stock then Wait else Update)
      case Wait => s.(semC := s.semC - 1, p := Check)
      case Update => s.(stock := s.stock + 1, p := Post)
      case Post => s.(semP := s.semP + 1, made := s.made + 1, p := Next(s.made + 1, n))
      )
    case Consumer => (
      match s.c
      case Check => s.(c := if 0 == s.stock then Wait else Update)
      case Wait => s.(semP := s.semP - 1, c := Check)
      case Update => s.(stock := s.stock - 1, c := Post)
      case Post => s.(semC := s.semC + 1, used := s.used + 1, c := Next(s.used + 1, n))
      )
  }

  /** A schedule every step of which can be taken. */
  ghost predicate Possible(n: nat, limit: nat, ts: seq<Thread>)
    decreases |ts|, 0
  {
    ts == [] ||
    (Possible(n, limit, ts[..|ts| - 1]) && Enabled(After(n, limit, ts[..|ts| - 1]), ts[|ts| - 1]))
  }

  ghost function After(n: nat, limit: nat, ts: seq<Thread>): State
    requires Possible(n, limit, ts)
    decreases |ts|, 1
  {
    if ts == [] then Init(n)
    else Step(n, limit, After(n, limit, ts[..|ts| - 1]), ts[|ts| - 1])
  }

  function Produced(s: State): nat { s.made + if s.p == Post then 1 else 0 }
  function Consumed(s: State): nat { s.used + if s.c == Post then 1 else 0 }

  /** A thread at its wait has enough tokens, available or about to be posted, for what it waits for. */
  ghost predicate Inv(n: nat, limit: nat, s: State) {
    && s.stock == Produced(s) - Consumed(s)
    && 0 <= s.stock <= limit
    && (s.p == Update ==> s.stock < limit)
    && (s.c == Update ==> s.stock > 0)
    && (s.p == Wait ==> limit - s.stock <= s.semC + if s.c == Post then 1 else 0)
    && (s.c == Wait ==> s.stock <= s.semP + if s.p == Post then 1 else 0)
    && s.made <= n && (s.p == Done <==> s.made == n)
    && s.used <= n && (s.c == Done <==> s.used == n)
  }

  lemma StepKeepsInv(n: nat, limit: nat, s: State, t: Thread)
    requires limit >= 1 && Inv(n, limit, s) && Enabled(s, t)
    ensures Inv(n, limit, Step(n, limit, s, t))
  {
  }

  /** In every reachable state the stock is what was produced less what was consumed, and within
      its bounds, although the check and the update are separate steps. */
  lemma {:induction false} StockStaysInBounds(n: nat, limit: nat, ts: seq<Thread>)
    requires limit >= 1 && Possible(n, limit, ts)
    ensures Inv(n, limit, After(n, limit, ts))
  {
    if ts != [] {
      var past := ts[..|ts| - 1];
      StockStaysInBounds(n, limit, past);
      StepKeepsInv(n, limit, After(n, limit, past), ts[|ts| - 1]);
    }
  }

  /** No reachable state has every unfinished thread blocked. */
  lemma NoDeadlock(n: nat, limit: nat, ts: seq<Thread>)
    requires limit >= 1 && Possible(n, limit, ts)
    ensures var s := After(n, limit, ts);
      (exists t :: Enabled(s, t)) <==> !(s.p == Done && s.c == Done)
  {
    StockStaysInBounds(n, limit, ts);
    var s := After(n, limit, ts);
    if !(s.p == Done && s.c == Done) {
      assert Enabled(s, Producer) || Enabled(s, Consumer);
    }
  }

  function Rank(pc: Pc): nat {
    match pc
    case Check => 3
    case Wait => 2
    case Update => 2
    case Post => 1
    case Done => 0
  }

  /** Iterations left, tokens still to be posted or taken, and program counters. */
  function Measure(n: nat, s: State): int {
    3 * (n - s.made) + Rank(s.p) + 3 * (n - s.used) + Rank(s.c)
    + 2 * (s.semP + n - s.made) + 2 * (s.semC + n - s.used)
  }

  lemma StepDecreases(n: nat, limit: nat, s: State, t: Thread)
    requires Inv(n, limit, s) && Enabled(s, t)
    ensures Measure(n, Step(n, limit, s, t)) < Measure(n, s)
  {
  }

  lemma {:induction false} RunIsShort(n: nat, limit: nat, ts: seq<Thread>)
    requires limit >= 1 && Possible(n, limit, ts)
    ensures |ts| + Measure(n, After(n, limit, ts)) <= 10 * n + 6
  {
    if ts != [] {
      var past := ts[..|ts| - 1];
      RunIsShort(n, limit, past);
      StockStaysInBounds(n, limit, past);
      StepDecreases(n, limit, After(n, limit, past), ts[|ts| - 1]);
    }
  }

  /** Every run ends, after at most 10n + 6 steps whatever the schedule, and where no step is left
      n items have been produced and consumed and the stock is empty. */
  lemma EveryRunFinishes(n: nat, limit: nat, ts: seq<Thread>)
    requires limit >= 1 && Possible(n, limit, ts)
    ensures |ts| <= 10 * n + 6
    ensures var s := After(n, limit, ts);
      (forall t :: !Enabled(s, t)) <==> Produced(s) == Consumed(s) == n && s.stock == 0 && s.p == Done && s.c == Done
  {
    RunIsShort(n, limit, ts);
    StockStaysInBounds(n, limit, ts);
    NoDeadlock(n, limit, ts);
    var s := After(n, limit, ts);
    assert Measure(n, s) >= 0;
  }

  /** The shared variables and the two threads, changed in place. */
  class Shop {
    const n: nat
    const limit: nat
    var stock: int
    var semP: nat
    var semC: nat
    var p: Pc
    var made: nat
    var c: Pc
    var used: nat

    function Abs(): State
      reads this
    {
      State(stock, semP, semC, p, made, c, used)
    }

    constructor (n: nat, limit: nat)
      ensures this.n == n && this.limit == limit && Abs() == Init(n)
    {
      this.n, this.limit := n, limit;
      stock, semP, semC := 0, 0, 0;
      p, made, c, used := Next(0, n), 0, Next(0, n), 0;
    }

    method ProducerStep()
      requires Enabled(Abs(), Producer)
      modifies this
      ensures Abs() == Step(n, limit, old(Abs()), Producer)
    {
      match p
      case Check =>
        p := if limit == stock then Wait else Update;
      case Wait =>
        semC := semC - 1;
        p := Check;
      case Update =>
        stock := stock + 1;
        p := Post;
      case Post =>
        semP := semP + 1;
        made := made + 1;
        p := if made < n then Check else Done;
    }

    method ConsumerStep()
      requires Enabled(Abs(), Consumer)
      modifies this
      ensures Abs() == Step(n, limit, old(Abs()), Consumer)
    {
      match c
      case Check =>
        c := if 0 == stock then Wait else Update;
      case Wait =>
        semP := semP - 1;
        c := Check;
      case Update =>
        stock := stock - 1;
        c := Post;
      case Post =>
        semC := semC + 1;
        used := used + 1;
        c := if used < n then Check else Done;
    }

    /** Both threads under an arbitrary scheduler. That one of the guards always holds is freedom
        from deadlock; that the loop ends is termination. */
    method RunBoth()
      requires limit >= 1 && Abs() == Init(n)
      modifies this
      ensures p == Done && c == Done && made == n && used == n && stock == 0
    {
      while !(p == Done && c == Done)
        invariant Inv(n, limit, Abs())
        decreases Measure(n, Abs())
      {
        if
        case p != Done && (p == Wait ==> semC > 0) =>
          StepKeepsInv(n, limit, Abs(), Producer);
          StepDecreases(n, limit, Abs(), Producer);
          ProducerStep();
        case c != Done && (c == Wait ==> semP > 0) =>
          StepKeepsInv(n, limit, Abs(), Consumer);
          StepDecreases(n, limit, Abs(), Consumer);
          ConsumerStep();
      }
    }
  }
}
