/**
 The bandwidth limiter: bytes admitted in the last ten phases, kept in a ring, against a budget
 that is split into a shared part and a part reserved for the connections of a server.
 */
module BandwidthLimiter {
  type Conn = string

  const PHASES := 10

  datatype Limits = Limits(maxThroughput: int, reserveRate: real, isServer: bool)

  /** Conversion of a number to an integer drops the fraction, towards zero. */
  function Truncate(x: real): int {
    if x >= 0.0 then x.Floor else -((-x).Floor)
  }

  function TruncatedDiv(a: int, n: nat): int
    requires n > 0
  {
    if a >= 0 then a / n else -(-a / n)
  }

  function PrivateBudget(lim: Limits): int {
    Truncate(lim.maxThroughput as real * lim.reserveRate)
  }

  function SharedBudget(lim: Limits): int {
    Truncate(lim.maxThroughput as real * (1.0 - lim.reserveRate))
  }

  function Sum(ring: seq<int>): int {
    if ring == [] then 0 else Sum(ring[..|ring| - 1]) + ring[|ring| - 1]
  }

  function MinInt(a: int, b: int, c: int): (m: int)
    ensures m <= a && m <= b && m <= c && (m == a || m == b || m == c)
  {
    var ab := if b < a then b else a;
    if c < ab then c else ab
  }

  // ---------- what the code does ----------

  datatype State = State(phase: nat, shared: seq<int>, private: map<Conn, seq<int>>)

  datatype Event = Ask(conn: Conn, size: int) | Tick | Register(conn: Conn) | Unregister(conn: Conn)

  const ZEROS: seq<int> := [0, 0, 0, 0, 0, 0, 0, 0, 0, 0]

  ghost predicate RingsInShape(s: State) {
    s.phase < PHASES && |s.shared| == PHASES && forall conn | conn in s.private :: |s.private[conn]| == PHASES
  }

  function Add(ring: seq<int>, phase: nat, delta: int): seq<int>
    requires phase < |ring|
  {
    ring[phase := ring[phase] + delta]
  }

  /** What is left of the connection's share of the reserved budget. */
  function PrivateLeft(lim: Limits, s: State, conn: Conn): int
    requires lim.isServer ==> conn in s.private
  {
    if lim.isServer then TruncatedDiv(PrivateBudget(lim), |s.private|) - Sum(s.private[conn]) else 0
  }

  predicate Allows(lim: Limits, s: State, conn: Conn, size: int) {
    && lim.maxThroughput != 0
    && size >= 0
    && (lim.isServer ==> conn in s.private)
    && size <= PrivateLeft(lim, s, conn) + SharedBudget(lim) - Sum(s.shared)
  }

  /** The bytes charged to the connection's own ring; the rest goes to the shared ring. */
  function PrivateCharge(lim: Limits, s: State, conn: Conn, size: int): int
    requires lim.isServer ==> conn in s.private
  {
    if lim.isServer then MinInt(PrivateLeft(lim, s, conn), size, 0) else 0
  }

  function Admit(isServer: bool, s: State, conn: Conn, size: int, charge: int): State
    requires RingsInShape(s) && (isServer ==> conn in s.private)
  {
    State(s.phase,
          Add(s.shared, s.phase, size - charge),
          if isServer then s.private[conn := Add(s.private[conn], s.phase, charge)] else s.private)
  }

  function Apply(lim: Limits, s: State, e: Event): (State, bool)
    requires RingsInShape(s)
  {
    match e
    case Ask(conn, size) =>
      if !Allows(lim, s, conn, size) then (s, false)
      else (Admit(lim.isServer, s, conn, size, PrivateCharge(lim, s, conn, size)), true)
    case Tick =>
      var phase := if s.phase + 1 >= PHASES then 0 else s.phase + 1;
      (State(phase, s.shared[phase := 0], map conn | conn in s.private :: s.private[conn][phase := 0]), true)
    case Register(conn) =>
      (if lim.maxThroughput == 0 || conn in s.private then s else s.(private := s.private[conn := ZEROS]), true)
    case Unregister(conn) => (if lim.maxThroughput == 0 then s else s.(private := s.private - {conn}), true)
  }

  const START := State(0, ZEROS, map[])

  // ---------- one shared budget ----------

  /** The reference: bytes admitted in every phase since the start, and the registered connections. */
  datatype Simple = Simple(totals: seq<nat>, conns: set<Conn>)

  /** One budget for everybody: the shared part and one connection's share of the reserved part. */
  function Budget(lim: Limits, conns: set<Conn>): int
    requires lim.isServer ==> conns != {}
  {
    SharedBudget(lim) + if lim.isServer then TruncatedDiv(PrivateBudget(lim), |conns|) else 0
  }

  /** The last ten phases, oldest first; before the start nothing was admitted. */
  function Window(totals: seq<nat>): (r: seq<int>)
    ensures |r| == PHASES
  {
    (ZEROS + totals)[|totals|..]
  }

  predicate SimpleAllows(lim: Limits, m: Simple, conn: Conn, size: int) {
    && lim.maxThroughput != 0
    && size >= 0
    && (lim.isServer ==> conn in m.conns)
    && Sum(Window(m.totals)) + size <= Budget(lim, m.conns)
  }

  function SimpleApply(lim: Limits, m: Simple, e: Event): (Simple, bool)
    requires m.totals != []
  {
    match e
    case Ask(conn, size) =>
      if SimpleAllows(lim, m, conn, size) then
        (m.(totals := AddToLast(m.totals, size)), true)
      else (m, false)
    case Tick => (m.(totals := m.totals + [0]), true)
    case Register(conn) => (if lim.maxThroughput == 0 then m else m.(conns := m.conns + {conn}), true)
    case Unregister(conn) => (if lim.maxThroughput == 0 then m else m.(conns := m.conns - {conn}), true)
  }

  const SIMPLE_START := Simple([0], {})

  // ---------- the ring shows the window ----------

  /** Ring, phase and window agree, and the connections' own rings are empty. */
  ghost predicate Shows(s: State, m: Simple) {
    && RingsInShape(s)
    && m.totals != []
    && s.private.Keys == m.conns
    && (forall conn | conn in s.private :: s.private[conn] == ZEROS)
    && s.shared == Window(m.totals)[PHASES - 1 - s.phase..] + Window(m.totals)[..PHASES - 1 - s.phase]
  }

  /** Budgets that are not negative: no negative maximum and no negative reserve rate. */
  predicate Sane(lim: Limits) {
    lim.maxThroughput >= 0 && lim.reserveRate >= 0.0
  }

  lemma {:induction false} SumConcat(a: seq<int>, b: seq<int>)
    ensures Sum(a + b) == Sum(a) + Sum(b)
    decreases |b|
  {
    if b == [] {
      assert a + b == a;
    } else {
      SumConcat(a, b[..|b| - 1]);
      assert (a + b)[..|a + b| - 1] == a + b[..|b| - 1];
    }
  }

  lemma {:induction false} SumZeros(ring: seq<int>)
    requires forall i | 0 <= i < |ring| :: ring[i] == 0
    ensures Sum(ring) == 0
  {
    if ring != [] {
      SumZeros(ring[..|ring| - 1]);
    }
  }

  /** The sum over the ring is the number of bytes admitted in the last ten phases. */
  lemma RingSumIsWindowSum(s: State, m: Simple)
    requires Shows(s, m)
    ensures Sum(s.shared) == Sum(Window(m.totals))
  {
    var w, k := Window(m.totals), PHASES - 1 - s.phase;
    SumConcat(w[k..], w[..k]);
    SumConcat(w[..k], w[k..]);
    assert w == w[..k] + w[k..];
  }

  lemma BudgetsAreNotNegative(lim: Limits)
    requires Sane(lim)
    ensures PrivateBudget(lim) >= 0 && SharedBudget(lim) + PrivateBudget(lim) <= lim.maxThroughput
  {
    var x := lim.maxThroughput as real * lim.reserveRate;
    assert x >= 0.0;
    assert lim.maxThroughput as real * (1.0 - lim.reserveRate) == lim.maxThroughput as real - x;
  }

  /** A connection's own ring is never charged, so its whole share is always left. */
  lemma NeverChargesPrivate(lim: Limits, s: State, m: Simple, conn: Conn, size: int)
    requires Sane(lim) && Shows(s, m) && size >= 0 && (lim.isServer ==> conn in s.private)
    ensures PrivateCharge(lim, s, conn, size) == 0
    ensures PrivateLeft(lim, s, conn) + SharedBudget(lim) == Budget(lim, m.conns)
  {
    BudgetsAreNotNegative(lim);
    SumZeros(ZEROS);
    assert lim.isServer ==> |s.private| == |m.conns|;
  }

  lemma AnswersAgree(lim: Limits, s: State, m: Simple, conn: Conn, size: int)
    requires Sane(lim) && Shows(s, m)
    ensures Allows(lim, s, conn, size) <==> SimpleAllows(lim, m, conn, size)
    ensures Allows(lim, s, conn, size) ==> PrivateCharge(lim, s, conn, size) == 0
  {
    RingSumIsWindowSum(s, m);
    if size >= 0 && (lim.isServer ==> conn in s.private) {
      NeverChargesPrivate(lim, s, m, conn, size);
    }
  }

  lemma AskShows(lim: Limits, s: State, m: Simple, conn: Conn, size: int)
    requires Sane(lim) && Shows(s, m)
    ensures var (s', ok), (m', yes) := Apply(lim, s, Ask(conn, size)), SimpleApply(lim, m, Ask(conn, size));
            ok == yes && Shows(s', m')
  {
    AnswersAgree(lim, s, m, conn, size);
    if SimpleAllows(lim, m, conn, size) {
      AdmitShows(lim.isServer, s, m, conn, size);
    }
  }

  lemma StepShows(lim: Limits, s: State, m: Simple, e: Event)
    requires Sane(lim) && Shows(s, m)
    ensures var (s', ok), (m', yes) := Apply(lim, s, e), SimpleApply(lim, m, e);
            ok == yes && Shows(s', m')
  {
    match e
    case Ask(conn, size) => AskShows(lim, s, m, conn, size);
    case Tick => TickShows(s, m);
    case Register(conn) =>
    case Unregister(conn) =>
  }

  function AddToLast(totals: seq<nat>, size: nat): (r: seq<nat>)
    requires totals != []
    ensures |r| == |totals|
  {
    totals[|totals| - 1 := totals[|totals| - 1] + size]
  }

  lemma AdmitShows(isServer: bool, s: State, m: Simple, conn: Conn, size: nat)
    requires Shows(s, m) && (isServer ==> conn in s.private)
    ensures Shows(Admit(isServer, s, conn, size, 0), m.(totals := AddToLast(m.totals, size)))
  {
    var w, w' := Window(m.totals), Window(AddToLast(m.totals, size));
    assert w' == w[PHASES - 1 := w[PHASES - 1] + size];
    assert Add(ZEROS, s.phase, 0) == ZEROS;
  }

  lemma TickShows(s: State, m: Simple)
    requires Shows(s, m)
    ensures var phase := if s.phase + 1 >= PHASES then 0 else s.phase + 1;
            Shows(State(phase, s.shared[phase := 0], map conn | conn in s.private :: s.private[conn][phase := 0]),
                  m.(totals := m.totals + [0]))
  {
    var phase := if s.phase + 1 >= PHASES then 0 else s.phase + 1;
    assert Window(m.totals + [0]) == Window(m.totals)[1..] + [0];
    SlotExpires(Window(m.totals), s.phase, s.shared);
    assert ZEROS[phase := 0] == ZEROS;
  }

  /** The slot of the next phase is that of the oldest one. */
  lemma SlotExpires(w: seq<int>, phase: nat, ring: seq<int>)
    requires |w| == PHASES && phase < PHASES && ring == w[PHASES - 1 - phase..] + w[..PHASES - 1 - phase]
    ensures var next, later := if phase + 1 >= PHASES then 0 else phase + 1, w[1..] + [0];
            ring[next := 0] == later[PHASES - 1 - next..] + later[..PHASES - 1 - next]
  {
  }

  // ---------- runs ----------

  function Run(lim: Limits, s: State, es: seq<Event>): seq<bool>
    requires RingsInShape(s)
    decreases |es|
  {
    if es == [] then []
    else
      var (s', ok) := Apply(lim, s, es[0]);
      [ok] + Run(lim, s', es[1..])
  }

  function SimpleRun(lim: Limits, m: Simple, es: seq<Event>): seq<bool>
    requires m.totals != []
    decreases |es|
  {
    if es == [] then []
    else
      var (m', ok) := SimpleApply(lim, m, es[0]);
      [ok] + SimpleRun(lim, m', es[1..])
  }

  lemma {:induction false} RunShows(lim: Limits, s: State, m: Simple, es: seq<Event>)
    requires Sane(lim) && Shows(s, m)
    ensures Run(lim, s, es) == SimpleRun(lim, m, es)
    decreases |es|
  {
    if es != [] {
      StepShows(lim, s, m, es[0]);
      RunShows(lim, Apply(lim, s, es[0]).0, SimpleApply(lim, m, es[0]).0, es[1..]);
    }
  }

  /** The limiter with its rings answers every sequence of events as one shared budget does. */
  lemma LimiterIsOneSharedBudget(lim: Limits, es: seq<Event>)
    requires Sane(lim)
    ensures Run(lim, START, es) == SimpleRun(lim, SIMPLE_START, es)
  {
    RunShows(lim, START, SIMPLE_START, es);
  }

  function After(lim: Limits, m: Simple, es: seq<Event>): (r: Simple)
    requires m.totals != []
    ensures r.totals != []
    decreases |es|
  {
    if es == [] then m else After(lim, SimpleApply(lim, m, es[0]).0, es[1..])
  }

  lemma ShareBelowWhole(a: nat, n: nat)
    requires n > 0
    ensures 0 <= TruncatedDiv(a, n) <= a
  {
    var q := a / n;
    assert a == q * n + a % n;
    MulGrows(q, n);
  }

  lemma {:induction false} MulGrows(q: nat, n: nat)
    requires n > 0
    ensures q <= q * n
  {
    if n > 1 {
      MulGrows(q, n - 1);
      assert q * n == q * (n - 1) + q;
    }
  }

  lemma BudgetBelowMaximum(lim: Limits, conns: set<Conn>)
    requires Sane(lim) && (lim.isServer ==> conns != {})
    ensures Budget(lim, conns) <= lim.maxThroughput
  {
    BudgetsAreNotNegative(lim);
    if lim.isServer {
      ShareBelowWhole(PrivateBudget(lim), |conns|);
    }
  }

  lemma AdmitAddsToWindow(totals: seq<nat>, size: nat)
    requires totals != []
    ensures Sum(Window(AddToLast(totals, size))) == Sum(Window(totals)) + size
  {
    var more := AddToLast(totals, size);
    assert Window(more)[..PHASES - 1] == Window(totals)[..PHASES - 1];
  }

  lemma TickForgetsOldest(totals: seq<nat>)
    ensures Sum(Window(totals + [0])) == Sum(Window(totals)) - Window(totals)[0]
  {
    var w := Window(totals);
    assert Window(totals + [0]) == w[1..] + [0];
    SumConcat(w[1..], [0]);
    SumConcat([w[0]], w[1..]);
    assert w == [w[0]] + w[1..];
    assert Sum([w[0]]) == w[0] && Sum([0]) == 0;
  }

  lemma WindowStep(lim: Limits, m: Simple, e: Event)
    requires Sane(lim) && m.totals != [] && Sum(Window(m.totals)) <= lim.maxThroughput
    ensures Sum(Window(SimpleApply(lim, m, e).0.totals)) <= lim.maxThroughput
  {
    if e.Tick? {
      TickForgetsOldest(m.totals);
    } else if e.Ask? && SimpleAllows(lim, m, e.conn, e.size) {
      BudgetBelowMaximum(lim, m.conns);
      AdmitAddsToWindow(m.totals, e.size);
    }
  }

  lemma {:induction false} WindowStaysBelow(lim: Limits, m: Simple, es: seq<Event>)
    requires Sane(lim) && m.totals != [] && Sum(Window(m.totals)) <= lim.maxThroughput
    ensures Sum(Window(After(lim, m, es).totals)) <= lim.maxThroughput
    decreases |es|
  {
    if es != [] {
      WindowStep(lim, m, es[0]);
      WindowStaysBelow(lim, SimpleApply(lim, m, es[0]).0, es[1..]);
    }
  }

  /** The rings once some events have happened. */
  function StateAfter(lim: Limits, s: State, es: seq<Event>): (r: State)
    requires RingsInShape(s)
    ensures RingsInShape(r)
    decreases |es|
  {
    if es == [] then s else StateAfter(lim, Apply(lim, s, es[0]).0, es[1..])
  }

  lemma {:induction false} StateAfterShows(lim: Limits, s: State, m: Simple, es: seq<Event>)
    requires Sane(lim) && Shows(s, m)
    ensures Shows(StateAfter(lim, s, es), After(lim, m, es))
    decreases |es|
  {
    if es != [] {
      StepShows(lim, s, m, es[0]);
      StateAfterShows(lim, Apply(lim, s, es[0]).0, SimpleApply(lim, m, es[0]).0, es[1..]);
    }
  }

  /**
   After any events from the start the shared ring adds up to the bytes admitted in the last ten phases,
   which are at most the maximum, and no ring of a connection holds any.
   */
  lemma NeverAboveMaximum(lim: Limits, es: seq<Event>)
    requires Sane(lim)
    ensures var s, m := StateAfter(lim, START, es), After(lim, SIMPLE_START, es);
            && Sum(s.shared) == Sum(Window(m.totals)) <= lim.maxThroughput
            && forall conn | conn in s.private :: s.private[conn] == ZEROS
  {
    SumZeros(Window([0]));
    WindowStaysBelow(lim, SIMPLE_START, es);
    StateAfterShows(lim, START, SIMPLE_START, es);
    RingSumIsWindowSum(StateAfter(lim, START, es), After(lim, SIMPLE_START, es));
  }

  function Admitted(es: seq<Event>, answers: seq<bool>): int
    requires |es| == |answers|
  {
    if es == [] then 0
    else (if es[0].Ask? && answers[0] then es[0].size else 0) + Admitted(es[1..], answers[1..])
  }

  lemma {:induction false} RunLength(lim: Limits, m: Simple, es: seq<Event>)
    requires m.totals != []
    ensures |SimpleRun(lim, m, es)| == |es|
    decreases |es|
  {
    if es != [] {
      RunLength(lim, SimpleApply(lim, m, es[0]).0, es[1..]);
    }
  }

  /** Every byte admitted is in the total of some phase, and nothing else is. */
  lemma {:induction false} BytesAreConserved(lim: Limits, m: Simple, es: seq<Event>)
    requires m.totals != []
    ensures |SimpleRun(lim, m, es)| == |es|
    ensures Sum(After(lim, m, es).totals) == Sum(m.totals) + Admitted(es, SimpleRun(lim, m, es))
    decreases |es|
  {
    RunLength(lim, m, es);
    if es != [] {
      var (m', ok) := SimpleApply(lim, m, es[0]);
      BytesAreConserved(lim, m', es[1..]);
      var last := |m.totals| - 1;
      if es[0].Tick? {
        assert m'.totals[..last + 1] == m.totals;
      } else if es[0].Ask? && ok {
        assert m'.totals[..last] == m.totals[..last];
      }
      assert SimpleRun(lim, m, es)[1..] == SimpleRun(lim, m', es[1..]);
    }
  }

  // ---------- what may be used ----------

  /** The reserve rate splits the maximum: each part is short of its share by less than one byte. */
  lemma BudgetsSplitMaximum(lim: Limits)
    requires lim.maxThroughput >= 0 && 0.0 <= lim.reserveRate <= 1.0
    ensures var share := lim.maxThroughput as real * lim.reserveRate;
            && share - 1.0 < PrivateBudget(lim) as real <= share
            && lim.maxThroughput as real - share - 1.0 < SharedBudget(lim) as real <= lim.maxThroughput as real - share
    ensures lim.maxThroughput - 1 <= SharedBudget(lim) + PrivateBudget(lim) <= lim.maxThroughput
  {
    var m := lim.maxThroughput as real;
    var share, rest := m * lim.reserveRate, m * (1.0 - lim.reserveRate);
    SplitReal(m, lim.reserveRate);
    TruncateNear(share);
    TruncateNear(rest);
    SplitInt(lim.maxThroughput, share, Truncate(share), Truncate(rest));
  }

  lemma SplitInt(m: int, share: real, a: int, b: int)
    requires share - 1.0 < a as real <= share && m as real - share - 1.0 < b as real <= m as real - share
    ensures m - 1 <= a + b <= m
  {
    assert (a + b) as real == a as real + b as real;
  }

  lemma NoReserve(lim: Limits)
    requires lim.maxThroughput >= 0 && lim.reserveRate == 0.0
    ensures SharedBudget(lim) == lim.maxThroughput && PrivateBudget(lim) == 0
  {
    var m := lim.maxThroughput as real;
    assert m * 0.0 == 0.0 && m * 1.0 == m;
  }

  lemma SplitReal(m: real, rate: real)
    requires m >= 0.0 && 0.0 <= rate <= 1.0
    ensures 0.0 <= m * rate <= m && m * (1.0 - rate) == m - m * rate
  {
    assert m * (1.0 - rate) == m - m * rate;
    assert m * (1.0 - rate) >= 0.0;
  }

  lemma TruncateNear(x: real)
    requires x >= 0.0
    ensures x - 1.0 < Truncate(x) as real <= x
  {
  }

  /** Each of n connections has the same share, and together the shares use up the reserve but for less than n bytes. */
  lemma SharesAreEqual(budget: nat, n: nat)
    requires n > 0
    ensures n * TruncatedDiv(budget, n) <= budget < n * TruncatedDiv(budget, n) + n
  {
  }

  function Ticks(n: nat): seq<Event> {
    seq(n, _ => Tick)
  }

  lemma {:induction false} TicksClear(lim: Limits, m: Simple, n: nat)
    requires m.totals != []
    ensures After(lim, m, Ticks(n)) == m.(totals := m.totals + Zeros(n))
    decreases n
  {
    if n == 0 {
      assert m.totals + Zeros(0) == m.totals;
    } else {
      var m' := m.(totals := m.totals + [0]);
      assert Ticks(n)[1..] == Ticks(n - 1);
      TicksClear(lim, m', n - 1);
      assert m'.totals + Zeros(n - 1) == m.totals + Zeros(n);
    }
  }

  function Zeros(n: nat): seq<nat> {
    seq(n, _ => 0)
  }

  /**
   After ten phases in which nothing was asked for, the whole budget is there again: a request is admitted
   exactly when it is within the budget.
   */
  lemma BudgetComesBack(lim: Limits, es: seq<Event>, conn: Conn, size: nat)
    requires Sane(lim) && lim.maxThroughput != 0
    ensures var m := After(lim, SIMPLE_START, es);
            var later := StateAfter(lim, StateAfter(lim, START, es), Ticks(PHASES));
            (lim.isServer ==> conn in m.conns) ==>
              (Apply(lim, later, Ask(conn, size)).1 <==> size <= Budget(lim, m.conns))
  {
    var s, m := StateAfter(lim, START, es), After(lim, SIMPLE_START, es);
    StateAfterShows(lim, START, SIMPLE_START, es);
    StateAfterShows(lim, s, m, Ticks(PHASES));
    TicksClear(lim, m, PHASES);
    var m' := After(lim, m, Ticks(PHASES));
    assert Window(m'.totals) == Zeros(PHASES);
    SumZeros(Window(m'.totals));
    AnswersAgree(lim, StateAfter(lim, s, Ticks(PHASES)), m', conn, size);
  }

  /** Without a reserve a client may use its whole maximum at once, and no more. */
  lemma ClientUsesMaximum(lim: Limits, conn: Conn, size: int)
    requires lim.maxThroughput > 0 && lim.reserveRate == 0.0 && !lim.isServer
    ensures Run(lim, START, [Ask(conn, size)]) == [0 <= size <= lim.maxThroughput]
  {
    NoReserve(lim);
    LimiterIsOneSharedBudget(lim, [Ask(conn, size)]);
    OnePhase(0);
    var (m', ok) := SimpleApply(lim, SIMPLE_START, Ask(conn, size));
    assert [Ask(conn, size)][1..] == [];
    assert SimpleRun(lim, SIMPLE_START, [Ask(conn, size)]) == [ok] + [];
  }

  // ---------- the reserve ----------

  ghost predicate Idle(es: seq<Event>, conn: Conn) {
    forall i | 0 <= i < |es| && es[i].Ask? :: es[i].conn != conn
  }

  /** What the reserve promises: a connection that has sent nothing is never refused its share. */
  ghost predicate KeepsReserve(lim: Limits) {
    forall es: seq<Event>, conn: Conn :: Idle(es, conn) ==> GetsShare(lim, StateAfter(lim, START, es), conn)
  }

  /** A registered connection may send its share of the reserved budget. */
  predicate GetsShare(lim: Limits, s: State, conn: Conn) {
    conn in s.private ==> Allows(lim, s, conn, TruncatedDiv(PrivateBudget(lim), |s.private|))
  }

  lemma SimpleShare(lim: Limits, s: State, m: Simple, conn: Conn)
    requires Sane(lim) && Shows(s, m) && conn in m.conns
    ensures GetsShare(lim, s, conn) <==> SimpleAllows(lim, m, conn, TruncatedDiv(PrivateBudget(lim), |m.conns|))
  {
    assert |s.private| == |m.conns|;
    AnswersAgree(lim, s, m, conn, TruncatedDiv(PrivateBudget(lim), |s.private|));
  }

  lemma {:induction false} NothingReserved(lim: Limits, m: Simple, es: seq<Event>)
    requires Sane(lim) && lim.isServer && PrivateBudget(lim) == 0 && m.totals != []
    requires Sum(Window(m.totals)) <= SharedBudget(lim) && (lim.maxThroughput == 0 ==> m.conns == {})
    ensures var m' := After(lim, m, es);
            Sum(Window(m'.totals)) <= SharedBudget(lim) && (lim.maxThroughput == 0 ==> m'.conns == {})
    decreases |es|
  {
    if es != [] {
      if es[0].Tick? {
        TickForgetsOldest(m.totals);
      } else if es[0].Ask? && SimpleAllows(lim, m, es[0].conn, es[0].size) {
        AdmitAddsToWindow(m.totals, es[0].size);
      }
      NothingReserved(lim, SimpleApply(lim, m, es[0]).0, es[1..]);
    }
  }

  /** With nothing reserved every connection gets its share of nothing. */
  lemma NothingIsKept(lim: Limits, es: seq<Event>, conn: Conn)
    requires Sane(lim) && lim.isServer && PrivateBudget(lim) == 0
    ensures GetsShare(lim, StateAfter(lim, START, es), conn)
  {
    var s, m := StateAfter(lim, START, es), After(lim, SIMPLE_START, es);
    SumZeros(Window([0]));
    SharedIsRest(lim);
    NothingReserved(lim, SIMPLE_START, es);
    StateAfterShows(lim, START, SIMPLE_START, es);
    if conn in m.conns {
      SimpleShare(lim, s, m, conn);
    }
  }

  lemma SharedIsRest(lim: Limits)
    requires Sane(lim) && PrivateBudget(lim) == 0
    ensures SharedBudget(lim) >= 0
  {
    var x := lim.maxThroughput as real * lim.reserveRate;
    assert 0.0 <= x < 1.0;
    assert lim.maxThroughput as real * (1.0 - lim.reserveRate) == lim.maxThroughput as real - x;
  }

  /**
   One connection uses up the shared budget and the whole reserve and leaves; its successor has sent
   nothing and is refused its share.
   */
  function Successor(lim: Limits, a: Conn, b: Conn): seq<Event> {
    if SharedBudget(lim) < 0 then [Register(b)]
    else [Register(a), Ask(a, SharedBudget(lim) + PrivateBudget(lim)), Register(b), Unregister(a)]
  }

  lemma SuccessorIsRefused(lim: Limits, a: Conn, b: Conn)
    requires Sane(lim) && lim.isServer && a != b && PrivateBudget(lim) > 0
    ensures var s := StateAfter(lim, START, Successor(lim, a, b));
            s.private.Keys == {b} && !GetsShare(lim, s, b)
  {
    var es := Successor(lim, a, b);
    var total := if SharedBudget(lim) < 0 then 0 else SharedBudget(lim) + PrivateBudget(lim);
    SuccessorRun(lim, a, b);
    StateAfterShows(lim, START, SIMPLE_START, es);
    SimpleShare(lim, StateAfter(lim, START, es), Simple([total], {b}), b);
    ShareIsRefused(lim, b, total);
  }

  lemma ShareIsRefused(lim: Limits, b: Conn, total: nat)
    requires lim.isServer && total > SharedBudget(lim)
    ensures !SimpleAllows(lim, Simple([total], {b}), b, TruncatedDiv(PrivateBudget(lim), |{b}|))
  {
    OnePhase(total);
  }

  lemma FirstTakesAll(lim: Limits, a: Conn)
    requires Sane(lim) && lim.isServer && PrivateBudget(lim) > 0 && SharedBudget(lim) >= 0
    ensures var total := SharedBudget(lim) + PrivateBudget(lim);
            SimpleApply(lim, Simple([0], {a}), Ask(a, total)).0 == Simple([total], {a})
  {
    var total := SharedBudget(lim) + PrivateBudget(lim);
    OnePhase(0);
    assert |{a}| == 1 && TruncatedDiv(PrivateBudget(lim), 1) == PrivateBudget(lim);
    assert lim.maxThroughput != 0;
    assert AddToLast([0], total) == [total];
  }

  lemma OnePhase(total: nat)
    ensures Sum(Window([total])) == total
  {
    SumZeros(Window([0]));
    AdmitAddsToWindow([0], total);
    assert AddToLast([0], total) == [total];
  }

  lemma AfterStep(lim: Limits, m: Simple, e: Event, rest: seq<Event>)
    requires m.totals != []
    ensures After(lim, m, [e] + rest) == After(lim, SimpleApply(lim, m, e).0, rest)
  {
    assert ([e] + rest)[1..] == rest;
  }

  lemma SuccessorRun(lim: Limits, a: Conn, b: Conn)
    requires Sane(lim) && lim.isServer && a != b && PrivateBudget(lim) > 0
    ensures After(lim, SIMPLE_START, Successor(lim, a, b))
            == Simple([if SharedBudget(lim) < 0 then 0 else SharedBudget(lim) + PrivateBudget(lim)], {b})
  {
    if SharedBudget(lim) < 0 {
      AfterStep(lim, SIMPLE_START, Register(b), []);
      assert [Register(b)] + [] == [Register(b)] && {} + {b} == {b};
    } else {
      FirstTakesAll(lim, a);
      AfterFirst(lim, a, b, SharedBudget(lim) + PrivateBudget(lim));
    }
  }

  lemma AfterFirst(lim: Limits, a: Conn, b: Conn, total: nat)
    requires a != b && lim.maxThroughput != 0
    requires SimpleApply(lim, Simple([0], {a}), Ask(a, total)).0 == Simple([total], {a})
    ensures After(lim, SIMPLE_START, [Register(a), Ask(a, total), Register(b), Unregister(a)]) == Simple([total], {b})
  {
    var es2 := [Register(b)] + [Unregister(a)];
    var es1 := [Ask(a, total)] + es2;
    assert [Register(a), Ask(a, total), Register(b), Unregister(a)] == [Register(a)] + es1;
    AfterStep(lim, SIMPLE_START, Register(a), es1);
    assert {} + {a} == {a};
    AfterStep(lim, Simple([0], {a}), Ask(a, total), es2);
    AfterStep(lim, Simple([total], {a}), Register(b), [Unregister(a)]);
    AfterStep(lim, Simple([total], {a} + {b}), Unregister(a), []);
    assert [Unregister(a)] + [] == [Unregister(a)] && ({a} + {b}) - {a} == {b};
  }

  /** The reserve is kept exactly when nothing is reserved. */
  lemma ReserveKeptExactly(lim: Limits)
    requires Sane(lim) && lim.isServer
    ensures KeepsReserve(lim) <==> PrivateBudget(lim) == 0
  {
    BudgetsAreNotNegative(lim);
    if PrivateBudget(lim) == 0 {
      forall es: seq<Event>, conn: Conn
        ensures GetsShare(lim, StateAfter(lim, START, es), conn)
      {
        NothingIsKept(lim, es, conn);
      }
    } else {
      SuccessorIsRefused(lim, "a", "b");
      assert Idle(Successor(lim, "a", "b"), "b");
    }
  }

  /**
   With two connections throughout: one may use up the shared budget and its own share, and the other,
   which has sent nothing, is then refused its share, exactly when the shares are positive and the first
   request is not negative.
   */
  lemma ReserveIsNotKept(lim: Limits, a: Conn, b: Conn)
    requires Sane(lim) && lim.isServer && a != b
    ensures var share := PrivateBudget(lim) / 2;
            Run(lim, START, [Register(a), Register(b)] + [Ask(a, SharedBudget(lim) + share), Ask(b, share)])
            == [true, true, true, false]
            <==> share > 0 && SharedBudget(lim) + share >= 0
  {
    BudgetsAreNotNegative(lim);
    var share := PrivateBudget(lim) / 2;
    var first, second := Ask(a, SharedBudget(lim) + share), Ask(b, share);
    LimiterIsOneSharedBudget(lim, [Register(a), Register(b)] + [first, second]);
    if lim.maxThroughput == 0 {
      assert PrivateBudget(lim) == 0;
      NothingAdmitted(lim, SIMPLE_START, [Register(a), Register(b)] + [first, second], 2);
    } else {
      RegisterBoth(lim, a, b, [first, second]);
      TwoRequests(lim, Simple([0], {a, b}), first, second);
      TwoAnswers(lim, a, b);
      var answers := SimpleRun(lim, Simple([0], {a, b}), [first, second]);
      assert ([true, true] + answers)[2..] == answers;
    }
  }

  /** Without a maximum every request is refused. */
  lemma {:induction false} NothingAdmitted(lim: Limits, m: Simple, es: seq<Event>, i: nat)
    requires lim.maxThroughput == 0 && m.totals != [] && i < |es| && es[i].Ask?
    ensures |SimpleRun(lim, m, es)| == |es| && !SimpleRun(lim, m, es)[i]
    decreases |es|
  {
    RunLength(lim, m, es);
    if i > 0 {
      var m' := SimpleApply(lim, m, es[0]).0;
      NothingAdmitted(lim, m', es[1..], i - 1);
      assert SimpleRun(lim, m, es)[i] == SimpleRun(lim, m', es[1..])[i - 1];
    }
  }

  lemma TwoAnswers(lim: Limits, a: Conn, b: Conn)
    requires Sane(lim) && lim.isServer && a != b && lim.maxThroughput != 0
    ensures var share := PrivateBudget(lim) / 2;
            var m := Simple([0], {a, b});
            var (m', yes) := SimpleApply(lim, m, Ask(a, SharedBudget(lim) + share));
            (yes && !SimpleApply(lim, m', Ask(b, share)).1) <==> share > 0 && SharedBudget(lim) + share >= 0
  {
    BudgetsAreNotNegative(lim);
    var q, share := SharedBudget(lim), PrivateBudget(lim) / 2;
    assert |{a, b}| == 2 && Budget(lim, {a, b}) == q + share;
    OnePhase(0);
    if q + share >= 0 {
      OnePhase(q + share);
      assert AddToLast([0], q + share) == [q + share];
    }
  }

  lemma TwoRequests(lim: Limits, m: Simple, first: Event, second: Event)
    requires m.totals != []
    ensures var (m', yes) := SimpleApply(lim, m, first);
            SimpleRun(lim, m, [first, second]) == [yes, SimpleApply(lim, m', second).1]
  {
    var m' := SimpleApply(lim, m, first).0;
    assert [first, second][1..] == [second] && [second][1..] == [];
    assert SimpleRun(lim, m', [second]) == [SimpleApply(lim, m', second).1] + [];
  }

  lemma RegisterBoth(lim: Limits, a: Conn, b: Conn, rest: seq<Event>)
    requires lim.maxThroughput != 0
    ensures SimpleRun(lim, SIMPLE_START, [Register(a), Register(b)] + rest)
            == [true, true] + SimpleRun(lim, Simple([0], {a, b}), rest)
  {
    var es := [Register(a), Register(b)] + rest;
    assert es[1..] == [Register(b)] + rest && ([Register(b)] + rest)[1..] == rest;
    assert {} + {a} == {a} && {a} + {b} == {a, b};
  }

  // ---------- the limiter object ----------

  class BandwidthLimiterBase {
    const lim: Limits
    var phase: nat
    const sharedStats: array<int>
    var privateStats: map<Conn, array<int>>

    ghost predicate Valid()
      reads this, sharedStats, privateStats.Values
    {
      && phase < PHASES && sharedStats.Length == PHASES
      && (forall conn | conn in privateStats :: privateStats[conn].Length == PHASES && privateStats[conn] != sharedStats)
      && (forall c, d | c in privateStats && d in privateStats && c != d :: privateStats[c] != privateStats[d])
    }

    ghost function Value(): (s: State)
      requires Valid()
      reads this, sharedStats, privateStats.Values
      ensures RingsInShape(s)
    {
      State(phase, sharedStats[..], map conn | conn in privateStats :: privateStats[conn][..])
    }

    constructor (lim: Limits)
      ensures Valid() && fresh(sharedStats) && this.lim == lim && Value() == START
    {
      this.lim, phase, privateStats := lim, 0, map[];
      sharedStats := new int[PHASES](i => 0);
      new;
      assert sharedStats[..] == ZEROS;
    }

    static method SumOf(stats: array<int>) returns (total: int)
      ensures total == Sum(stats[..])
    {
      total := 0;
      for i := 0 to stats.Length
        invariant total == Sum(stats[..i])
      {
        assert stats[..i + 1][..i] == stats[..i];
        total := total + stats[i];
      }
      assert stats[..stats.Length] == stats[..];
    }

    /** Checks whether the limiter can take size more bytes from the connection, and records them. */
    method Allow(conn: Conn, size: int) returns (ok: bool)
      requires Valid()
      modifies sharedStats, privateStats.Values
      ensures Valid() && privateStats == old(privateStats)
      ensures (Value(), ok) == Apply(lim, old(Value()), Ask(conn, size))
    {
      if lim.maxThroughput == 0 || size < 0 {
        return false;
      }
      var availablePrivate := 0;
      if lim.isServer {
        if conn !in privateStats {
          return false;
        }
        assert privateStats.Keys == Value().private.Keys;
        assert |privateStats| == |Value().private|;
        var own := SumOf(privateStats[conn]);
        availablePrivate := TruncatedDiv(PrivateBudget(lim), |privateStats|) - own;
      }
      assert availablePrivate == PrivateLeft(lim, Value(), conn);
      var used := SumOf(sharedStats);
      var availableShared := SharedBudget(lim) - used;
      if availablePrivate + availableShared < size {
        return false;
      }
      Charge(conn, size, MinInt(availablePrivate, size, 0));
      return true;
    }

    method Charge(conn: Conn, size: int, throughput: int)
      requires Valid() && (lim.isServer ==> conn in privateStats)
      modifies sharedStats, privateStats.Values
      ensures Valid() && privateStats == old(privateStats)
      ensures Value() == Admit(lim.isServer, old(Value()), conn, size, if lim.isServer then throughput else 0)
    {
      var left := size;
      if lim.isServer {
        privateStats[conn][phase] := privateStats[conn][phase] + throughput;
        left := left - throughput;
      }
      sharedStats[phase] := sharedStats[phase] + left;
    }

    method ResetPrivate()
      requires Valid()
      modifies privateStats.Values
      ensures Valid() && sharedStats[..] == old(sharedStats[..])
      ensures forall c | c in privateStats :: privateStats[c][..] == old(privateStats[c][..])[phase := 0]
    {
      var conns := privateStats.Keys;
      while conns != {}
        invariant conns <= privateStats.Keys
        invariant forall c | c in privateStats && c in conns :: privateStats[c][..] == old(privateStats[c][..])
        invariant forall c | c in privateStats && c !in conns ::
                    privateStats[c][..] == old(privateStats[c][..])[phase := 0]
      {
        var conn :| conn in conns;
        Reset(privateStats[conn], phase);
        conns := conns - {conn};
      }
    }

    static method Reset(stats: array<int>, phase: nat)
      requires phase < stats.Length
      modifies stats
      ensures stats[..] == old(stats[..])[phase := 0]
    {
      stats[phase] := 0;
    }

    /** Clears the throughput of the phase that has expired and moves to it. */
    method Roll()
      requires Valid()
      modifies this`phase, sharedStats, privateStats.Values
      ensures Valid() && privateStats == old(privateStats)
      ensures (Value(), true) == Apply(lim, old(Value()), Tick)
    {
      ghost var was := Value().private;
      phase := phase + 1;
      if phase >= PHASES {
        phase := 0;
      }
      Reset(sharedStats, phase);
      ResetPrivate();
      assert Value().private == map c | c in was :: was[c][phase := 0];
    }

    static method NewStats() returns (stats: array<int>)
      ensures fresh(stats) && stats[..] == ZEROS
    {
      stats := new int[PHASES](i => 0);
      assert stats[..] == ZEROS;
    }

    method RegisterConn(conn: Conn)
      requires Valid()
      modifies this`privateStats
      ensures Valid()
      ensures forall c | c in privateStats ::
                (c in old(privateStats) && privateStats[c] == old(privateStats)[c]) || fresh(privateStats[c])
      ensures (Value(), true) == Apply(lim, old(Value()), Register(conn))
    {
      if lim.maxThroughput == 0 {
        return;
      }
      if conn !in privateStats {
        var stats := NewStats();
        privateStats := privateStats[conn := stats];
        assert Value().private == old(Value()).private[conn := ZEROS];
      }
    }

    method UnregisterConn(conn: Conn)
      requires Valid()
      modifies this`privateStats
      ensures Valid() && privateStats == if lim.maxThroughput == 0 then old(privateStats) else old(privateStats) - {conn}
      ensures (Value(), true) == Apply(lim, old(Value()), Unregister(conn))
    {
      if lim.maxThroughput == 0 {
        return;
      }
      privateStats := privateStats - {conn};
      assert Value().private == old(Value()).private - {conn};
    }
  }
}
