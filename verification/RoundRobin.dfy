/**
 The deficit round robin of the ICCA+ scheduler (multiverse/icca_scheduler.go): what one call of
 ScheduleMessage does to the deficits and the ring pointer, and what follows for whole runs of calls.
 */
module RoundRobin {

  /** The issuers are the numbers below the length of `quanta`. */
  datatype Rates = Rates(quanta: seq<real>, maxDeficit: real)
  {
    ghost predicate Sensible() {
      1.0 <= maxDeficit && forall i :: 0 <= i < |quanta| ==> 0.0 < quanta[i]
    }
  }

  datatype State = State(deficits: seq<real>, pointer: int)

  ghost predicate Valid(c: Rates, s: State) {
    && |s.deficits| == |c.quanta| && 0 <= s.pointer < |c.quanta|
    && forall i :: 0 <= i < |c.quanta| ==> 0.0 <= s.deficits[i] <= c.maxDeficit
  }

  function Min(x: real, y: real): real {
    if x < y then x else y
  }

  /** How many steps the ring pointer is away from issuer `i`. */
  function Distance(n: int, pointer: int, i: int): int {
    if i >= pointer then i - pointer else i - pointer + n
  }

  function Next(n: int, pointer: int): int {
    if pointer + 1 == n then 0 else pointer + 1
  }

  /** The rounds an issuer waits until its deficit pays for one message. */
  function Wait(c: Rates, deficits: seq<real>, i: int): real
    requires 0 <= i < |c.quanta| == |deficits| && c.quanta[i] != 0.0
  {
    (if 1.0 - deficits[i] > 0.0 then 1.0 - deficits[i] else 0.0) / c.quanta[i]
  }

  /** `chosen` waits least of the backlogged issuers, and is the first of those on the ring. */
  ghost predicate Selected(c: Rates, s: State, backlog: set<int>, chosen: int, rounds: real)
    requires c.Sensible() && Valid(c, s)
  {
    && chosen in backlog && 0 <= chosen < |c.quanta|
    && rounds == Wait(c, s.deficits, chosen)
    && forall i :: 0 <= i < |c.quanta| && i in backlog ==>
         && rounds <= Wait(c, s.deficits, i)
         && (Distance(|c.quanta|, s.pointer, i) < Distance(|c.quanta|, s.pointer, chosen) ==>
              rounds < Wait(c, s.deficits, i))
  }

  lemma SelectionIsUnique(c: Rates, s: State, backlog: set<int>, i: int, r: real, j: int, t: real)
    requires c.Sensible() && Valid(c, s) && Selected(c, s, backlog, i, r) && Selected(c, s, backlog, j, t)
    ensures i == j && r == t
  {
  }

  /** The pointer leaves issuer `i` behind on its way to `chosen`. */
  predicate Passed(c: Rates, pointer: int, chosen: int, i: int) {
    Distance(|c.quanta|, pointer, i) < Distance(|c.quanta|, pointer, chosen)
  }

  function Times(rounds: real, quantum: real): real {
    rounds * quantum
  }

  /** A deficit that gets what `i` earns in some rounds, and one more quantum if passed, up to the cap. */
  function Credited(deficit: real, earned: real, quantum: real, passed: bool, cap: real): real {
    var waited := Min(deficit + earned, cap);
    if passed then Min(waited + quantum, cap) else waited
  }

  /** The deficit of `i` after a call: the rounds for all, one more if passed, and the price of a message. */
  function DeficitAfter(c: Rates, s: State, chosen: int, rounds: real, i: int): real
    requires 0 <= i < |c.quanta| == |s.deficits|
  {
    var credited := Credited(s.deficits[i], Times(rounds, c.quanta[i]), c.quanta[i],
                             Passed(c, s.pointer, chosen, i), c.maxDeficit);
    if i == chosen then Min(credited - 1.0, c.maxDeficit) else credited
  }

  datatype Turn = Turn(backlog: set<int>, chosen: int, rounds: real)

  ghost predicate Step(c: Rates, s: State, t: Turn, s': State)
    requires c.Sensible() && Valid(c, s)
  {
    && Selected(c, s, t.backlog, t.chosen, t.rounds)
    && s'.pointer == t.chosen
    && |s'.deficits| == |c.quanta|
    && forall i :: 0 <= i < |c.quanta| ==> s'.deficits[i] == DeficitAfter(c, s, t.chosen, t.rounds, i)
  }

  lemma WaitPays(c: Rates, s: State, i: int)
    requires c.Sensible() && Valid(c, s) && 0 <= i < |c.quanta|
    ensures var w := Wait(c, s.deficits, i);
      0.0 <= w && w * c.quanta[i] == if s.deficits[i] < 1.0 then 1.0 - s.deficits[i] else 0.0
  {
  }

  lemma ShorterWaitPaysLess(x: real, y: real, q: real)
    requires 0.0 < q && x <= y
    ensures x * q <= y * q
    ensures x < y ==> x * q < y * q
  {
  }

  lemma NonNegativeProduct(x: real, q: real)
    requires 0.0 <= q && 0.0 <= x
    ensures 0.0 <= x * q
  {
  }

  lemma SelectedIsBacklogged(c: Rates, s: State, t: Turn)
    requires c.Sensible() && Valid(c, s) && Selected(c, s, t.backlog, t.chosen, t.rounds)
    ensures 0.0 <= t.rounds && |s.deficits| == |c.quanta| && 0 <= t.chosen < |c.quanta| && t.chosen in t.backlog
  {
    WaitPays(c, s, t.chosen);
  }

  lemma {:induction false} CannotPayBefore(c: Rates, s: State, i: int, rounds: real)
    requires c.Sensible() && Valid(c, s) && 0 <= i < |c.quanta| && 0.0 <= rounds
    ensures rounds <= Wait(c, s.deficits, i) && 0.0 < rounds ==> s.deficits[i] + rounds * c.quanta[i] <= 1.0
    ensures rounds < Wait(c, s.deficits, i) ==> s.deficits[i] + rounds * c.quanta[i] < 1.0
  {
    hide Wait;
    var wait := Wait(c, s.deficits, i);
    WaitPays(c, s, i);
    ShorterWaitPaysLess(0.0, wait, c.quanta[i]);
    if rounds <= wait {
      ShorterWaitPaysLess(rounds, wait, c.quanta[i]);
    }
  }

  /**
   The rounds are the least after which some backlogged issuer can pay for a message, and the chosen issuer is the first
   on the ring that can pay then.
   */
  lemma {:induction false} LeastRounds(c: Rates, s: State, backlog: set<int>, chosen: int, rounds: real, i: int)
    requires c.Sensible() && Valid(c, s) && Selected(c, s, backlog, chosen, rounds)
    ensures 0.0 <= rounds && s.deficits[chosen] + rounds * c.quanta[chosen] >= 1.0
    ensures 0.0 < rounds ==> s.deficits[chosen] + rounds * c.quanta[chosen] == 1.0
    ensures 0.0 < rounds && i in backlog && 0 <= i < |c.quanta| ==> s.deficits[i] + rounds * c.quanta[i] <= 1.0
    // those from the pointer up to the chosen issuer
    ensures i in backlog && 0 <= i < |c.quanta| && chosen != i
            && (if s.pointer <= chosen then s.pointer <= i < chosen else i < chosen || s.pointer <= i)
        ==> s.deficits[i] + rounds * c.quanta[i] < 1.0
  {
    WaitPays(c, s, chosen);
    ShorterWaitPaysLess(0.0, rounds, c.quanta[chosen]);
    if i in backlog && 0 <= i < |c.quanta| {
      CannotPayBefore(c, s, i, rounds);
      hide Wait;
      assert rounds <= Wait(c, s.deficits, i);
    }
  }

  /** Everybody earns the rounds, those passed by the pointer a quantum more, and the chosen issuer pays one. */
  lemma {:induction false} StepSettles(c: Rates, s: State, t: Turn, s': State, i: int)
    requires c.Sensible() && Valid(c, s) && Step(c, s, t, s') && 0 <= i < |c.quanta|
    ensures var earned := s.deficits[i] + t.rounds * c.quanta[i];
      var waited := if earned <= c.maxDeficit then earned else c.maxDeficit;
      var passed := if s.pointer <= t.chosen then s.pointer <= i < t.chosen else i < t.chosen || s.pointer <= i;
      var credited := if !passed then waited
                      else if waited + c.quanta[i] <= c.maxDeficit then waited + c.quanta[i] else c.maxDeficit;
      s'.deficits[i] == if i == t.chosen then credited - 1.0 else credited
  {
    WaitPays(c, s, t.chosen);
    assert s'.deficits[i] == DeficitAfter(c, s, t.chosen, t.rounds, i);
  }

  /** Deficits never become negative and never exceed the cap. */
  lemma StepKeepsDeficits(c: Rates, s: State, t: Turn, s': State)
    requires c.Sensible() && Valid(c, s) && Step(c, s, t, s')
    ensures Valid(c, s')
  {
    forall i | 0 <= i < |c.quanta|
      ensures 0.0 <= s'.deficits[i] <= c.maxDeficit
    {
      WaitPays(c, s, t.chosen);
      NonNegativeProduct(t.rounds, c.quanta[i]);
      assert s'.deficits[i] == DeficitAfter(c, s, t.chosen, t.rounds, i);
    }
  }

  lemma CreditSplits(x: real, y: real, q: real)
    ensures (x + y) * q == x * q + y * q
  {
  }

  /** The extra round of an issuer that the pointer leaves behind. */
  function Extra(c: Rates, pointer: int, chosen: int, i: int): nat {
    if Passed(c, pointer, chosen, i) then 1 else 0
  }

  /** What a call credits to `i`, before the cap. */
  function Earning(c: Rates, pointer: int, t: Turn, i: int): real
    requires 0 <= i < |c.quanta|
  {
    Times(t.rounds, c.quanta[i]) + if Passed(c, pointer, t.chosen, i) then c.quanta[i] else 0.0
  }

  /** An issuer never earns more than it waits for; if the pointer passes it, it earned less. */
  lemma EarnsNoMoreThanItWaits(c: Rates, s: State, t: Turn, i: int)
    requires c.Sensible() && Valid(c, s) && Selected(c, s, t.backlog, t.chosen, t.rounds)
    requires 0 <= i < |c.quanta| && i in t.backlog
    ensures s.deficits[i] + Times(t.rounds, c.quanta[i]) <= if s.deficits[i] < 1.0 then 1.0 else s.deficits[i]
    ensures Passed(c, s.pointer, t.chosen, i) ==> s.deficits[i] + Times(t.rounds, c.quanta[i]) < 1.0
  {
    WaitPays(c, s, i);
    WaitPays(c, s, t.chosen);
    hide Wait;
    WaitsAreShort(s.deficits[i], t.rounds, Wait(c, s.deficits, i), c.quanta[i]);
  }

  lemma WaitsAreShort(d: real, r: real, w: real, q: real)
    requires 0.0 < q && 0.0 <= r <= w && w * q == if d < 1.0 then 1.0 - d else 0.0
    ensures d + r * q <= if d < 1.0 then 1.0 else d
    ensures r < w ==> d + r * q < 1.0
  {
    ShorterWaitPaysLess(r, w, q);
    NonNegativeProduct(r, q);
    PaidIsShort(d, r * q, w * q);
  }

  lemma PaidIsShort(d: real, paid: real, price: real)
    requires 0.0 <= paid <= price && price == if d < 1.0 then 1.0 - d else 0.0
    ensures d + paid <= if d < 1.0 then 1.0 else d
    ensures paid < price ==> d + paid < 1.0
  {
  }

  lemma CreditedIsInRange(d: real, rounds: real, q: real, passed: bool, cap: real)
    requires 0.0 < q && 0.0 <= rounds && 0.0 <= d <= cap
    ensures 0.0 <= Credited(d, Times(rounds, q), q, passed, cap) <= cap
  {
    NonNegativeProduct(rounds, q);
  }

  lemma RoomForCredit(d: real, e: real, q: real, passed: bool, cap: real)
    requires 1.0 + q <= cap && 0.0 < q && d <= cap
    requires d + e <= if d < 1.0 then 1.0 else d
    requires passed ==> d + e < 1.0
    ensures Credited(d, e, q, passed, cap) == d + e + if passed then q else 0.0
    ensures Credited(d, e, q, passed, cap) <= cap
  {
  }

  /** The cap never takes anything from a backlogged issuer. */
  lemma BackloggedIsNotClipped(c: Rates, s: State, t: Turn, s': State, i: int)
    requires c.Sensible() && Valid(c, s) && Step(c, s, t, s')
    requires 0 <= i < |c.quanta| && i in t.backlog && 1.0 + c.quanta[i] <= c.maxDeficit
    ensures s'.deficits[i] == s.deficits[i] + Earning(c, s.pointer, t, i) - if i == t.chosen then 1.0 else 0.0
  {
    hide Times;
    assert s'.deficits[i] == DeficitAfter(c, s, t.chosen, t.rounds, i) && 0.0 < c.quanta[i];
    hide Step, Wait, Selected, Credited, Passed, Valid, Rates.Sensible;
    EarnsNoMoreThanItWaits(c, s, t, i);
    InRange(c, s, i);
    RoomForCredit(s.deficits[i], Times(t.rounds, c.quanta[i]), c.quanta[i],
                  Passed(c, s.pointer, t.chosen, i), c.maxDeficit);
  }

  lemma InRange(c: Rates, s: State, i: int)
    requires Valid(c, s) && 0 <= i < |c.quanta|
    ensures 0.0 <= s.deficits[i] <= c.maxDeficit
  {
  }

  /** Crediting everybody and charging the chosen issuer for a message is one step. */
  lemma CreditThenCharge(c: Rates, s: State, t: Turn, credited: seq<real>, s': State)
    requires c.Sensible() && Valid(c, s) && Selected(c, s, t.backlog, t.chosen, t.rounds)
    requires |credited| == |c.quanta| && forall i :: 0 <= i < |c.quanta| ==>
      credited[i] == Credited(s.deficits[i], Times(t.rounds, c.quanta[i]), c.quanta[i],
                              Passed(c, s.pointer, t.chosen, i), c.maxDeficit)
    requires s' == State(credited[t.chosen := Min(credited[t.chosen] - 1.0, c.maxDeficit)], t.chosen)
    ensures Step(c, s, t, s') && Valid(c, s')
  {
    assert 0 <= t.chosen < |c.quanta|;
    hide Selected, Credited, Min, Times;
    assert forall i :: 0 <= i < |c.quanta| ==> s'.deficits[i] == DeficitAfter(c, s, t.chosen, t.rounds, i);
    StepKeepsDeficits(c, s, t, s');
  }

  lemma CreditIsTheMost(c: Rates, s: State, t: Turn, s': State, i: int)
    requires c.Sensible() && Valid(c, s) && Step(c, s, t, s') && 0 <= i < |c.quanta|
    ensures s'.deficits[i] <= s.deficits[i] + Earning(c, s.pointer, t, i) - if i == t.chosen then 1.0 else 0.0
  {
    assert s'.deficits[i] == DeficitAfter(c, s, t.chosen, t.rounds, i);
  }

  // ----- runs -----

  /** A run of calls; between two calls the backlogs may change in any way. */
  datatype Run = Start(s: State) | Call(before: Run, turn: Turn, s: State)
  {
    function First(): State {
      match this
      case Start(s) => s
      case Call(before, _, _) => before.First()
    }

    function Length(): nat {
      match this
      case Start(_) => 0
      case Call(before, _, _) => before.Length() + 1
    }

    /** The number of messages of `i` that were scheduled. */
    function Served(i: int): nat {
      match this
      case Start(_) => 0
      case Call(before, turn, _) => before.Served(i) + if turn.chosen == i then 1 else 0
    }

    /** The rounds that all issuers were credited with. */
    function Rounds(): real {
      match this
      case Start(_) => 0.0
      case Call(before, turn, _) => before.Rounds() + turn.rounds
    }

    /** How often the pointer left `i` behind. */
    function Departures(c: Rates, i: int): nat {
      match this
      case Start(_) => 0
      case Call(before, turn, _) => before.Departures(c, i) + Extra(c, before.s.pointer, turn.chosen, i)
    }

    ghost predicate AlwaysBacklogged(i: int) {
      match this
      case Start(_) => true
      case Call(before, turn, _) => before.AlwaysBacklogged(i) && i in turn.backlog
    }

    ghost predicate Proper(c: Rates)
      requires c.Sensible()
    {
      match this
      case Start(s) => Valid(c, s)
      case Call(before, turn, s') => before.Proper(c) && Valid(c, before.s) && Step(c, before.s, turn, s')
    }

    /** What was credited to `i`, had the deficits no cap. */
    function Earned(c: Rates, i: int): real
      requires 0 <= i < |c.quanta|
    {
      match this
      case Start(_) => 0.0
      case Call(before, turn, _) => before.Earned(c, i) + Earning(c, before.s.pointer, turn, i)
    }

    /** The same, in quanta of `i`. */
    function Credit(c: Rates, i: int): real {
      match this
      case Start(_) => 0.0
      case Call(before, turn, _) =>
        before.Credit(c, i) + (turn.rounds + Extra(c, before.s.pointer, turn.chosen, i) as real)
    }
  }

  /** The last calls of a run, which are a run of their own. */
  function Last(run: Run, k: nat): Run
    requires k <= run.Length()
  {
    if k == 0 then Start(run.s) else Call(Last(run.before, k - 1), run.turn, run.s)
  }

  lemma {:induction false} LastIsProper(c: Rates, run: Run, k: nat)
    requires c.Sensible() && run.Proper(c) && k <= run.Length()
    ensures Last(run, k).Proper(c) && Last(run, k).Length() == k && Last(run, k).s == run.s
  {
    RunKeepsDeficits(c, run);
    if k > 0 {
      LastIsProper(c, run.before, k - 1);
    }
  }

  lemma {:induction false} RunKeepsDeficits(c: Rates, run: Run)
    requires c.Sensible() && run.Proper(c)
    ensures Valid(c, run.s)
  {
    if run.Call? {
      StepKeepsDeficits(c, run.before.s, run.turn, run.s);
    }
  }

  lemma {:induction false} FirstIsValid(c: Rates, run: Run)
    requires c.Sensible() && run.Proper(c)
    ensures Valid(c, run.First())
  {
    if run.Call? {
      FirstIsValid(c, run.before);
    }
  }

  /** The ring advances all issuers alike: what is passed, counted in full turns of the ring. */
  lemma {:induction false} DeparturesFollowPointer(c: Rates, run: Run, i: int, j: int)
    requires c.Sensible() && run.Proper(c) && 0 <= i < |c.quanta| && 0 <= j < |c.quanta|
    ensures var n, p, e := |c.quanta|, run.First().pointer, run.s.pointer;
      n * run.Departures(c, i) - Distance(n, e, i) + Distance(n, p, i)
      == n * run.Departures(c, j) - Distance(n, e, j) + Distance(n, p, j)
  {
    if run.Call? {
      DeparturesFollowPointer(c, run.before, i, j);
      OneMoreTurn(|c.quanta|, run.before.Departures(c, i));
      OneMoreTurn(|c.quanta|, run.before.Departures(c, j));
    }
  }

  lemma OneMoreTurn(n: int, d: int)
    ensures n * (d + 1) == n * d + n && n * (d + 0) == n * d
  {
  }

  /** The pointer leaves no issuer more than once more than another. */
  lemma {:induction false} DeparturesAreEven(c: Rates, run: Run, i: int, j: int)
    requires c.Sensible() && run.Proper(c) && 0 <= i < |c.quanta| && 0 <= j < |c.quanta|
    ensures run.Departures(c, i) <= run.Departures(c, j) + 1
  {
    RunKeepsDeficits(c, run);
    FirstIsValid(c, run);
    DeparturesFollowPointer(c, run, i, j);
    LessThanTwoTurns(|c.quanta|, run.Departures(c, i), run.Departures(c, j));
  }

  lemma LessThanTwoTurns(n: int, x: int, y: int)
    requires 0 < n && n * x < n * y + n * 2
    ensures x <= y + 1
  {
    assert n * (y + 2) == n * y + n * 2;
    assert x >= y + 2 ==> n * x >= n * (y + 2);
  }

  lemma {:induction false} CreditIsRoundsAndDepartures(c: Rates, run: Run, i: int)
    ensures run.Credit(c, i) == run.Rounds() + run.Departures(c, i) as real
  {
    if run.Call? {
      CreditIsRoundsAndDepartures(c, run.before, i);
    }
  }

  lemma {:induction false} CreditsAreEven(c: Rates, run: Run, i: int, j: int)
    requires c.Sensible() && run.Proper(c) && 0 <= i < |c.quanta| && 0 <= j < |c.quanta|
    ensures run.Credit(c, i) <= run.Credit(c, j) + 1.0
  {
    CreditIsRoundsAndDepartures(c, run, i);
    CreditIsRoundsAndDepartures(c, run, j);
    DeparturesAreEven(c, run, i, j);
  }

  lemma {:induction false} EarnedIsCredit(c: Rates, run: Run, i: int)
    requires 0 <= i < |c.quanta|
    ensures run.Earned(c, i) == run.Credit(c, i) * c.quanta[i]
  {
    match run
    case Start(_) =>
    case Call(before, turn, _) =>
      EarnedIsCredit(c, before, i);
      EarningIsCredit(c, before.s.pointer, turn, i);
      CreditSplits(before.Credit(c, i), turn.rounds + Extra(c, before.s.pointer, turn.chosen, i) as real, c.quanta[i]);
  }

  lemma EarningIsCredit(c: Rates, pointer: int, t: Turn, i: int)
    requires 0 <= i < |c.quanta|
    ensures Earning(c, pointer, t, i) == (t.rounds + Extra(c, pointer, t.chosen, i) as real) * c.quanta[i]
  {
  }

  /** The books of a backlogged issuer balance exactly ... */
  lemma {:induction false} Balance(c: Rates, run: Run, i: int)
    requires c.Sensible() && run.Proper(c) && run.AlwaysBacklogged(i)
    requires 0 <= i < |c.quanta| && 1.0 + c.quanta[i] <= c.maxDeficit
    ensures Valid(c, run.s) && Valid(c, run.First())
    ensures run.s.deficits[i] == run.First().deficits[i] + run.Earned(c, i) - run.Served(i) as real
  {
    RunKeepsDeficits(c, run);
    if run.Call? {
      Balance(c, run.before, i);
      BackloggedIsNotClipped(c, run.before.s, run.turn, run.s, i);
    }
  }

  /** ... and nobody is served for more than it was credited with. */
  lemma {:induction false} NoOverdraft(c: Rates, run: Run, i: int)
    requires c.Sensible() && run.Proper(c) && 0 <= i < |c.quanta|
    ensures Valid(c, run.s) && Valid(c, run.First())
    ensures run.s.deficits[i] <= run.First().deficits[i] + run.Earned(c, i) - run.Served(i) as real
  {
    RunKeepsDeficits(c, run);
    if run.Call? {
      NoOverdraft(c, run.before, i);
      CreditIsTheMost(c, run.before.s, run.turn, run.s, i);
    }
  }

  /** What was served differs from what was earned by no more than a full deficit. */
  lemma {:induction false} ServedIsEarned(c: Rates, run: Run, i: int)
    requires c.Sensible() && run.Proper(c) && run.AlwaysBacklogged(i)
    requires 0 <= i < |c.quanta| && 1.0 + c.quanta[i] <= c.maxDeficit
    ensures -c.maxDeficit <= run.Served(i) as real - run.Earned(c, i) <= c.maxDeficit
  {
    Balance(c, run, i);
    InRange(c, run.s, i);
    InRange(c, run.First(), i);
  }

  lemma {:induction false} Account(c: Rates, run: Run, i: int)
    requires 0 <= i < |c.quanta|
    requires -c.maxDeficit <= run.Served(i) as real - run.Earned(c, i) <= c.maxDeficit
    ensures -c.maxDeficit <= run.Served(i) as real - run.Credit(c, i) * c.quanta[i] <= c.maxDeficit
  {
    EarnedIsCredit(c, run, i);
  }

  /** How many quanta two issuers were credited with, which is nearly the same. */
  lemma Accounts(c: Rates, run: Run, i: int, j: int) returns (creditI: real, creditJ: real)
    requires c.Sensible() && run.Proper(c) && run.AlwaysBacklogged(i) && run.AlwaysBacklogged(j)
    requires 0 <= i < |c.quanta| && 1.0 + c.quanta[i] <= c.maxDeficit
    requires 0 <= j < |c.quanta| && 1.0 + c.quanta[j] <= c.maxDeficit
    ensures creditI <= creditJ + 1.0
    ensures -c.maxDeficit <= run.Served(i) as real - creditI * c.quanta[i] <= c.maxDeficit
    ensures -c.maxDeficit <= run.Served(j) as real - creditJ * c.quanta[j] <= c.maxDeficit
  {
    hide *;
    ServedIsEarned(c, run, i);
    ServedIsEarned(c, run, j);
    Account(c, run, i);
    Account(c, run, j);
    CreditsAreEven(c, run, i, j);
    creditI, creditJ := run.Credit(c, i), run.Credit(c, j);
  }

  predicate Near(x: real, y: real, d: real) {
    y - d <= x <= y + d
  }

  lemma ShareOf(s: real, credit: real, q: real, d: real)
    requires 0.0 < q && -d <= s - credit * q <= d
    ensures Near(s / q, credit, d / q)
  {
    var x, y := s / q, d / q;
    assert x * q == s && y * q == d;
    CreditSplits(credit, y, q);
    CreditSplits(credit, -y, q);
    NotLarger(x, credit + y, q);
    NotLarger(credit - y, x, q);
  }

  lemma NotLarger(x: real, y: real, q: real)
    requires 0.0 < q && x * q <= y * q
    ensures x <= y
  {
    assert x > y ==> x * q > y * q;
  }

  lemma Shares(c: Rates, run: Run, i: int, j: int) returns (creditI: real, creditJ: real)
    requires c.Sensible() && run.Proper(c) && run.AlwaysBacklogged(i) && run.AlwaysBacklogged(j)
    requires 0 <= i < |c.quanta| && 1.0 + c.quanta[i] <= c.maxDeficit
    requires 0 <= j < |c.quanta| && 1.0 + c.quanta[j] <= c.maxDeficit
    ensures creditI <= creditJ + 1.0
    ensures Near(run.Served(i) as real / c.quanta[i], creditI, c.maxDeficit / c.quanta[i])
    ensures Near(run.Served(j) as real / c.quanta[j], creditJ, c.maxDeficit / c.quanta[j])
  {
    hide Near, Run.Proper, Run.Served, Run.AlwaysBacklogged;
    creditI, creditJ := Accounts(c, run, i, j);
    ShareOf(run.Served(i) as real, creditI, c.quanta[i], c.maxDeficit);
    ShareOf(run.Served(j) as real, creditJ, c.quanta[j], c.maxDeficit);
  }

  lemma NearbyShares(x: real, y: real, creditX: real, creditY: real, dX: real, dY: real)
    requires creditX <= creditY + 1.0 && Near(x, creditX, dX) && Near(y, creditY, dY)
    ensures x - y <= 1.0 + dX + dY
  {
  }

  /** Fairness: two issuers that stay backlogged are served in proportion to their quanta, up to a constant. */
  lemma {:induction false} Fairness(c: Rates, run: Run, i: int, j: int)
    requires c.Sensible() && run.Proper(c) && run.AlwaysBacklogged(i) && run.AlwaysBacklogged(j)
    requires 0 <= i < |c.quanta| && 1.0 + c.quanta[i] <= c.maxDeficit
    requires 0 <= j < |c.quanta| && 1.0 + c.quanta[j] <= c.maxDeficit
    ensures run.Served(i) as real / c.quanta[i] - run.Served(j) as real / c.quanta[j]
         <= 1.0 + c.maxDeficit / c.quanta[i] + c.maxDeficit / c.quanta[j]
  {
    hide Near, Run.Proper, Run.Served, Run.AlwaysBacklogged;
    var creditI, creditJ := Shares(c, run, i, j);
    NearbyShares(run.Served(i) as real / c.quanta[i], run.Served(j) as real / c.quanta[j],
                 creditI, creditJ, c.maxDeficit / c.quanta[i], c.maxDeficit / c.quanta[j]);
  }

  // ----- bounded waiting -----

  /** What the first `n` issuers other than `i` earn per round. */
  function OtherQuanta(c: Rates, i: int, n: nat): real
    requires n <= |c.quanta|
  {
    if n == 0 then 0.0 else OtherQuanta(c, i, n - 1) + if n - 1 == i then 0.0 else c.quanta[n - 1]
  }

  function ServedOthers(run: Run, i: int, n: nat): nat {
    if n == 0 then 0 else ServedOthers(run, i, n - 1) + if n - 1 == i then 0 else run.Served(n - 1)
  }

  lemma {:induction false} ServedOthersAfter(run: Run, i: int, n: nat)
    requires run.Call? && 0 <= run.turn.chosen && run.turn.chosen != i
    ensures ServedOthers(run, i, n) == ServedOthers(run.before, i, n) + if run.turn.chosen < n then 1 else 0
  {
    if n > 0 {
      ServedOthersAfter(run, i, n - 1);
    }
  }

  lemma {:induction false} NothingServed(run: Run, i: int, n: nat)
    requires run.Start?
    ensures ServedOthers(run, i, n) == 0
  {
    if n > 0 {
      NothingServed(run, i, n - 1);
    }
  }

  /** Every call serves somebody. */
  lemma {:induction false} EveryCallServes(c: Rates, run: Run, i: int)
    requires c.Sensible() && run.Proper(c) && run.Served(i) == 0
    ensures ServedOthers(run, i, |c.quanta|) == run.Length()
  {
    match run
    case Start(_) =>
      NothingServed(run, i, |c.quanta|);
    case Call(before, _, _) =>
      EveryCallServes(c, before, i);
      ServedOthersAfter(run, i, |c.quanta|);
  }

  lemma {:induction false} ServedWithinEarned(c: Rates, run: Run, j: int)
    requires c.Sensible() && run.Proper(c) && 0 <= j < |c.quanta|
    ensures run.Served(j) as real <= c.maxDeficit + run.Earned(c, j)
  {
    NoOverdraft(c, run, j);
    InRange(c, run.s, j);
    InRange(c, run.First(), j);
  }

  lemma OneAccount(c: Rates, run: Run, i: int, j: int) returns (credit: real)
    requires c.Sensible() && run.Proper(c) && 0 <= i < |c.quanta| && 0 <= j < |c.quanta|
    ensures credit <= run.Credit(c, i) + 1.0
    ensures run.Served(j) as real <= c.maxDeficit + credit * c.quanta[j]
  {
    hide Run.Proper, Run.Served, Run.Credit, Run.Earned;
    ServedWithinEarned(c, run, j);
    EarnedIsCredit(c, run, j);
    CreditsAreEven(c, run, j, i);
    credit := run.Credit(c, j);
  }

  lemma {:induction false} OneWithinCredit(c: Rates, run: Run, i: int, j: int, most: real)
    requires c.Sensible() && run.Proper(c) && 0 <= i < |c.quanta| && 0 <= j < |c.quanta|
    requires run.Credit(c, i) <= most
    ensures run.Served(j) as real <= c.maxDeficit + (most + 1.0) * c.quanta[j]
  {
    hide Run.Proper, Run.Served, Run.Credit;
    var credit := OneAccount(c, run, i, j);
    ShorterWaitPaysLess(credit, most + 1.0, c.quanta[j]);
  }

  /** What the first `n` issuers other than `i` can at most be served in `credit` rounds and one more. */
  function MostServed(c: Rates, i: int, n: nat, credit: real): real
    requires n <= |c.quanta|
  {
    if n == 0 then 0.0
    else MostServed(c, i, n - 1, credit) + if n - 1 == i then 0.0 else c.maxDeficit + (credit + 1.0) * c.quanta[n - 1]
  }

  lemma {:induction false} OthersWithinCredit(c: Rates, run: Run, i: int, n: nat, credit: real)
    requires c.Sensible() && run.Proper(c) && 0 <= i < |c.quanta| && n <= |c.quanta|
    requires run.Credit(c, i) <= credit
    ensures ServedOthers(run, i, n) as real <= MostServed(c, i, n, credit)
  {
    hide Run.Proper, Run.Served, Run.Credit;
    if n > 0 {
      OthersWithinCredit(c, run, i, n - 1, credit);
      if n - 1 != i {
        OneWithinCredit(c, run, i, n - 1, credit);
      }
    }
  }

  lemma {:induction false} MostServedIs(c: Rates, i: int, n: nat, credit: real)
    requires n <= |c.quanta|
    ensures MostServed(c, i, n, credit)
         == Others(i, n) as real * c.maxDeficit + (credit + 1.0) * OtherQuanta(c, i, n)
  {
    if n > 0 {
      MostServedIs(c, i, n - 1, credit);
      if n - 1 != i {
        CreditSplits(Others(i, n - 1) as real, 1.0, c.maxDeficit);
        CreditSplits(OtherQuanta(c, i, n - 1), c.quanta[n - 1], credit + 1.0);
      }
    }
  }

  /** The number of issuers other than `i` among the first `n`. */
  function Others(i: int, n: nat): nat {
    if 0 <= i < n then n - 1 else n
  }

  /** The number of calls after which a backlogged issuer must have been served. */
  function WaitBound(c: Rates, i: int): real
    requires 0 <= i < |c.quanta| && c.quanta[i] != 0.0
  {
    (|c.quanta| - 1) as real * c.maxDeficit + (c.maxDeficit / c.quanta[i] + 1.0) * OtherQuanta(c, i, |c.quanta|)
  }

  lemma {:induction false} UnservedCredit(c: Rates, run: Run, i: int)
    requires 0 <= i < |c.quanta| && 0.0 < c.quanta[i] && run.Served(i) == 0
    requires -c.maxDeficit <= run.Served(i) as real - run.Earned(c, i) <= c.maxDeficit
    ensures run.Credit(c, i) <= c.maxDeficit / c.quanta[i]
  {
    hide Run.Served, Run.Earned, Run.Credit;
    Account(c, run, i);
    ShareOf(0.0, run.Credit(c, i), c.quanta[i], c.maxDeficit);
  }

  /** An unserved run in which the issuer earned no more than a full deficit is short. */
  lemma {:induction false} UnservedRunIsShort(c: Rates, run: Run, i: int)
    requires c.Sensible() && run.Proper(c) && run.Served(i) == 0
    requires 0 <= i < |c.quanta| && -c.maxDeficit <= run.Earned(c, i) <= c.maxDeficit
    ensures run.Length() as real <= WaitBound(c, i)
  {
    hide Run.Proper, Run.Served, Run.Credit, Run.Earned, MostServed, ServedOthers, WaitBound;
    UnservedCredit(c, run, i);
    EveryCallServes(c, run, i);
    OthersWithinCredit(c, run, i, |c.quanta|, c.maxDeficit / c.quanta[i]);
    WaitBoundIs(c, i);
  }

  lemma {:induction false} WaitBoundIs(c: Rates, i: int)
    requires 0 <= i < |c.quanta| && c.quanta[i] != 0.0
    ensures MostServed(c, i, |c.quanta|, c.maxDeficit / c.quanta[i]) == WaitBound(c, i)
  {
    hide MostServed, OtherQuanta;
    MostServedIs(c, i, |c.quanta|, c.maxDeficit / c.quanta[i]);
  }

  /** An issuer whom the cap leaves room for a quantum waits no longer than the bound. */
  lemma {:induction false} BoundedWaitWithRoom(c: Rates, run: Run, i: int)
    requires c.Sensible() && run.Proper(c) && run.AlwaysBacklogged(i)
    requires 0 <= i < |c.quanta| && 1.0 + c.quanta[i] <= c.maxDeficit
    requires run.Length() as real > WaitBound(c, i)
    ensures run.Served(i) > 0
  {
    hide Run.Proper, Run.AlwaysBacklogged, WaitBound;
    if run.Served(i) == 0 {
      ServedIsEarned(c, run, i);
      UnservedRunIsShort(c, run, i);
    }
  }

  // ----- the wait of an issuer that can already pay -----

  /** The messages that the issuers between the pointer and `i` can pay for, among the first `n`. */
  function PaidBefore(c: Rates, s: State, i: int, n: nat): int
    requires n <= |c.quanta| == |s.deficits|
  {
    if n == 0 then 0
    else PaidBefore(c, s, i, n - 1) + if Passed(c, s.pointer, i, n - 1) then s.deficits[n - 1].Floor else 0
  }

  lemma {:induction false} PaidBeforeIsBounded(c: Rates, s: State, i: int, n: nat)
    requires Valid(c, s) && n <= |c.quanta|
    ensures 0 <= PaidBefore(c, s, i, n) <= Others(i, n) * c.maxDeficit.Floor
  {
    if n > 0 {
      PaidBeforeIsBounded(c, s, i, n - 1);
      InRange(c, s, n - 1);
      FloorsInOrder(s.deficits[n - 1], c.maxDeficit);
      var most, others := c.maxDeficit.Floor, Others(i, n - 1);
      OneMoreFactor(others, most);
      hide Valid, Distance;
      assert Passed(c, s.pointer, i, n - 1) ==> n - 1 != i;
      assert Others(i, n) == if n - 1 == i then others else others + 1;
    }
  }

  lemma OneMoreFactor(n: int, d: int)
    ensures (n + 1) * d == n * d + d
  {
  }

  lemma FloorsInOrder(x: real, y: real)
    requires 0.0 <= x <= y
    ensures 0 <= x.Floor <= y.Floor
  {
  }

  lemma PayingWaitsForNoRound(c: Rates, s: State, t: Turn, s': State, i: int)
    requires c.Sensible() && Valid(c, s) && Step(c, s, t, s')
    requires 0 <= i < |c.quanta| && i in t.backlog && 1.0 <= s.deficits[i]
    ensures t.rounds == 0.0 && 1.0 <= s.deficits[t.chosen]
    ensures Distance(|c.quanta|, s.pointer, t.chosen) <= Distance(|c.quanta|, s.pointer, i)
  {
    WaitPays(c, s, i);
    WaitPays(c, s, t.chosen);
    assert Wait(c, s.deficits, i) == 0.0;
  }

  /** Serving somebody else uses up one of the messages that come before `i`. */
  lemma {:induction false} PaidBeforeDrops(c: Rates, s: State, t: Turn, s': State, i: int, n: nat)
    requires c.Sensible() && Valid(c, s) && Step(c, s, t, s') && n <= |c.quanta|
    requires 0 <= i < |c.quanta| && i in t.backlog && 1.0 <= s.deficits[i] && t.chosen != i
    ensures PaidBefore(c, s', i, n) <= PaidBefore(c, s, i, n) - if t.chosen < n then 1 else 0
  {
    if n > 0 {
      PaidBeforeDrops(c, s, t, s', i, n - 1);
      PayingWaitsForNoRound(c, s, t, s', i);
      assert s'.deficits[n - 1] == DeficitAfter(c, s, t.chosen, t.rounds, n - 1);
      assert 0.0 <= s.deficits[n - 1] <= c.maxDeficit;
    }
  }

  lemma {:induction false} UnservedUsesUp(c: Rates, run: Run, i: int)
    requires c.Sensible() && run.Proper(c) && run.AlwaysBacklogged(i) && run.Served(i) == 0
    requires 0 <= i < |c.quanta| && |run.First().deficits| == |c.quanta| && 1.0 <= run.First().deficits[i]
    ensures Valid(c, run.s) && 1.0 <= run.s.deficits[i]
    ensures PaidBefore(c, run.s, i, |c.quanta|) + run.Length() <= PaidBefore(c, run.First(), i, |c.quanta|)
  {
    RunKeepsDeficits(c, run);
    if run.Call? {
      UnservedUsesUp(c, run.before, i);
      PayingWaitsForNoRound(c, run.before.s, run.turn, run.s, i);
      PaidBeforeDrops(c, run.before.s, run.turn, run.s, i, |c.quanta|);
      assert run.s.deficits[i] == DeficitAfter(c, run.before.s, run.turn.chosen, run.turn.rounds, i);
    }
  }

  /** An issuer that can pay waits for at most what the others have saved up. */
  lemma {:induction false} ShortWait(c: Rates, run: Run, i: int)
    requires c.Sensible() && run.Proper(c) && run.AlwaysBacklogged(i)
    requires 0 <= i < |c.quanta| && |run.First().deficits| == |c.quanta| && 1.0 <= run.First().deficits[i]
    requires run.Length() >= (|c.quanta| - 1) * c.maxDeficit.Floor + 1
    ensures run.Served(i) > 0
  {
    if run.Served(i) == 0 {
      UnservedUsesUp(c, run, i);
      FirstIsValid(c, run);
      PaidBeforeIsBounded(c, run.First(), i, |c.quanta|);
      PaidBeforeIsBounded(c, run.s, i, |c.quanta|);
    }
  }

  // ----- bounded waiting, however little room the cap leaves -----

  /** Who ends below the price of a message was never clipped. */
  lemma NotClippedBelowOne(d: real, e: real, q: real, passed: bool, cap: real)
    requires 1.0 <= cap && 0.0 <= e && 0.0 <= q && Credited(d, e, q, passed, cap) < 1.0
    ensures Credited(d, e, q, passed, cap) == d + e + if passed then q else 0.0
    ensures d < 1.0
  {
  }

  /** An issuer that was not served and still cannot pay has kept all it earned. */
  lemma {:induction false} PoorKeepsAll(c: Rates, run: Run, i: int)
    requires c.Sensible() && run.Proper(c) && run.Served(i) == 0 && 0 <= i < |c.quanta|
    requires |run.s.deficits| == |c.quanta| && run.s.deficits[i] < 1.0
    ensures Valid(c, run.First()) && run.s.deficits[i] == run.First().deficits[i] + run.Earned(c, i)
  {
    RunKeepsDeficits(c, run);
    if run.Call? {
      OneMorePoorCall(c, run.before.s, run.turn, run.s, i);
      PoorKeepsAll(c, run.before, i);
    }
  }

  lemma OneMorePoorCall(c: Rates, s: State, t: Turn, s': State, i: int)
    requires c.Sensible() && Valid(c, s) && Step(c, s, t, s') && 0 <= i < |c.quanta| && t.chosen != i
    requires s'.deficits[i] < 1.0
    ensures s.deficits[i] < 1.0 && s'.deficits[i] == s.deficits[i] + Earning(c, s.pointer, t, i)
  {
    hide Times;
    assert s'.deficits[i] == DeficitAfter(c, s, t.chosen, t.rounds, i) && 0.0 < c.quanta[i];
    SelectedIsBacklogged(c, s, t);
    TimesIsNotNegative(t.rounds, c.quanta[i]);
    hide Step, Wait, Selected, Credited, Passed, Valid, Rates.Sensible;
    NotClippedBelowOne(s.deficits[i], Times(t.rounds, c.quanta[i]), c.quanta[i],
                       Passed(c, s.pointer, t.chosen, i), c.maxDeficit);
  }

  lemma TimesIsNotNegative(rounds: real, quantum: real)
    requires 0.0 <= rounds && 0.0 <= quantum
    ensures 0.0 <= Times(rounds, quantum)
  {
    NonNegativeProduct(rounds, quantum);
  }

  /** Who cannot pay yet has not waited longer than the bound. */
  lemma {:induction false} PoorRunIsShort(c: Rates, run: Run, i: int)
    requires c.Sensible() && run.Proper(c) && run.Served(i) == 0 && 0 <= i < |c.quanta|
    requires |run.s.deficits| == |c.quanta| && run.s.deficits[i] < 1.0
    ensures run.Length() as real <= WaitBound(c, i)
  {
    hide Run.Proper, Run.Served, Run.Earned, WaitBound;
    RunKeepsDeficits(c, run);
    PoorKeepsAll(c, run, i);
    InRange(c, run.s, i);
    InRange(c, run.First(), i);
    UnservedRunIsShort(c, run, i);
  }

  /** Where an unserved issuer that can pay now became able to: the calls since then are the last `k`. */
  lemma {:induction false} BecameRich(c: Rates, run: Run, i: int) returns (k: nat)
    requires c.Sensible() && run.Proper(c) && run.Served(i) == 0 && run.AlwaysBacklogged(i) && 0 <= i < |c.quanta|
    requires |run.s.deficits| == |c.quanta| && 1.0 <= run.s.deficits[i]
    ensures k <= run.Length() && (run.Length() - k) as real <= WaitBound(c, i) + 1.0
    ensures var last := Last(run, k);
      && last.Served(i) == 0 && last.AlwaysBacklogged(i)
      && |last.First().deficits| == |c.quanta| && 1.0 <= last.First().deficits[i]
  {
    if run.Call? {
      if 1.0 <= run.before.s.deficits[i] {
        var before := BecameRich(c, run.before, i);
        k := before + 1;
      } else {
        PoorRunIsShort(c, run.before, i);
        k := 0;
      }
    } else {
      WaitBoundIsNotNegative(c, i);
      k := 0;
    }
  }

  lemma {:induction false} WaitBoundIsNotNegative(c: Rates, i: int)
    requires c.Sensible() && 0 <= i < |c.quanta|
    ensures 0.0 <= WaitBound(c, i)
  {
    OtherQuantaAreNotNegative(c, i, |c.quanta|);
    NonNegativeProduct((|c.quanta| - 1) as real, c.maxDeficit);
    NonNegativeProduct(c.maxDeficit / c.quanta[i] + 1.0, OtherQuanta(c, i, |c.quanta|));
  }

  lemma {:induction false} OtherQuantaAreNotNegative(c: Rates, i: int, n: nat)
    requires c.Sensible() && n <= |c.quanta|
    ensures 0.0 <= OtherQuanta(c, i, n)
  {
    if n > 0 {
      OtherQuantaAreNotNegative(c, i, n - 1);
    }
  }

  /** The longest wait: until the issuer can pay, and then until the others have used up their deficits once. */
  function LongestWait(c: Rates, i: int): real
    requires 0 <= i < |c.quanta| && c.quanta[i] != 0.0
  {
    WaitBound(c, i) + 1.0 + ((|c.quanta| - 1) * c.maxDeficit.Floor) as real
  }

  /** Bounded wait: whoever stays backlogged for longer than that is served, whatever the quanta and the cap are. */
  lemma {:induction false} BoundedWait(c: Rates, run: Run, i: int)
    requires c.Sensible() && run.Proper(c) && run.AlwaysBacklogged(i) && 0 <= i < |c.quanta|
    requires run.Length() as real > LongestWait(c, i)
    ensures run.Served(i) > 0
  {
    hide Run.Proper, Run.AlwaysBacklogged, Run.Served, WaitBound;
    RunKeepsDeficits(c, run);
    if run.Served(i) == 0 {
      if run.s.deficits[i] < 1.0 {
        PoorRunIsShort(c, run, i);
        NonNegativeFloor(c.maxDeficit, |c.quanta| - 1);
      } else {
        var k := BecameRich(c, run, i);
        LastIsProper(c, run, k);
        if k >= (|c.quanta| - 1) * c.maxDeficit.Floor + 1 {
          ShortWait(c, Last(run, k), i);
        }
      }
    }
  }

  lemma NonNegativeFloor(x: real, n: nat)
    requires 0.0 <= x
    ensures 0 <= n * x.Floor
  {
  }
}
