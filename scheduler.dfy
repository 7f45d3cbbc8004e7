/**
 * The per-tick scheduling step of the dining-philosophers simulation, as
 * functions on values.  These functions are the specification of the
 * in-place `Update` and `ResetSimulation` methods of the simulation class.
 */
module Scheduler {
  import opened Forks

  /** A philosopher changes state on the turn its counter runs past one of these limits. */
  const ThinkLimit: nat := 1000
  const HungerLimit: nat := 1000
  const EatLimit: nat := 1500

  datatype State = Thinking | Hungry | Eating

  /**
   * One philosopher's life-cycle state, its two hold flags and its three
   * tick counters (the drawing coordinates are not part of the model).
   */
  datatype Philosopher = Philosopher(
    state: State,
    leftFork: bool,
    rightFork: bool,
    thinkingTime: nat,
    eatingTime: nat,
    waitingTime: nat)

  /** A freshly seated philosopher. */
  const Newborn := Philosopher(Thinking, false, false, 0, 0, 0)

  /** The philosophers in seat order and the shared fork array (true = held). */
  datatype Table = Table(ps: seq<Philosopher>, forks: seq<bool>)

  predicate WellFormed(t: Table)
  {
    2 <= |t.ps| && |t.forks| == |t.ps|
  }

  /** The table as the simulation is constructed with n seats. */
  function Initial(n: nat): (t: Table)
    requires 2 <= n
    ensures WellFormed(t) && |t.ps| == n
  {
    Table(seq(n, _ => Newborn), seq(n, _ => false))
  }

  /**
   * Philosopher i's turn within a tick: the body of the source's `forEach`
   * callback for index i.
   */
  function Step(t: Table, i: nat): (r: Table)
    requires WellFormed(t) && i < |t.ps|
    ensures WellFormed(r) && |r.ps| == |t.ps|
    ensures forall j :: 0 <= j < |t.ps| && j != i ==> r.ps[j] == t.ps[j]
    ensures forall k :: 0 <= k < |t.forks| && k != i && k != Right(|t.ps|, i) ==> r.forks[k] == t.forks[k]
  {
    var n := |t.ps|;
    var p := t.ps[i];
    match p.state
    case Thinking =>
      var p1 := p.(thinkingTime := p.thinkingTime + 1);
      var p2 := if p1.thinkingTime > ThinkLimit then p1.(state := Hungry, thinkingTime := 0, waitingTime := 0) else p1;
      Table(t.ps[i := p2], t.forks)
    case Hungry =>
      var (firstFork, secondFork) := ForkOrder(n, i);
      if !t.forks[firstFork] && !t.forks[secondFork] then
        var p1 := p.(leftFork := true, rightFork := true, state := Eating, eatingTime := 0, waitingTime := 0);
        Table(t.ps[i := p1], t.forks[firstFork := true][secondFork := true])
      else
        var p1 := p.(waitingTime := p.waitingTime + 1);
        var p2 := if p1.waitingTime > HungerLimit then p1.(waitingTime := 0, state := Thinking, thinkingTime := 0) else p1;
        Table(t.ps[i := p2], t.forks)
    case Eating =>
      var p1 := p.(eatingTime := p.eatingTime + 1);
      if p1.eatingTime > EatLimit then
        var (firstFork, secondFork) := ForkOrder(n, i);
        var p2 := p1.(leftFork := false, rightFork := false, state := Thinking, eatingTime := 0, thinkingTime := 0);
        Table(t.ps[i := p2], t.forks[firstFork := false][secondFork := false])
      else
        Table(t.ps[i := p1], t.forks)
  }

  /** The table once the first m philosophers, in index order, have had their turn. */
  function TickUpTo(t: Table, m: nat): (r: Table)
    requires WellFormed(t) && m <= |t.ps|
    ensures WellFormed(r) && |r.ps| == |t.ps|
    ensures forall j :: m <= j < |t.ps| ==> r.ps[j] == t.ps[j]
    decreases m
  {
    if m == 0 then t else Step(TickUpTo(t, m - 1), m - 1)
  }

  /** One whole tick: every philosopher has its turn once, in index order. */
  function Tick(t: Table): Table
    requires WellFormed(t)
  {
    TickUpTo(t, |t.ps|)
  }

  /** What `resetSimulation` does to one philosopher: the timers are left alone. */
  function ResetPhilosopher(p: Philosopher): Philosopher
  {
    p.(state := Thinking, leftFork := false, rightFork := false)
  }

  function Reset(t: Table): Table
  {
    Table(seq(|t.ps|, i requires 0 <= i < |t.ps| => ResetPhilosopher(t.ps[i])), seq(|t.forks|, _ => false))
  }

  /**
   * The moves one tick can make one philosopher do.  Thinking -> hungry,
   * hungry -> thinking and eating -> thinking happen only when the counter of
   * the current state runs past its limit; hungry -> eating happens whenever
   * both forks are free, whatever the counter.  The counters of the new state
   * start from zero.  A thinking philosopher never starts eating in the same
   * tick, and an eating one never becomes hungry.
   */
  predicate LegalMove(p: Philosopher, q: Philosopher)
  {
    match (p.state, q.state)
    case (Thinking, Thinking) =>
      p.thinkingTime < ThinkLimit && q == p.(thinkingTime := p.thinkingTime + 1)
    case (Thinking, Hungry) =>
      ThinkLimit <= p.thinkingTime && q.thinkingTime == 0 && q.waitingTime == 0
    case (Hungry, Hungry) =>
      p.waitingTime < HungerLimit && q == p.(waitingTime := p.waitingTime + 1)
    case (Hungry, Eating) =>
      q.leftFork && q.rightFork && q.eatingTime == 0 && q.waitingTime == 0
    case (Hungry, Thinking) =>
      HungerLimit <= p.waitingTime && q.waitingTime == 0 && q.thinkingTime == 0
    case (Eating, Eating) =>
      p.eatingTime < EatLimit && q == p.(eatingTime := p.eatingTime + 1)
    case (Eating, Thinking) =>
      EatLimit <= p.eatingTime && !q.leftFork && !q.rightFork && q.eatingTime == 0 && q.thinkingTime == 0
    case _ => false
  }

  // ---------------------------------------------------------------------
  // One philosopher's turn, case by case.

  /** A thinking philosopher counts one tick; past the limit it becomes hungry. No fork changes. */
  lemma ThinkingTurn(t: Table, i: nat)
    requires WellFormed(t) && i < |t.ps| && t.ps[i].state == Thinking
    ensures Step(t, i).forks == t.forks
    ensures var p, q := t.ps[i], Step(t, i).ps[i];
      if p.thinkingTime + 1 > ThinkLimit
      then q == p.(state := Hungry, thinkingTime := 0, waitingTime := 0)
      else q == p.(thinkingTime := p.thinkingTime + 1)
  {
  }

  /**
   * A hungry philosopher starts eating exactly when both its forks are free,
   * and then holds both; otherwise the fork array is untouched, it waits one
   * more tick, and past the limit it gives up and thinks again.
   */
  lemma HungryTurn(t: Table, i: nat)
    requires WellFormed(t) && i < |t.ps| && t.ps[i].state == Hungry
    ensures var n, p, r := |t.ps|, t.ps[i], Step(t, i);
      (r.ps[i].state == Eating <==> !t.forks[i] && !t.forks[Right(n, i)]) &&
      (r.ps[i].state == Eating ==>
         r.forks == t.forks[i := true][Right(n, i) := true] &&
         r.ps[i] == p.(state := Eating, leftFork := true, rightFork := true, eatingTime := 0, waitingTime := 0)) &&
      (r.ps[i].state != Eating ==>
         r.forks == t.forks &&
         if p.waitingTime + 1 > HungerLimit
         then r.ps[i] == p.(state := Thinking, waitingTime := 0, thinkingTime := 0)
         else r.ps[i] == p.(waitingTime := p.waitingTime + 1))
  {
    var n := |t.ps|;
    var (firstFork, secondFork) := ForkOrder(n, i);
    var r := Step(t, i);
    if !t.forks[firstFork] && !t.forks[secondFork] {
      assert r.forks == t.forks[firstFork := true][secondFork := true];
      if firstFork == i {
        assert secondFork == Right(n, i);
      } else {
        assert firstFork == Right(n, i) && secondFork == i;
      }
    }
  }

  /**
   * An eating philosopher counts one tick; past the limit it frees exactly
   * its own two forks, clears its flags and thinks again.
   */
  lemma EatingTurn(t: Table, i: nat)
    requires WellFormed(t) && i < |t.ps| && t.ps[i].state == Eating
    ensures var n, p, r := |t.ps|, t.ps[i], Step(t, i);
      if p.eatingTime + 1 > EatLimit
      then r.forks == t.forks[i := false][Right(n, i) := false] &&
           r.ps[i] == p.(state := Thinking, leftFork := false, rightFork := false, eatingTime := 0, thinkingTime := 0)
      else r.forks == t.forks && r.ps[i] == p.(eatingTime := p.eatingTime + 1)
  {
    var n := |t.ps|;
    var (firstFork, secondFork) := ForkOrder(n, i);
    if t.ps[i].eatingTime + 1 > EatLimit {
      if firstFork == i {
        assert secondFork == Right(n, i);
      } else {
        assert firstFork == Right(n, i) && secondFork == i;
      }
    }
  }

  lemma StepIsLegal(t: Table, i: nat)
    requires WellFormed(t) && i < |t.ps|
    ensures LegalMove(t.ps[i], Step(t, i).ps[i])
    ensures t.ps[i].state == Hungry ==>
      (Step(t, i).ps[i].state == Eating <==> !t.forks[i] && !t.forks[Right(|t.ps|, i)])
  {
    match t.ps[i].state
    case Thinking =>
    case Hungry => HungryTurn(t, i);
    case Eating =>
  }

  // ---------------------------------------------------------------------
  // A whole tick.

  /** Once philosopher j has had its turn, later turns leave it alone. */
  lemma {:induction false} TurnIsFinal(t: Table, m: nat, j: nat)
    requires WellFormed(t) && j < m <= |t.ps|
    ensures TickUpTo(t, m).ps[j] == Step(TickUpTo(t, j), j).ps[j]
    decreases m
  {
    if m > j + 1 {
      TurnIsFinal(t, m - 1, j);
    }
  }

  /**
   * In one tick each philosopher moves exactly once, from its own record at
   * the start of the tick, seeing the forks as the earlier turns left them.
   */
  lemma TickAt(t: Table, j: nat)
    requires WellFormed(t) && j < |t.ps|
    ensures TickUpTo(t, j).ps[j] == t.ps[j]
    ensures Tick(t).ps[j] == Step(TickUpTo(t, j), j).ps[j]
  {
    TurnIsFinal(t, |t.ps|, j);
  }

  /** Every philosopher makes exactly one legal move per tick. */
  lemma TickIsLegal(t: Table, j: nat)
    requires WellFormed(t) && j < |t.ps|
    ensures LegalMove(t.ps[j], Tick(t).ps[j])
  {
    TickAt(t, j);
    StepIsLegal(TickUpTo(t, j), j);
  }

  /** A legal move always changes the record: some counter or the state advances. */
  lemma LegalMoveAdvances(p: Philosopher, q: Philosopher)
    requires LegalMove(p, q)
    ensures p != q
  {
  }

  /** Every tick changes every philosopher's record, so a tick is never a no-op. */
  lemma TickAdvancesEveryone(t: Table, j: nat)
    requires WellFormed(t) && j < |t.ps|
    ensures Tick(t).ps[j] != t.ps[j]
  {
    TickIsLegal(t, j);
    LegalMoveAdvances(t.ps[j], Tick(t).ps[j]);
  }

  // ---------------------------------------------------------------------
  // Reset.

  /**
   * Reset seats everybody thinking with no flag and frees every fork, and
   * leaves each philosopher's three counters as they were.
   */
  lemma ResetEffect(t: Table)
    ensures |Reset(t).ps| == |t.ps| && |Reset(t).forks| == |t.forks|
    ensures forall k :: 0 <= k < |t.forks| ==> !Reset(t).forks[k]
    ensures forall i :: 0 <= i < |t.ps| ==>
      var p, q := t.ps[i], Reset(t).ps[i];
      q.state == Thinking && !q.leftFork && !q.rightFork &&
      q.thinkingTime == p.thinkingTime && q.eatingTime == p.eatingTime && q.waitingTime == p.waitingTime
  {
  }

  lemma ResetIdempotent(t: Table)
    ensures Reset(Reset(t)) == Reset(t)
  {
    assert Reset(Reset(t)).ps == Reset(t).ps;
    assert Reset(Reset(t)).forks == Reset(t).forks;
  }
}
