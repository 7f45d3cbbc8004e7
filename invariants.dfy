/**
 * What every tick keeps true of the table: the hold flags match the state,
 * no two neighbours eat at once, a fork is held exactly when one of its two
 * users eats, and no counter runs past its limit.  From these follow mutual
 * exclusion on every fork, the count of held forks and freedom from
 * deadlock.
 */
module Invariants {
  import opened Forks
  import opened Scheduler

  predicate Eats(t: Table, i: nat)
    requires i < |t.ps|
  {
    t.ps[i].state == Eating
  }

  /** Both hold flags are set exactly while the philosopher eats. */
  predicate Paired(p: Philosopher)
  {
    p.leftFork == (p.state == Eating) && p.rightFork == (p.state == Eating)
  }

  ghost predicate ForkInv(t: Table)
  {
    && WellFormed(t)
    && (forall i :: 0 <= i < |t.ps| ==> Paired(t.ps[i]))
    && (forall i :: 0 <= i < |t.ps| ==> !(Eats(t, i) && Eats(t, Right(|t.ps|, i))))
    && (forall k :: 0 <= k < |t.forks| ==> t.forks[k] == (Eats(t, k) || Eats(t, Prev(|t.ps|, k))))
  }

  /** Between ticks no counter is past its limit. */
  ghost predicate TimersBounded(t: Table)
  {
    forall i :: 0 <= i < |t.ps| ==>
      t.ps[i].thinkingTime <= ThinkLimit && t.ps[i].waitingTime <= HungerLimit && t.ps[i].eatingTime <= EatLimit
  }

  ghost predicate Inv(t: Table)
  {
    ForkInv(t) && TimersBounded(t)
  }

  /** Reset establishes the fork invariant and keeps the timer bounds. */
  lemma ResetKeepsInv(t: Table)
    requires WellFormed(t) && TimersBounded(t)
    ensures Inv(Reset(t))
  {
    ResetEffect(t);
  }

  lemma InitialInv(n: nat)
    requires 2 <= n
    ensures Inv(Initial(n))
  {
  }

  // ---------------------------------------------------------------------
  // One turn keeps the invariant.

  /** A turn that moves nobody into or out of eating and touches no fork keeps the fork invariant. */
  lemma SameEatersKeepForkInv(t: Table, r: Table, i: nat)
    requires ForkInv(t) && i < |t.ps|
    requires |r.ps| == |t.ps| && r.forks == t.forks
    requires forall j :: 0 <= j < |t.ps| && j != i ==> r.ps[j] == t.ps[j]
    requires (r.ps[i].state == Eating) == (t.ps[i].state == Eating)
    requires r.ps[i].leftFork == t.ps[i].leftFork && r.ps[i].rightFork == t.ps[i].rightFork
    ensures ForkInv(r)
  {
    assert forall m :: 0 <= m < |t.ps| ==> (Eats(r, m) <==> Eats(t, m));
  }

  /** Taking both free forks keeps the fork invariant: neither neighbour can be eating. */
  lemma AcquireKeepsForkInv(t: Table, i: nat)
    requires ForkInv(t) && i < |t.ps| && t.ps[i].state == Hungry
    requires !t.forks[i] && !t.forks[Right(|t.ps|, i)]
    ensures ForkInv(Step(t, i))
  {
    var n, r := |t.ps|, Step(t, i);
    var j := Right(n, i);
    HungryTurn(t, i);
    PrevOfRight(n, i);
    assert !Eats(t, Prev(n, i)) && !Eats(t, j);
    forall k | 0 <= k < n
      ensures r.forks[k] == (Eats(r, k) || Eats(r, Prev(n, k)))
    {
      if k != i && k != j {
        assert Prev(n, k) != i;
      }
    }
  }

  /** Putting both forks back keeps the fork invariant: neither neighbour was eating. */
  lemma ReleaseKeepsForkInv(t: Table, i: nat)
    requires ForkInv(t) && i < |t.ps| && t.ps[i].state == Eating
    requires t.ps[i].eatingTime + 1 > EatLimit
    ensures ForkInv(Step(t, i))
  {
    var n, r := |t.ps|, Step(t, i);
    var j := Right(n, i);
    EatingTurn(t, i);
    PrevOfRight(n, i);
    RightIsOtherFork(n, i);
    assert !Eats(t, Prev(n, i)) && !Eats(t, j);
    forall k | 0 <= k < n
      ensures r.forks[k] == (Eats(r, k) || Eats(r, Prev(n, k)))
    {
      if k != i && k != j {
        assert Prev(n, k) != i;
      }
    }
  }

  lemma {:induction false} StepKeepsForkInv(t: Table, i: nat)
    requires ForkInv(t) && i < |t.ps|
    ensures ForkInv(Step(t, i))
  {
    var n := |t.ps|;
    match t.ps[i].state
    case Thinking =>
      ThinkingTurn(t, i);
      SameEatersKeepForkInv(t, Step(t, i), i);
    case Hungry =>
      HungryTurn(t, i);
      if !t.forks[i] && !t.forks[Right(n, i)] {
        AcquireKeepsForkInv(t, i);
      } else {
        SameEatersKeepForkInv(t, Step(t, i), i);
      }
    case Eating =>
      EatingTurn(t, i);
      if t.ps[i].eatingTime + 1 > EatLimit {
        ReleaseKeepsForkInv(t, i);
      } else {
        SameEatersKeepForkInv(t, Step(t, i), i);
      }
  }

  lemma StepKeepsTimersBounded(t: Table, i: nat)
    requires WellFormed(t) && TimersBounded(t) && i < |t.ps|
    ensures TimersBounded(Step(t, i))
  {
  }

  // ---------------------------------------------------------------------
  // A tick keeps the invariant.

  lemma {:induction false} TickUpToKeepsInv(t: Table, m: nat)
    requires Inv(t) && m <= |t.ps|
    ensures Inv(TickUpTo(t, m))
    decreases m
  {
    if m > 0 {
      TickUpToKeepsInv(t, m - 1);
      StepKeepsForkInv(TickUpTo(t, m - 1), m - 1);
      StepKeepsTimersBounded(TickUpTo(t, m - 1), m - 1);
    }
  }

  lemma TickKeepsInv(t: Table)
    requires Inv(t)
    ensures Inv(Tick(t))
  {
    TickUpToKeepsInv(t, |t.ps|);
  }

  // ---------------------------------------------------------------------
  // Mutual exclusion.

  /** The eating philosophers that have fork k in their hands. */
  ghost function Holders(t: Table, k: nat): set<nat>
    requires WellFormed(t) && k < |t.ps|
  {
    set i | 0 <= i < |t.ps| && Eats(t, i) && (k == i || k == Right(|t.ps|, i))
  }

  /** A held fork has exactly one holder, and a free fork has none. */
  lemma ExactlyOneHolder(t: Table, k: nat)
    requires ForkInv(t) && k < |t.forks|
    ensures |Holders(t, k)| <= 1
    ensures t.forks[k] <==> |Holders(t, k)| == 1
  {
    var n := |t.ps|;
    var q := Prev(n, k);
    PrevOfRight(n, q);
    forall i | i in Holders(t, k)
      ensures i == k || i == q
    {
      if k != i {
        PrevOfRight(n, i);
      }
    }
    if Eats(t, k) {
      assert !Eats(t, q);
      assert Holders(t, k) == {k};
    } else if Eats(t, q) {
      assert Holders(t, k) == {q};
    } else {
      assert Holders(t, k) == {};
    }
  }

  /** The hold flags and the fork array agree: an eating philosopher's two forks are held. */
  lemma FlagsMatchForks(t: Table, i: nat)
    requires ForkInv(t) && i < |t.ps|
    ensures t.ps[i].leftFork == t.ps[i].rightFork
    ensures t.ps[i].leftFork <==> t.ps[i].state == Eating
    ensures t.ps[i].state == Eating ==> t.forks[i] && t.forks[Right(|t.ps|, i)]
  {
    PrevOfRight(|t.ps|, i);
  }

  // ---------------------------------------------------------------------
  // Counting: held forks come in pairs.

  function CountTrue(s: seq<bool>): (c: nat)
    ensures c <= |s|
  {
    if s == [] then 0 else (if s[0] then 1 else 0) + CountTrue(s[1..])
  }

  lemma {:induction false} CountConcat(a: seq<bool>, b: seq<bool>)
    ensures CountTrue(a + b) == CountTrue(a) + CountTrue(b)
    decreases |a|
  {
    if a == [] {
      assert a + b == b;
    } else {
      assert (a + b)[1..] == a[1..] + b;
      CountConcat(a[1..], b);
    }
  }

  /** Counting the pointwise "or" of two sequences that are never both true. */
  lemma {:induction false} CountDisjointOr(a: seq<bool>, b: seq<bool>, c: seq<bool>)
    requires |a| == |b| == |c|
    requires forall k :: 0 <= k < |c| ==> c[k] == (a[k] || b[k]) && !(a[k] && b[k])
    ensures CountTrue(c) == CountTrue(a) + CountTrue(b)
    decreases |c|
  {
    if c != [] {
      CountDisjointOr(a[1..], b[1..], c[1..]);
    }
  }

  function EatingMask(t: Table): (e: seq<bool>)
    ensures |e| == |t.ps|
    ensures forall i :: 0 <= i < |t.ps| ==> e[i] == Eats(t, i)
  {
    seq(|t.ps|, i requires 0 <= i < |t.ps| => Eats(t, i))
  }

  /** The number of philosophers eating. */
  function EatingCount(t: Table): nat
  {
    CountTrue(EatingMask(t))
  }

  /** Each eater holds two forks and no fork is shared: held forks = 2 * eaters <= n. */
  lemma HeldForksTwiceEating(t: Table)
    requires ForkInv(t)
    ensures CountTrue(t.forks) == 2 * EatingCount(t)
    ensures 2 * EatingCount(t) <= |t.forks|
  {
    var n := |t.ps|;
    var e := EatingMask(t);
    var before := [e[n - 1]] + e[..n - 1];
    forall k | 0 <= k < n
      ensures before[k] == Eats(t, Prev(n, k))
    {
    }
    forall k | 0 <= k < n
      ensures !(e[k] && before[k])
    {
      PrevOfRight(n, Prev(n, k));
    }
    CountDisjointOr(e, before, t.forks);
    CountConcat([e[n - 1]], e[..n - 1]);
    CountConcat(e[..n - 1], [e[n - 1]]);
    assert e[..n - 1] + [e[n - 1]] == e;
  }

  // ---------------------------------------------------------------------
  // Deadlock freedom.

  /** Turns of thinking philosophers do not touch the fork array. */
  lemma {:induction false} ThinkersLeaveForks(t: Table, m: nat)
    requires WellFormed(t) && m <= |t.ps|
    requires forall i :: 0 <= i < m ==> t.ps[i].state == Thinking
    ensures TickUpTo(t, m).forks == t.forks
    decreases m
  {
    if m > 0 {
      ThinkersLeaveForks(t, m - 1);
      ThinkingTurn(TickUpTo(t, m - 1), m - 1);
    }
  }

  /**
   * If nobody eats and somebody is hungry, then after one tick somebody
   * eats.  What rules out a circular wait is that a philosopher tests and
   * takes both its forks within its one turn, so nobody ever holds a single
   * fork while waiting for the other.
   */
  lemma NoDeadlock(t: Table, j: nat)
    requires ForkInv(t) && j < |t.ps|
    requires forall i :: 0 <= i < |t.ps| ==> !Eats(t, i)
    requires t.ps[j].state == Hungry
    ensures exists i :: 0 <= i < |t.ps| && Eats(Tick(t), i)
  {
    var n := |t.ps|;
    var h := 0;
    while t.ps[h].state != Hungry
      invariant h <= j
      invariant forall i :: 0 <= i < h ==> t.ps[i].state == Thinking
      decreases j - h
    {
      h := h + 1;
    }
    ThinkersLeaveForks(t, h);
    TickAt(t, h);
    HungryTurn(TickUpTo(t, h), h);
    assert !t.forks[h] && !t.forks[Right(n, h)];
    assert Eats(Tick(t), h);
  }
}
