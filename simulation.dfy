/**
 * The simulation controller: the ring of philosophers and the fork array it
 * owns, the running/paused flags, the pending-frame handle, and the lifecycle
 * operations that drive the tick.  `Sim` and the functions beside it are the
 * value-level specification that the methods of `DiningPhilosophers` follow.
 */
module Simulation {
  import opened Forks
  import opened Scheduler
  import opened Invariants

  /** The whole controller state; `frame` stands for a pending animation-frame handle. */
  datatype Sim = Sim(table: Table, running: bool, paused: bool, frame: bool)

  /** The table invariant, and paused only while running. */
  ghost predicate Consistent(s: Sim)
  {
    Inv(s.table) && (s.paused ==> s.running)
  }

  /** Between operations, moreover, a frame is pending exactly while running. */
  ghost predicate SimInv(s: Sim)
  {
    Consistent(s) && (s.frame == s.running)
  }

  /** One animation frame: nothing unless running; one tick unless paused; the next frame is requested. */
  function Animated(s: Sim): Sim
    requires WellFormed(s.table)
  {
    if !s.running then s
    else s.(table := if s.paused then s.table else Tick(s.table), frame := true)
  }

  function Started(s: Sim): Sim
    requires WellFormed(s.table)
  {
    if s.running then s else Animated(s.(running := true, paused := false))
  }

  /** The pause button: toggles `paused` while running; un-pausing animates a frame at once. */
  function Toggled(s: Sim): Sim
    requires WellFormed(s.table)
  {
    if !s.running then s
    else if !s.paused then s.(paused := true)
    else Animated(s.(paused := false))
  }

  /** The resume button: presses the pause toggle only when paused. */
  function Resumed(s: Sim): Sim
    requires WellFormed(s.table)
  {
    if s.paused then Toggled(s) else s
  }

  function Stopped(s: Sim): Sim
  {
    Sim(Reset(s.table), false, false, false)
  }

  // ---------------------------------------------------------------------
  // What the lifecycle operations promise.

  /** A tick runs exactly when the simulation is running and not paused. */
  lemma TickGuard(s: Sim)
    requires WellFormed(s.table)
    ensures Animated(s).table != s.table <==> s.running && !s.paused
    ensures s.running && !s.paused ==> Animated(s).table == Tick(s.table)
    ensures Animated(s).running == s.running && Animated(s).paused == s.paused
  {
    if s.running && !s.paused {
      TickAdvancesEveryone(s.table, 0);
    }
  }

  lemma AnimatedKeepsInv(s: Sim)
    requires Consistent(s)
    ensures Consistent(Animated(s))
    ensures s.running ==> Animated(s).frame
    ensures SimInv(s) ==> SimInv(Animated(s))
  {
    if s.running && !s.paused {
      TickKeepsInv(s.table);
    }
  }

  /** Start is a no-op while running; otherwise it runs, unpaused, and takes the first tick. */
  lemma StartEffect(s: Sim)
    requires SimInv(s)
    ensures s.running ==> Started(s) == s
    ensures !s.running ==>
      Started(s).running && !Started(s).paused && Started(s).frame && Started(s).table == Tick(s.table)
    ensures SimInv(Started(s))
  {
    if !s.running {
      TickKeepsInv(s.table);
    }
  }

  /**
   * Pause changes nothing unless running; while running it flips `paused`,
   * and un-pausing takes one tick at once.
   */
  lemma PauseEffect(s: Sim)
    requires SimInv(s)
    ensures !s.running ==> Toggled(s) == s
    ensures s.running ==> Toggled(s).running && Toggled(s).paused == !s.paused
    ensures s.running && !s.paused ==> Toggled(s).table == s.table
    ensures s.running && s.paused ==> Toggled(s).table == Tick(s.table)
    ensures SimInv(Toggled(s))
  {
    if s.running && s.paused {
      TickKeepsInv(s.table);
    }
  }

  /** Resume changes nothing unless paused; then the simulation runs again and ticks once. */
  lemma ResumeEffect(s: Sim)
    requires SimInv(s)
    ensures !s.paused ==> Resumed(s) == s
    ensures s.paused ==> Resumed(s).running && !Resumed(s).paused && Resumed(s).table == Tick(s.table)
    ensures SimInv(Resumed(s))
  {
    PauseEffect(s);
  }

  /**
   * Stop leaves the simulation not running, not paused and with no pending
   * frame, every fork free and everybody thinking without a fork, the
   * counters as they were; stopping twice is stopping once.
   */
  lemma StopEffect(s: Sim)
    requires SimInv(s)
    ensures var r := Stopped(s);
      !r.running && !r.paused && !r.frame &&
      |r.table.ps| == |s.table.ps| &&
      (forall k :: 0 <= k < |r.table.forks| ==> !r.table.forks[k]) &&
      (forall i :: 0 <= i < |r.table.ps| ==>
         r.table.ps[i].state == Thinking && !r.table.ps[i].leftFork && !r.table.ps[i].rightFork &&
         r.table.ps[i].thinkingTime == s.table.ps[i].thinkingTime &&
         r.table.ps[i].eatingTime == s.table.ps[i].eatingTime &&
         r.table.ps[i].waitingTime == s.table.ps[i].waitingTime)
    ensures Stopped(Stopped(s)) == Stopped(s)
    ensures SimInv(Stopped(s))
  {
    ResetEffect(s.table);
    ResetIdempotent(s.table);
  }

  // ---------------------------------------------------------------------
  // The controller object.

  class DiningPhilosophers {
    const numPhilosophers: nat
    const philosophers: array<Philosopher>
    const forks: array<bool>
    var running: bool
    var paused: bool
    /** Whether an animation-frame request is pending (the source keeps its id, or null). */
    var animationFrame: bool

    ghost function View(): Table
      reads this, philosophers, forks
    {
      Table(philosophers[..], forks[..])
    }

    ghost function Model(): Sim
      reads this, philosophers, forks
    {
      Sim(View(), running, paused, animationFrame)
    }

    ghost predicate Shaped()
      reads this
    {
      philosophers.Length == numPhilosophers && forks.Length == numPhilosophers
    }

    ghost predicate Valid()
      reads this, philosophers, forks
    {
      Shaped() && SimInv(Model())
    }

    /** A table of n thinking philosophers with every fork free; not running. */
    constructor (n: nat)
      requires 2 <= n
      ensures Valid()
      ensures fresh(philosophers) && fresh(forks)
      ensures numPhilosophers == n
      ensures Model() == Sim(Initial(n), false, false, false)
    {
      numPhilosophers := n;
      philosophers := new Philosopher[n](_ => Newborn);
      forks := new bool[n](_ => false);
      running := false;
      paused := false;
      animationFrame := false;
      new;
      assert View() == Initial(n);
      InitialInv(n);
    }

    /** One tick, in place: each philosopher in index order updates its record and the shared forks. */
    method Update()
      requires Shaped() && Inv(View())
      modifies philosophers, forks
      ensures Inv(View())
      ensures View() == Tick(old(View()))
    {
      ghost var t0 := View();
      var i := 0;
      while i < numPhilosophers
        invariant 0 <= i <= numPhilosophers
        invariant View() == TickUpTo(t0, i)
      {
        ghost var before := View();
        TakeTurn(i);
        assert View() == Step(before, i);
        i := i + 1;
      }
      assert View() == Tick(t0);
      TickKeepsInv(t0);
    }

    /** Philosopher i's turn: the body of the `forEach` callback in `update`, in place. */
    method TakeTurn(i: nat)
      requires Shaped() && 2 <= numPhilosophers && i < numPhilosophers
      modifies philosophers, forks
      ensures View() == Step(old(View()), i)
    {
      var p := philosophers[i];
      match p.state {
        case Thinking =>
          p := p.(thinkingTime := p.thinkingTime + 1);
          if p.thinkingTime > ThinkLimit {
            p := p.(state := Hungry, thinkingTime := 0, waitingTime := 0);
          }
          philosophers[i] := p;
        case Hungry =>
          var (firstFork, secondFork) := ForkOrder(numPhilosophers, i);
          if !forks[firstFork] && !forks[secondFork] {
            forks[firstFork] := true;
            forks[secondFork] := true;
            p := p.(leftFork := true, rightFork := true, state := Eating, eatingTime := 0, waitingTime := 0);
          } else {
            p := p.(waitingTime := p.waitingTime + 1);
            if p.waitingTime > HungerLimit {
              p := p.(waitingTime := 0, state := Thinking, thinkingTime := 0);
            }
          }
          philosophers[i] := p;
        case Eating =>
          p := p.(eatingTime := p.eatingTime + 1);
          if p.eatingTime > EatLimit {
            var (firstFork, secondFork) := ForkOrder(numPhilosophers, i);
            forks[firstFork] := false;
            forks[secondFork] := false;
            p := p.(leftFork := false, rightFork := false, state := Thinking, eatingTime := 0, thinkingTime := 0);
          }
          philosophers[i] := p;
      }
    }

    /** Everybody back to thinking with no fork and every fork free; counters and flags untouched. */
    method ResetSimulation()
      requires Valid()
      modifies philosophers, forks
      ensures Valid()
      ensures View() == Reset(old(View()))
      ensures running == old(running) && paused == old(paused)
    {
      var i := 0;
      while i < philosophers.Length
        invariant 0 <= i <= philosophers.Length
        invariant forall j :: 0 <= j < i ==> philosophers[j] == ResetPhilosopher(old(philosophers[j]))
        invariant forall j :: i <= j < philosophers.Length ==> philosophers[j] == old(philosophers[j])
        invariant forks[..] == old(forks[..])
      {
        philosophers[i] := philosophers[i].(state := Thinking, leftFork := false, rightFork := false);
        i := i + 1;
      }
      var k := 0;
      while k < forks.Length
        invariant 0 <= k <= forks.Length
        invariant forall j :: 0 <= j < k ==> !forks[j]
        invariant forall j :: 0 <= j < philosophers.Length ==> philosophers[j] == ResetPhilosopher(old(philosophers[j]))
      {
        forks[k] := false;
        k := k + 1;
      }
      assert View() == Reset(old(View()));
      ResetKeepsInv(old(View()));
    }

    /** One animation frame (`animate`): ticks only while running and not paused. */
    method Animate()
      requires Shaped() && Consistent(Model())
      modifies this, philosophers, forks
      ensures Shaped() && Consistent(Model())
      ensures (old(Valid()) || running) ==> Valid()
      ensures Model() == Animated(old(Model()))
    {
      if !running {
        return;
      }
      if !paused {
        Update();
      }
      animationFrame := true;
      AnimatedKeepsInv(old(Model()));
    }

    method Start()
      requires Valid()
      modifies this, philosophers, forks
      ensures Valid()
      ensures Model() == Started(old(Model()))
    {
      if !running {
        running := true;
        paused := false;
        Animate();
      }
    }

    method Pause()
      requires Valid()
      modifies this, philosophers, forks
      ensures Valid()
      ensures Model() == Toggled(old(Model()))
    {
      if running {
        paused := !paused;
        if !paused {
          Animate();
        }
      }
    }

    /** The resume button's handler. */
    method Resume()
      requires Valid()
      modifies this, philosophers, forks
      ensures Valid()
      ensures Model() == Resumed(old(Model()))
    {
      if paused {
        Pause();
      }
    }

    method Stop()
      requires Valid()
      modifies this, philosophers, forks
      ensures Valid()
      ensures Model() == Stopped(old(Model()))
    {
      running := false;
      paused := false;
      if animationFrame {
        animationFrame := false;
      }
      ResetSimulation();
    }
  }
}
