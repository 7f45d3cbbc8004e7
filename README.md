# Dining philosophers simulation — verified model

This project models the simulation engine of a browser-based dining-philosophers
demo. N philosophers sit around a ring, and a fork lies between each pair of
neighbours. On every animation frame the engine runs one *tick*. In a tick, each
philosopher in index order takes one step through thinking → hungry → eating →
thinking.

- Philosopher `i` eats with fork `i` (left) and fork `(i + 1) mod N` (right).
- A hungry philosopher takes both forks in one step, and only if both are free.
  The forks are addressed lower index first. Because both are tested and taken
  within one turn, nobody ever holds one fork while waiting for the other.
- A philosopher who stays hungry for more than 1000 ticks gives up and thinks
  again.
- A philosopher thinks for more than 1000 ticks and eats for more than 1500:
  the switch comes on the turn the counter reaches 1001 or 1501.
- The controller has `start`, a `pause` toggle, a resume button that presses
  the toggle when paused, `stop`, and `resetSimulation`. A tick runs only when
  the simulation is running and not paused.

Layout:

- `forks.dfy` (module `Forks`): fork indices around the ring, and the
  lower-first order in which a philosopher addresses its two forks.
- `scheduler.dfy` (module `Scheduler`): the philosopher record and the table
  as values. `Step` is one philosopher's turn, `TickUpTo`/`Tick` is a whole
  tick in index order, and `Reset` is the reset. The file also holds the
  per-case lemmas and the lemma that every move in a tick is legal.
- `invariants.dfy` (module `Invariants`): the fork/holder invariant and the
  timer bounds. One turn and one tick preserve them. The file also proves
  exactly one holder per held fork, held forks = 2 × eaters, and freedom from
  deadlock.
- `simulation.dfy` (module `Simulation`): the `DiningPhilosophers` class. It
  holds `forks: array<bool>`, `philosophers: array<Philosopher>`, and the
  `running`, `paused` and `animationFrame` fields. Its methods update these in
  place. Each method is proved against a value-level function (`Animated`,
  `Started`, `Toggled`, `Resumed`, `Stopped`, `Tick`, `Reset`), and lemmas
  state what those functions guarantee.

Points of the code worth knowing:

- `resetSimulation` (script.js:88-97) resets the state, the hold flags and the
  forks, and leaves the three counters as they were.
- Resume is the pause toggle pressed while paused (script.js:322-326), not a
  separate operation.
- Taking the forks also zeroes `waitingTime` (script.js:167).
- `start()` runs one tick at once, because it calls `animate()`
  (script.js:60). So does un-pausing (script.js:70-72).

## Model

| member | source | states |
|---|---|---|
| Forks.Right | script.js:153 | a philosopher's right fork is the next seat round the ring, wrapping from n-1 to 0 |
| Forks.ForkOrder | script.js:152-157 | the first fork is strictly below the second, and the two together are exactly {i, (i+1) mod n}, so a philosopher's two forks are distinct when n ≥ 2 |
| Scheduler.Step | script.js:140-195 | one philosopher's turn changes no other philosopher's record and no fork other than its own two |
| Scheduler.TickUpTo | script.js:140-196 | after the first m turns, the philosophers from m on are still as they were at the start of the tick, and the shape of the table is kept |
| Scheduler.ThinkingTurn | script.js:142-149 | a thinking philosopher adds 1 to thinkingTime; past 1000 it becomes hungry with thinkingTime and waitingTime 0; the forks are untouched |
| Scheduler.HungryTurn | script.js:151-176 | a hungry philosopher eats iff forks i and (i+1) mod n are both free; then exactly those two forks become held, both flags are set and eatingTime and waitingTime are 0; otherwise the forks are untouched, waitingTime goes up by 1, and past 1000 the philosopher thinks again with both counters 0 |
| Scheduler.EatingTurn | script.js:178-194 | an eating philosopher adds 1 to eatingTime; past 1500 exactly its two forks are freed, its flags are cleared and it thinks with eatingTime and thinkingTime 0; otherwise the forks are untouched |
| Scheduler.StepIsLegal | script.js:141-195 | every turn is a legal move: thinking → hungry, hungry → thinking and eating → thinking happen only when the counter runs past its limit, and it never goes thinking → eating or eating → hungry; a hungry philosopher moves to eating exactly when forks i and (i+1) mod n are both free |
| Scheduler.TurnIsFinal | script.js:140 | once a philosopher has had its turn, the later turns of the same tick leave its record alone |
| Scheduler.TickAt | script.js:140-196 | in a tick, each philosopher moves once, from the record it had at the start of the tick, and sees the forks as the earlier turns left them |
| Scheduler.TickIsLegal | script.js:139-198 | over a whole tick, every philosopher makes exactly one legal move |
| Scheduler.TickAdvancesEveryone | script.js:139-198 | a tick changes every philosopher's record |
| Scheduler.ResetEffect | script.js:88-94 | after reset, every philosopher is thinking with no flag, every fork is free, the counters are unchanged and the lengths are kept |
| Scheduler.ResetIdempotent | script.js:88-94 | resetting twice is resetting once |
| Invariants.InitialInv | script.js:40-53 | the table of n freshly seated philosophers, all thinking with zero counters and all forks free, satisfies the fork invariant and the timer bounds |
| Invariants.StepKeepsForkInv | script.js:151-193 | one turn keeps the fork invariant: flags equal (state == eating), no two neighbours eat, and fork k is held iff philosopher k or philosopher k-1 eats |
| Invariants.SameEatersKeepForkInv | script.js:142-179 | a turn that changes nobody's eating status, keeps the flags and touches no fork keeps the fork invariant: the thinking turn (142-149), the waiting and giving-up turns (168-175) and the still-eating turn (179) |
| Invariants.AcquireKeepsForkInv | script.js:159-167 | a hungry philosopher taking its two free forks keeps the fork invariant: neither neighbour can be eating |
| Invariants.ReleaseKeepsForkInv | script.js:180-192 | an eating philosopher putting its two forks back keeps the fork invariant |
| Invariants.ResetKeepsInv | script.js:88-94 | reset establishes the fork invariant and keeps the timer bounds |
| Invariants.StepKeepsTimersBounded | script.js:142-193 | one turn keeps thinkingTime ≤ 1000, waitingTime ≤ 1000 and eatingTime ≤ 1500 |
| Invariants.TickUpToKeepsInv | script.js:140-196 | every prefix of a tick keeps both invariants |
| Invariants.TickKeepsInv | script.js:139-198 | a whole tick keeps both invariants |
| Invariants.ExactlyOneHolder | script.js:159-162 | under the invariant, a held fork is in the hands of exactly one eating philosopher, and a free fork in none |
| Invariants.FlagsMatchForks | script.js:163-164 | under the invariant, the two hold flags are equal, they are set iff the philosopher eats, and an eating philosopher's two forks are held |
| Invariants.HeldForksTwiceEating | script.js:159-162 | under the invariant, the number of held forks is twice the number of eaters, so it is even and at most n |
| Invariants.ThinkersLeaveForks | script.js:142-149 | the turns of thinking philosophers do not touch the fork array |
| Invariants.NoDeadlock | script.js:155-167 | if nobody eats and somebody is hungry, somebody eats after one tick |
| Simulation.TickGuard | script.js:130-137 | an animation frame changes the table iff running and not paused, and then by exactly one tick; it leaves running and paused alone |
| Simulation.AnimatedKeepsInv | script.js:130-137 | an animation frame keeps the table invariant and paused ⟹ running, and leaves a frame requested whenever running |
| Simulation.StartEffect | script.js:55-63 | start does nothing while running; otherwise it leaves the simulation running and unpaused with a frame requested, one tick taken, and the invariants kept |
| Simulation.PauseEffect | script.js:65-74 | pause does nothing unless running; while running it flips paused; pausing leaves the table alone, un-pausing takes one tick; the invariants are kept |
| Simulation.ResumeEffect | script.js:322-326 | resume does nothing unless paused; then it leaves the simulation running, unpaused, and one tick further on |
| Simulation.StopEffect | script.js:76-97 | stop leaves it not running, not paused and with no pending frame; every fork is free and everybody thinks with no flag; the counters are unchanged; stopping twice equals stopping once |
| Simulation.DiningPhilosophers.constructor | script.js:15-53 | a new controller has n thinking philosophers with zero counters, every fork free, and is not running, not paused and without a pending frame |
| Simulation.DiningPhilosophers.Update | script.js:139-198 | the in-place loop over the philosophers leaves the arrays equal to Tick of their old contents and keeps the invariants |
| Simulation.DiningPhilosophers.TakeTurn | script.js:141-195 | philosopher i's turn, done in place on the two arrays, leaves them equal to Step of their old contents |
| Simulation.DiningPhilosophers.ResetSimulation | script.js:88-97 | the in-place loops leave the arrays equal to Reset of their old contents, and running and paused unchanged |
| Simulation.DiningPhilosophers.Animate | script.js:130-137 | the new controller state is Animated of the old one |
| Simulation.DiningPhilosophers.Start | script.js:55-63 | the new controller state is Started of the old one, with the invariants kept |
| Simulation.DiningPhilosophers.Pause | script.js:65-74 | the new controller state is Toggled of the old one, with the invariants kept |
| Simulation.DiningPhilosophers.Resume | script.js:322-326 | the new controller state is Resumed of the old one, with the invariants kept |
| Simulation.DiningPhilosophers.Stop | script.js:76-86 | the new controller state is Stopped of the old one, with the invariants kept |

## Left out

- Canvas set-up and every drawing routine (`setupCanvas`, `draw`, `getPhilosopherColor`): presentation only, in floating-point geometry.
- The philosophers' `x`/`y` coordinates and the angle arithmetic that places them: floating point, with no effect on behaviour.
- The `id` field of a philosopher: it always equals the array index, and only the status text reads it.
- DOM output (`updateButtons`, `updateStatus`, the HTML in `updatePhilosopherStatus`), including the status refresh at the end of `update` and `resetSimulation`: UI only.
- `requestAnimationFrame`/`cancelAnimationFrame` scheduling and the `DOMContentLoaded` bootstrap: browser I/O. `animate` is modelled as one guarded step, and the frame id as a flag `animationFrame` that says whether a request is pending.
- Simulation.DiningPhilosophers.Animate: the model does not count pending frame callbacks. In the source, un-pausing calls `animate()` while the callback scheduled during the pause is still pending, so a second callback chain starts beside the first. The model does not capture that.
- Liveness over many ticks (somebody eats within every window of a given length) is not proved. `NoDeadlock` proves the one-tick step: with nobody eating, a hungry philosopher gets both forks.
- The seat count: the source fixes it at 5 (script.js:23). The model takes any n ≥ 2 as a constructor parameter.
- JavaScript numbers are modelled as unbounded naturals. The invariant keeps every counter at most 1500, so precision never matters.
- Philosopher objects are modelled as immutable records stored in an array, and the in-place field updates as replacing the record at the same index. The source does not alias these objects anywhere.
