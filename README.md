# GCC2023 action game — a verified model of its game logic

This Dafny project models the game logic of a small Unity action game. The
player fights a group of enemies against a countdown. It clears the game by
destroying every enemy, and loses when its HP reaches 0 or when the time runs
out.

The model covers:

- **`StateBase`** (`state_base.dfy`, `enemy_states.dfy`). This is the three-stage state runtime: Enter, Update and Exit, with a deferred `Transition` that the next `Process` hands off. It is stated on values in `StateBase` and implemented by the class `EnemyStates.EnemyState`, whose `stage` and `next` fields the methods update.
- **The enemy behaviour states** Patrol, Pursue, Attack, Damage and Dead (`enemy_states.dfy`). Each state's Enter, Update and Exit hook is modelled, together with the transition graph those hooks request.
- **The enemy actor** (`enemy.dfy`). It covers:
  - the HP floor at 0;
  - the attack and damage flags that gate its per-frame update;
  - the attack chain driven by `Invoke`;
  - damage with knockback;
  - death, and destruction.
- **The player actor** (`player.dfy`). It covers:
  - HP and the HP gauge;
  - the flags that lock input;
  - the attack that targets the nearest live enemy within 4 m;
  - damage, death and the game-over banner.
- **The enemy registry** `EnemyManager` (`enemy_manager.dfy`). It covers removal with the game-clear signal, and the nearest-live-enemy scan with its first-wins tie-break.
- **The countdown** `GameManager` (`game_manager.dfy`) and the **"mm:ss" time text** `TimeView` (`time_view.dfy`).
- **The timed follow-ups** (`timeline.dfy`): pending `Invoke` calls coming due and knockback tweens completing.

The engine's services are represented as follows:

- **Distances.** The distance between two actors is an input. Movement is reported as the distance left after the move.
- **Timers.** Pending `Invoke` calls are a multiset of timers on each actor. A caller fires any of them in any order.
- **Knockback tween.** The running knockback tween is a single slot holding its completion callback. Starting a new knockback kills the old tween, so the new callback replaces the old one.
- **Animator and effects.** Animator triggers and visual effects are appended to an event log.
- **Screen UI.** The game-end banner, the HP gauge and the time text are appended to a `Screen` log.

`Enemy.cs` is the flag-based version of the enemy. The enemy states call members it does not have: `Transition`, `ReduceHP`, `AttackRange`, `MaxSpeed`, `Animator`, `HitCollider`, and a public `KnockBack` and `EndDead`. The class `EnemyActor.Enemy` supplies them as an interface, with the meaning their names and uses give them:

- **Transition.** The enemy's `Transition` forwards to its current state.
- **ReduceHP.** `ReduceHP` is the same `Mathf.Max(hp - damage, 0)` that `Damage` uses.
- **KnockBack.** `KnockBack(onComplete)` is the tween with an optional callback.

In the same way, `EnemyManager.IsExistEnemy`, which `GameManager` reads, is taken to mean that at least one enemy is still registered.

The code does the following, and the model follows it:

- Pursue attacks on distance alone, with no facing tolerance.
- The Attack state has no windup or recovery timers and never transitions by itself.
- Damage does not cancel pending `Invoke` calls; only `OnDestroy` does.

## Model

| member | source | states |
|---|---|---|
| Common.ReduceHP | Assets/Scripts/Enemy.cs:153 | new HP is never negative, never below `hp - damage`, and is either 0 or exactly `hp - damage` |
| Common.DamageNeverHeals | Assets/Scripts/Player.cs:178 | a non-negative hit leaves HP in [0, hp], and HP reaches 0 exactly when damage ≥ hp |
| StateBase.LastTransitionWins | Assets/Scripts/StateBase.cs:52-55 | a second Transition before the hand-off replaces the first; only the last successor is recorded |
| StateBase.HandOffOnlyOnExit | Assets/Scripts/StateBase.cs:32-48 | Process hands back something other than `this` exactly on the Exit stage, and then it is the recorded successor |
| StateBase.TransitionInEnterWins | Assets/Scripts/StateBase.cs:17-19 | a Transition issued inside Enter (after the base Enter) leaves the stage at Exit; without one Enter leaves it at Update |
| StateBase.RunWithoutRequest | Assets/Scripts/StateBase.cs:37-39 | a state in Update with no Transition runs Update on every call and never hands off |
| StateBase.RunUntilRequest | Assets/Scripts/StateBase.cs:40-43 | from Update, the first Transition issued on call j makes call j+1 run Exit and hand off exactly that successor |
| StateBase.LifetimeOfFreshState | Assets/Scripts/StateBase.cs:32-48 | a new state runs Enter once and first, then Update until the first Transition, then Exit once, handing off the first requested successor |
| StateBase.LifetimeWithoutRequest | Assets/Scripts/StateBase.cs:11 | a new state starts at Enter; with no Transition it runs Enter once and then Update forever |
| StateBase.TransitionBeforeFirstProcess | Assets/Scripts/StateBase.cs:52-55 | a Transition from outside before the first Process skips Enter: the first call runs Exit and hands off |
| EnemyActor.MoveTowards | Assets/Scripts/Enemy.cs:80-81 | the move toward the player covers at most `maxSpeed·dt`, never passes the player, and stops short only by reaching it |
| EnemyActor.Damaged | Assets/Scripts/Enemy.cs:136-179 | nothing once dead; otherwise the attack flag drops, the damage flag rises, HP = max(hp − damage, 0), and the reset, damage number and effects are logged; a lethal hit schedules EndDead at 2 s and leaves no knockback callback; a non-lethal one schedules nothing and sets the knockback callback to EndDamage; the collider, power, move flag and destroyed mark are untouched |
| EnemyActor.HitsKillAtMostOnce | Assets/Scripts/Enemy.cs:137-153 | over any series of non-negative hits HP stays in [0, start] and at most one EndDead is scheduled |
| EnemyActor.NoDamageAfterDeath | Assets/Scripts/Enemy.cs:137-140 | once HP is 0 any series of hits changes nothing at all |
| EnemyActor.React | Assets/Scripts/Enemy.cs:59-82 | Update idles exactly while attacking, damaged, dead or when the player is dead; otherwise it attacks within attack range and moves beyond it |
| EnemyActor.Enemy.constructor | Assets/Scripts/Enemy.cs:53-56 | Awake: HP is 30, the move flag is up, nothing is pending |
| EnemyActor.Enemy.Update | Assets/Scripts/Enemy.cs:59-82 | per React: idle changes nothing; the attack raises the flag, lowers IsMove and does not move; otherwise the enemy moves by MoveTowards |
| EnemyActor.Enemy.Attack | Assets/Scripts/Enemy.cs:85-92 | attack flag up, Attack trigger, IsMove down, nothing else changes |
| EnemyActor.Enemy.AttackImpactEvent | Assets/Scripts/Enemy.cs:98-105 | power 20, collider on, DisableAttackCollider pending at 0.1 s |
| EnemyActor.Enemy.DisableAttackCollider | Assets/Scripts/Enemy.cs:108-112 | collider off, EndAttack pending at 1 s |
| EnemyActor.Enemy.EndAttack | Assets/Scripts/Enemy.cs:115-120 | attack flag down, IsMove up |
| EnemyActor.Enemy.Damage | Assets/Scripts/Enemy.cs:136-179 | the new state is exactly `Damaged` of the old one |
| EnemyActor.Enemy.EndDamage | Assets/Scripts/Enemy.cs:231-234 | only the damage flag drops |
| EnemyActor.Enemy.Dead | Assets/Scripts/Enemy.cs:237-242 | Dead trigger, one EndDead pending at 2 s |
| EnemyActor.Enemy.OnDestroy | Assets/Scripts/Enemy.cs:251-254 | every pending Invoke is cancelled, nothing else changes |
| EnemyActor.Enemy.Destroy | Assets/Scripts/EnemyManager.cs:29 | destroying the object cancels every pending Invoke, kills the running knockback and marks it destroyed; nothing else changes |
| EnemyActor.Enemy.IsDead | Assets/Scripts/Enemy.cs:50 | dead exactly when HP ≤ 0 (a definition, no contract) |
| EnemyActor.Enemy.KnockBack | Assets/Scripts/Enemy.cs:216-228 | the running knockback is replaced: its callback becomes `onComplete` |
| EnemyActor.Enemy.CompleteKnockBack | Assets/Scripts/Enemy.cs:227 | the finished knockback hands back its callback and leaves no knockback running |
| EnemyActor.Enemy.ReduceHP | Assets/Scripts/EnemyState/EnemyStateDamage.cs:30 | HP becomes max(hp − damage, 0), nothing else changes |
| EnemyStates.PursueChoice | Assets/Scripts/EnemyState/EnemyStatePursue.cs:29-40 | Attack exactly when distance ≤ attack range; give up exactly when beyond both attack range and 5; move exactly in between |
| EnemyStates.RequestsFollowGraph | Assets/Scripts/EnemyState/EnemyStatePursue.cs:29-40 | every Transition a hook issues is an edge of the graph Patrol→Pursue, Pursue→Attack/Patrol, Damage→Dead/Patrol |
| EnemyStates.AttackAndDeadNeverRequest | Assets/Scripts/EnemyState/EnemyStateDead.cs:6-12 | Attack and Dead never call Transition, and Dead has no outgoing edge |
| EnemyStates.PatrolSearch | Assets/Scripts/EnemyState/EnemyStatePatrol.cs:14-19 | Patrol requests Pursue exactly when distance < 5 and nothing at 5 or beyond |
| EnemyStates.DamageDecidesInEnter | Assets/Scripts/EnemyState/EnemyStateDamage.cs:45-49 | Damage requests Dead in Enter exactly when the stored hit is lethal, and nothing otherwise or later |
| EnemyStates.DamageEnter | Assets/Scripts/EnemyState/EnemyStateDamage.cs:20-57 | the Attack trigger reset comes first in the log, HP drops by the stored amount, damage number and effects once, lethal branch without Damage trigger or callback, else the Damage trigger and a Patrol callback; flags, timers and the destroyed mark untouched |
| EnemyStates.PatrolAndAttackKeepHP | Assets/Scripts/EnemyState/EnemyStateAttack.cs:6-10 | Patrol's hooks change nothing on the enemy; Attack's Enter only fires the Attack trigger |
| EnemyStates.DeadSchedulesOneEndDead | Assets/Scripts/EnemyState/EnemyStateDead.cs:6-12 | Dead's Enter fires the Dead trigger and adds exactly one EndDead at 2 s; its other hooks do nothing |
| EnemyStates.Remaining | Assets/Scripts/EnemyState/EnemyStatePursue.cs:43-44 | only Pursue's Update moves, only between attack range and 5, by at most the step and never past the player |
| EnemyStates.EnemyState.constructor | Assets/Scripts/EnemyState/EnemyStateDamage.cs:14-17 | a new state stores its kind (Damage: amount and source) and starts at Enter with no successor |
| EnemyStates.EnemyState.Transition | Assets/Scripts/StateBase.cs:52-55 | records the successor and sets the stage to Exit, nothing else |
| EnemyStates.EnemyState.Process | Assets/Scripts/StateBase.cs:32-48 | the new slot is `AfterHook` of the old one with the state's own request; returns `this`, or on Exit the recorded successor; the enemy changes by `HookEffect` |
| EnemyStates.EnemyState.Enter | Assets/Scripts/StateBase.cs:17-19 | the base Enter moves to Update before the override's work; a Transition inside it wins |
| EnemyStates.EnemyState.EnterDamage | Assets/Scripts/EnemyState/EnemyStateDamage.cs:21-57 | on the enemy: `DamageEnter`; on the state: Exit with successor Dead if lethal, else unchanged |
| EnemyStates.EnemyState.Update | Assets/Scripts/EnemyState/EnemyStatePursue.cs:18-45 | Patrol and Pursue request per the graph, at most one Transition per call, and move per `Remaining` |
| EnemyStates.EnemyState.Exit | Assets/Scripts/EnemyState/EnemyStatePursue.cs:48-52 | Pursue lowers IsMove; the other kinds change nothing |
| EnemyRegistry.RemoveFirst | Assets/Scripts/EnemyManager.cs:28 | a non-member leaves the list unchanged; for a member the list is one shorter, exactly one occurrence is gone (as a multiset), and the elements before and after the first occurrence keep their order |
| EnemyRegistry.RemoveKeepsDistinct | Assets/Scripts/EnemyManager.cs:22-28 | removal keeps the list free of duplicates and leaves the removed enemy absent |
| EnemyRegistry.RemoveTwiceIsRemoveOnce | Assets/Scripts/EnemyManager.cs:22-28 | removing the same enemy twice equals removing it once |
| EnemyRegistry.ClearOnLastRemoval | Assets/Scripts/EnemyManager.cs:31-35 | game clear is signalled exactly when the list held only the removed enemy and the player is alive |
| EnemyRegistry.NearestIsUnique | Assets/Scripts/EnemyManager.cs:62 | the strict `<` tie-break makes the nearest position unique |
| EnemyRegistry.EnemyManager.constructor | Assets/Scripts/EnemyManager.cs:11-17 | the registry holds the distinct child enemies in order |
| EnemyRegistry.EnemyManager.Remove | Assets/Scripts/EnemyManager.cs:21-36 | a non-member changes nothing; a member is removed (first occurrence) and destroyed (timers cancelled, knockback killed, marked destroyed); game clear shown exactly per `ClearsGame` |
| EnemyRegistry.EnemyManager.GetNearestEnemy | Assets/Scripts/EnemyManager.cs:41-69 | null exactly when no live enemy is within range; otherwise a live in-range member no farther than any other, and strictly nearer than every earlier one |
| PlayerActor.Hurt | Assets/Scripts/Player.cs:165-193 | nothing once dead; otherwise attack flag down, damage flag up, HP = max(hp − damage, 0); lethal: Dead trigger and EndDead at 2 s; else Damage trigger and EndDamage at 0.5 s |
| PlayerActor.LethalHitLocksInput | Assets/Scripts/Player.cs:183-186 | a lethal hit leaves input locked, schedules no EndDamage, and every later hit is a no-op |
| PlayerActor.Fire | Assets/Scripts/Player.cs:196-199 | DisableAttackCollider drops the collider and the attack flag; EndDamage drops the damage flag; EndDead changes no field |
| PlayerActor.DeadPlayerRegainsInput | Assets/Scripts/Player.cs:196-199 | as written, a lethal hit while an earlier hit's EndDamage is pending, then that EndDamage, leave a dead player with input open (shown with hits of 50 and 60) |
| PlayerActor.GameHitsReopenInput | Assets/Scripts/Player.cs:165-199 | as written, from Start and with the 20-point hits enemies deal: three hits each followed by its EndDamage, a fourth hit, a fifth before the fourth's EndDamage, then that EndDamage, leave the player at HP 0 with input open |
| PlayerActor.HurtFixed | Assets/Scripts/Player.cs:202-207 | on a lethal hit exactly Hurt's result with every pending EndDamage cancelled; otherwise exactly Hurt |
| PlayerActor.StepFixedKeepsLocked | Assets/Scripts/Player.cs:202-207 | with the fix, every tap, hit, attack impact or due timer keeps a dead player locked |
| PlayerActor.FixedDeadPlayerStaysLocked | Assets/Scripts/Player.cs:39 | with the fix, after any sequence of taps, hits, attack impacts and due timers a dead player never accepts input |
| PlayerActor.StartedIsLocked | Assets/Scripts/Player.cs:52-56 | the player after Start satisfies the locking invariant |
| PlayerActor.Step | Assets/Scripts/Player.cs:98-199 | one event as the player handles it: only a hit changes HP, only a tap with input open raises the attack flag, a pending due timer is used up and an absent one changes nothing |
| PlayerActor.Player.IsDead | Assets/Scripts/Player.cs:36 | dead exactly when HP ≤ 0 (a definition, no contract) |
| PlayerActor.Player.CanInput | Assets/Scripts/Player.cs:39 | input is accepted exactly when neither the attack flag nor the damage flag is up (a definition, no contract) |
| PlayerActor.Player.constructor | Assets/Scripts/Player.cs:42-49 | before Start: HP 0, no flags, no target, nothing pending |
| PlayerActor.Player.Start | Assets/Scripts/Player.cs:52-56 | HP becomes 100, nothing else (target included) changes, and the gauge is initialised with 100 |
| PlayerActor.Player.Update | Assets/Scripts/Player.cs:59-73 | turns toward the target exactly while attacking with one that is not destroyed (Unity's `== null` at Player.cs:115 also holds for a destroyed object); moves exactly when input is open and the stick is held |
| PlayerActor.Player.Attack | Assets/Scripts/Player.cs:98-111 | a no-op unless input is open; otherwise attack flag up, Attack trigger, and the target is the nearest live enemy within 4 (null exactly when none) |
| PlayerActor.Player.AttackImpactEvent | Assets/Scripts/Player.cs:136-143 | power 10, collider on, DisableAttackCollider pending at 0.1 s; the same change as the `Impact` event of `Step` |
| PlayerActor.Player.DisableAttackCollider | Assets/Scripts/Player.cs:146-150 | collider off and the attack flag down |
| PlayerActor.Player.Damage | Assets/Scripts/Player.cs:165-193 | the new state is exactly `Hurt` of the old one; the gauge gets the new HP unless the player was already dead |
| PlayerActor.Player.EndDamage | Assets/Scripts/Player.cs:196-199 | only the damage flag drops |
| PlayerActor.Player.Dead | Assets/Scripts/Player.cs:202-207 | Dead trigger and one EndDead pending at 2 s |
| PlayerActor.Player.EndDead | Assets/Scripts/Player.cs:210-212 | the game-over banner is shown |
| TimeView.Trunc | Assets/Scripts/TimeView.cs:11 | the quotient the float `%` uses is truncated toward zero: within 1 below a non-negative value, within 1 above a negative one |
| TimeView.Minutes | Assets/Scripts/TimeView.cs:10 | the whole minutes rounded down: minutes·60 ≤ time < (minutes+1)·60 |
| TimeView.Seconds | Assets/Scripts/TimeView.cs:11 | the whole seconds of the remainder: in [0, 59] for a non-negative time, in [−60, 0] for a negative one |
| TimeView.SplitIsExact | Assets/Scripts/TimeView.cs:10-11 | for time ≥ 0: seconds in [0, 59], minutes ≥ 0, minutes·60 + seconds = ⌊time⌋ |
| TimeView.Digits | Assets/Scripts/TimeView.cs:12 | decimal digits only, one digit below 10, two from 10 to 99 |
| TimeView.DigitsRoundTrip | Assets/Scripts/TimeView.cs:12 | reading the digits of n back gives n |
| TimeView.LeadingZero | Assets/Scripts/TimeView.cs:12 | a leading zero does not change the value read |
| TimeView.PadNat | Assets/Scripts/TimeView.cs:12 | the "00" format of n: digits that read back as n, at least two, exactly two below 100 |
| TimeView.Pad2 | Assets/Scripts/TimeView.cs:12 | a non-negative number is shown as at least two digits reading back as it; a negative one as '-' followed by at least two digits reading back as its magnitude |
| TimeView.FormatTime | Assets/Scripts/TimeView.cs:9-13 | for a non-negative time the text is at least 5 characters with ':' third from the end |
| TimeView.FormatTimeReadsBack | Assets/Scripts/TimeView.cs:9-13 | for time ≥ 0 the text is digits, ':' and two digits; they read back as minutes and seconds; it is 5 characters exactly when minutes < 100 |
| Countdown.TickTime | Assets/Scripts/GameManager.cs:47 | the new time is never negative, is 0 exactly when the step would cross zero, and never exceeds the old time |
| Countdown.Tick | Assets/Scripts/GameManager.cs:40-54 | nothing once time is over or no enemy is left; otherwise the clamped time, and what is shown: the time text, followed by game over exactly when the time reached 0 |
| Countdown.GameOverAtMostOnce | Assets/Scripts/GameManager.cs:50-53 | over any run the time stays in [0, start], game over is shown at most once, and exactly when a run starting with time left ends with none |
| Countdown.GameManager.constructor | Assets/Scripts/GameManager.cs:22-25 | the time starts at the maximum |
| Countdown.GameManager.IsTimeOver | Assets/Scripts/GameManager.cs:19 | the time is over exactly when at most 0 is left (a definition, no contract) |
| Countdown.GameManager.Start | Assets/Scripts/GameManager.cs:27-31 | the initial time is shown |
| Countdown.GameManager.Update | Assets/Scripts/GameManager.cs:40-54 | the new time and what is shown are exactly `Tick` of the old time and this frame |
| Timeline.EnemyFire | Assets/Scripts/Enemy.cs:108-120 | DisableAttackCollider turns the collider off and schedules EndAttack; EndAttack clears the attack flag and restarts the move; EndDamage clears the damage flag |
| Timeline.AttackChainEnds | Assets/Scripts/Enemy.cs:98-120 | impact, the 0.1 s disarm and the 1 s EndAttack leave the enemy not attacking, collider off, moving, power 20, with the same timers and HP as before |
| Timeline.DamageKeepsPendingInvokes | Assets/Scripts/Enemy.cs:251-254 | damage cancels no pending Invoke; it adds only the EndDead of a lethal hit |
| Timeline.KnockBackDone | Assets/Scripts/Enemy.cs:227 | completion empties the knockback slot and clears the damage flag exactly when the callback is EndDamage; every other field is unchanged |
| Timeline.DamageEndsOnKnockBack | Assets/Scripts/Enemy.cs:168-178 | a non-lethal hit's damage ends when its knockback completes; a lethal one leaves no knockback and the flag stays up |
| Timeline.FireEnemyTimer | Assets/Scripts/Enemy.cs:245-248 | a due timer is removed and run: EndDead removes the enemy from the registry (with game clear per `ClearsGame`), the others act per `EnemyFire` |
| Timeline.CompleteKnockBack | Assets/Scripts/EnemyState/EnemyStateDamage.cs:55-56 | completion runs the callback: EndDamage clears the flag; the Damage state's callback transitions the current state to a new Patrol |
| Timeline.FirePlayerTimer | Assets/Scripts/Player.cs:146-150 | a due player timer acts exactly as `Step` with that timer due; EndDead shows game over |

## Left out

- Vector geometry is not modelled: `LookAt`, rotation, `Mathf.MoveTowardsAngle` and the 3-D `Vector3.MoveTowards`. A distance is an input, and movement is the remaining distance along the line to the player.
- Floats are read as exact reals, so rounding in `time - deltaTime`, in distances and in `time / 60` is not modelled.
- The DOTween sequences are reduced to their observable effect. Blink and shake are log entries. The knockback keeps only its completion callback and the fact that a new one or destruction kills it. The 1.2 m versus 0.8 m comment mismatch is cosmetic.
- Unity's clock is not modelled. An `Invoke` keeps its delay, but nothing orders timers by time; the caller picks which pending timer or knockback completes next. Scenarios that depend on exact timing are therefore a superset of the real ones.
- `Destroy` is modelled as immediate. Unity defers it to the end of the frame; the model applies its effects at once: `OnDestroy` cancels the invokes and the knockback tween, linked to the object, is killed.
- `OnTriggerEnter` is not modelled (tag checks and reading the `Attacker` power). The damage amount and the source collider are inputs to `Damage`.
- The joystick and tap input plumbing is not modelled. The stick state and the tap are inputs, and Awake's event registration is not modelled.
- `SetFloat("Speed")` is not modelled.
- These UI contents are not modelled: the damage number view, the effect manager, the HP gauge fill rate and label, and the game-end view's animation. The UI calls are recorded as notes.
- `GameManager.ResetScene` and the global singletons are left out. The registry, the screen and the player's death state are passed explicitly.
- The float.MaxValue starting distance in `GetNearestEnemy` is read as "no candidate yet". Every in-range distance is below it.
- The owner that calls `Process` each frame and swaps in the returned state is not modelled. The newer `Enemy` that would host the state machine is not part of this model. Each state's `Process` and the hand-off it returns are modelled.
- `EnemyActor.Enemy.Update`'s move uses 1-D `MoveTowards` on the distance to the player. It therefore does not capture the direction of travel.

## Findings

| source | as written | input that shows it | evidently intended | confidence | as-written member | corrected member |
|---|---|---|---|---|---|---|
| Assets/Scripts/Player.cs:183-199 | a lethal hit does not cancel the EndDamage that an earlier non-lethal hit left pending, so when that EndDamage fires it clears the damage flag of a dead player and `CanInput` becomes true again (movement and attack taps are accepted while dead) | from HP 100, enemies deal hits of 20 (Enemy.cs:100): three hits each followed by its EndDamage, a fourth hit, a fifth hit from a second enemy within 0.5 s of it, then the fourth hit's EndDamage | a dead player accepts no input: death cancels the pending EndDamage (or `CanInput` also requires being alive) | high, not executed | PlayerActor.GameHitsReopenInput | PlayerActor.FixedDeadPlayerStaysLocked |

`PlayerActor.Player` models the code as written. The corrected behaviour is given by `HurtFixed` and `StepsFixed`, and the locking property is proved about them.
