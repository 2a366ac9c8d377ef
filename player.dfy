/**
 * The player actor (Player.cs): HP and the gauge, the attack and damage
 * flags that lock input, the attack that picks the nearest enemy as its
 * target, the attack volume armed for 0.1 s, damage with its timed end,
 * and death, whose end shows the game-over banner.
 *
 * Joystick state and the tap are inputs; positions and rotation are not
 * modelled, so `Update` reports whether the player moves and whether it
 * turns toward its target this frame.
 */
module PlayerActor {
  import opened Common
  import opened GameUi
  import opened EnemyRegistry
  import EnemyActor

  const MAX_HP: int := 100
  /** The power the player's attack volume carries (Player.AttackImpactEvent). */
  const ATTACK_POWER: int := 10
  /** The radius within which the attack looks for a target. */
  const TARGET_RANGE: real := 4.0
  const COLLIDER_TIMER: Timer := Timer(0.1, DisableAttackCollider)
  const DAMAGE_TIMER: Timer := Timer(0.5, EndDamage)
  const DEAD_TIMER: Timer := Timer(2.0, EndDead)

  /** The value of every field of the player that the model tracks, except the target. */
  datatype PlayerBody = PlayerBody(
    hp: int,
    attackFlag: bool,
    damageFlag: bool,
    colliderOn: bool,     // whether the attack volume is enabled
    power: int,           // the power the attack volume carries
    log: seq<Note>,       // animator triggers, in order
    timers: multiset<Timer>  // pending Invoke calls
  )

  /** Input is accepted while neither attacking nor damaged. */
  predicate InputOpen(b: PlayerBody)
  {
    !b.attackFlag && !b.damageFlag
  }

  /** The player after Start: full HP, nothing pending. */
  function Started(): PlayerBody
  {
    PlayerBody(MAX_HP, false, false, false, 0, [], multiset{})
  }

  /**
   * Player.Damage on a body: nothing once dead; otherwise the attack is
   * dropped, the damage flag raised and HP reduced with a floor of 0; then
   * either death (EndDead after 2 s) or the Damage trigger and EndDamage
   * after 0.5 s.
   */
  function Hurt(b: PlayerBody, damage: int): (r: PlayerBody)
    ensures b.hp <= 0 ==> r == b
    ensures b.hp > 0 ==>
      && r.hp == ReduceHP(b.hp, damage) && !r.attackFlag && r.damageFlag
      && r.colliderOn == b.colliderOn && r.power == b.power
    ensures b.hp > 0 && r.hp == 0 ==>
      r.timers == b.timers + multiset{DEAD_TIMER} && r.log == b.log + [SetTrigger("Dead")]
    ensures b.hp > 0 && r.hp > 0 ==>
      r.timers == b.timers + multiset{DAMAGE_TIMER} && r.log == b.log + [SetTrigger("Damage")]
  {
    if b.hp <= 0 then b
    else
      var hit := Struck(b, damage);
      if hit.hp <= 0 then
        hit.(log := b.log + [SetTrigger("Dead")], timers := b.timers + multiset{DEAD_TIMER})
      else
        hit.(log := b.log + [SetTrigger("Damage")], timers := b.timers + multiset{DAMAGE_TIMER})
  }

  /** The part of Player.Damage before the lethal test. */
  function Struck(b: PlayerBody, damage: int): PlayerBody
  {
    b.(attackFlag := false, damageFlag := true, hp := ReduceHP(b.hp, damage))
  }

  /**
   * A lethal hit leaves input locked by the damage flag and schedules no
   * EndDamage of its own; every later hit changes nothing.
   */
  lemma LethalHitLocksInput(b: PlayerBody, damage: int, later: int)
    requires b.hp > 0 && damage >= b.hp
    ensures !InputOpen(Hurt(b, damage))
    ensures Hurt(b, damage).timers[DAMAGE_TIMER] == b.timers[DAMAGE_TIMER]
    ensures Hurt(Hurt(b, damage), later) == Hurt(b, damage)
  {
  }

  /** What a pending Invoke does to the player when it comes due. */
  function Fire(b: PlayerBody, a: Action): (r: PlayerBody)
    ensures a == DisableAttackCollider ==> r == b.(colliderOn := false, attackFlag := false)
    ensures a == EndDamage ==> r == b.(damageFlag := false)
    ensures a != DisableAttackCollider && a != EndDamage ==> r == b
  {
    match a
    case DisableAttackCollider => b.(colliderOn := false, attackFlag := false)
    case EndDamage => b.(damageFlag := false)
    case _ => b
  }

  /** What can happen to the player between frames. */
  datatype Event =
    | Tap                // the screen is tapped: Attack
    | Hit(damage: int)   // an enemy's attack volume touches the player
    | Due(t: Timer)      // a pending Invoke comes due
    | Impact             // the attack animation reaches its impact (AttackImpactEvent)

  /**
   * One event, as the source handles it. Only a hit changes HP, only a tap
   * with input open starts an attack, and a due timer is used up.
   */
  function Step(b: PlayerBody, e: Event): (r: PlayerBody)
    ensures !e.Hit? ==> r.hp == b.hp
    ensures r.attackFlag ==> b.attackFlag || (e.Tap? && InputOpen(b))
    ensures e.Due? && e.t in b.timers ==> r.timers == b.timers - multiset{e.t}
    ensures e.Due? && e.t !in b.timers ==> r == b
  {
    match e
    case Tap => if InputOpen(b) then b.(attackFlag := true, log := b.log + [SetTrigger("Attack")]) else b
    case Hit(d) => Hurt(b, d)
    case Due(t) => if t in b.timers then Fire(b.(timers := b.timers - multiset{t}), t.action) else b
    case Impact => b.(power := ATTACK_POWER, colliderOn := true, timers := b.timers + multiset{COLLIDER_TIMER})
  }

  function Steps(b: PlayerBody, es: seq<Event>): PlayerBody
    decreases |es|
  {
    if es == [] then b else Steps(Step(b, es[0]), es[1..])
  }

  /**
   * As written, a dead player can get its input back: an EndDamage left
   * pending by an earlier, non-lethal hit clears the damage flag after the
   * lethal one.
   */
  lemma DeadPlayerRegainsInput()
    ensures Steps(Started(), [Hit(50), Hit(60), Due(DAMAGE_TIMER)]).hp == 0
    ensures InputOpen(Steps(Started(), [Hit(50), Hit(60), Due(DAMAGE_TIMER)]))
  {
    var b1 := Step(Started(), Hit(50));
    var b2 := Step(b1, Hit(60));
    assert b1.timers == multiset{DAMAGE_TIMER};
    assert b2.hp == 0 && DAMAGE_TIMER in b2.timers;
    var es := [Hit(50), Hit(60), Due(DAMAGE_TIMER)];
    assert Steps(Started(), es) == Steps(b1, es[1..]);
    assert es[1..][1..] == [Due(DAMAGE_TIMER)];
    assert Steps(b1, es[1..]) == Steps(b2, [Due(DAMAGE_TIMER)]);
    var b3 := Step(b2, Due(DAMAGE_TIMER));
    assert Steps(b2, [Due(DAMAGE_TIMER)]) == Steps(b3, []) == b3;
    assert b3 == b2.(timers := b2.timers - multiset{DAMAGE_TIMER}, damageFlag := false);
  }

  /** Running two event sequences one after the other. */
  lemma StepsAppend(b: PlayerBody, xs: seq<Event>, ys: seq<Event>)
    ensures Steps(b, xs + ys) == Steps(Steps(b, xs), ys)
    decreases |xs|
  {
    if xs == [] {
      assert xs + ys == ys;
    } else {
      assert (xs + ys)[1..] == xs[1..] + ys;
      StepsAppend(Step(b, xs[0]), xs[1..], ys);
    }
  }

  /** One enemy hit of 20 that is not lethal, followed by its EndDamage. */
  lemma HitAndRecover(b: PlayerBody)
    requires b.hp > EnemyActor.ATTACK_POWER && b.timers == multiset{} && !b.attackFlag
    ensures var r := Steps(b, [Hit(EnemyActor.ATTACK_POWER), Due(DAMAGE_TIMER)]);
      r.hp == b.hp - EnemyActor.ATTACK_POWER && r.timers == multiset{} && InputOpen(r)
  {
    var es := [Hit(EnemyActor.ATTACK_POWER), Due(DAMAGE_TIMER)];
    var b1 := Step(b, es[0]);
    assert b1.hp == b.hp - EnemyActor.ATTACK_POWER && b1.timers == multiset{DAMAGE_TIMER};
    var b2 := Step(b1, es[1]);
    assert b2 == b1.(timers := multiset{}, damageFlag := false);
    assert es[1..][1..] == [];
    assert Steps(b, es) == Steps(b1, es[1..]) == Steps(b2, []) == b2;
  }

  /**
   * The same with the hits the game deals: every enemy attack carries 20,
   * and a second enemy lands its hit within 0.5 s of a first one, so the
   * fifth hit kills while the fourth hit's EndDamage is still pending.
   */
  lemma GameHitsReopenInput()
    ensures var h, d := Hit(EnemyActor.ATTACK_POWER), Due(DAMAGE_TIMER);
      var es := [h, d, h, d, h, d, h, h, d];
      Steps(Started(), es).hp == 0 && InputOpen(Steps(Started(), es))
  {
    FiveHitsReopenInput(Started());
  }

  lemma FiveHitsReopenInput(b0: PlayerBody)
    requires b0.hp == MAX_HP && b0.timers == multiset{} && !b0.attackFlag
    ensures var h, d := Hit(EnemyActor.ATTACK_POWER), Due(DAMAGE_TIMER);
      var es := [h, d, h, d, h, d, h, h, d];
      Steps(b0, es).hp == 0 && InputOpen(Steps(b0, es))
  {
    var h, d := Hit(EnemyActor.ATTACK_POWER), Due(DAMAGE_TIMER);
    var es := [h, d, h, d, h, d, h, h, d];
    var p, tail := [h, d], [h, h, d];
    assert es == p + (p + (p + tail));
    HitAndRecover(b0);
    var b1 := Steps(b0, p);
    HitAndRecover(b1);
    var b2 := Steps(b1, p);
    HitAndRecover(b2);
    var b3 := Steps(b2, p);
    StepsAppend(b0, p, p + (p + tail));
    StepsAppend(b1, p, p + tail);
    StepsAppend(b2, p, tail);
    KillWhileRecovering(b3);
  }

  /** Two quick hits of 20 from 40 HP, then the first one's EndDamage. */
  lemma KillWhileRecovering(b: PlayerBody)
    requires b.hp == 2 * EnemyActor.ATTACK_POWER && b.timers == multiset{} && !b.attackFlag
    ensures var h, d := Hit(EnemyActor.ATTACK_POWER), Due(DAMAGE_TIMER);
      Steps(b, [h, h, d]).hp == 0 && InputOpen(Steps(b, [h, h, d]))
  {
    var tail := [Hit(EnemyActor.ATTACK_POWER), Hit(EnemyActor.ATTACK_POWER), Due(DAMAGE_TIMER)];
    var b1 := Step(b, tail[0]);
    var b2 := Step(b1, tail[1]);
    assert b2.hp == 0 && DAMAGE_TIMER in b2.timers && !b2.attackFlag;
    var b3 := Step(b2, tail[2]);
    assert b3 == b2.(timers := b2.timers - multiset{DAMAGE_TIMER}, damageFlag := false);
    assert tail[1..][1..][1..] == [];
    assert Steps(b, tail) == Steps(b1, tail[1..]) == Steps(b2, tail[1..][1..]) == Steps(b3, []) == b3;
  }

  /**
   * Player.Damage with the pending EndDamage cancelled on death
   * (CancelInvoke of EndDamage before the Dead trigger).
   */
  function HurtFixed(b: PlayerBody, damage: int): (r: PlayerBody)
    ensures r.hp == Hurt(b, damage).hp && r.damageFlag == Hurt(b, damage).damageFlag
    ensures b.hp > 0 && r.hp == 0 ==> r.timers[DAMAGE_TIMER] == 0
    ensures b.hp > 0 && r.hp == 0 ==> r.timers[DEAD_TIMER] == b.timers[DEAD_TIMER] + 1
    ensures b.hp > 0 && r.hp == 0 ==> r == Hurt(b, damage).(timers := Hurt(b, damage).timers[DAMAGE_TIMER := 0])
    ensures !(b.hp > 0 && r.hp == 0) ==> r == Hurt(b, damage)
  {
    var r := Hurt(b, damage);
    if b.hp > 0 && r.hp <= 0 then r.(timers := r.timers[DAMAGE_TIMER := 0]) else r
  }

  function StepFixed(b: PlayerBody, e: Event): PlayerBody
  {
    if e.Hit? then HurtFixed(b, e.damage) else Step(b, e)
  }

  function StepsFixed(b: PlayerBody, es: seq<Event>): PlayerBody
    decreases |es|
  {
    if es == [] then b else StepsFixed(StepFixed(b, es[0]), es[1..])
  }

  /**
   * The invariant that keeps a dead player locked: once HP is 0 the damage
   * flag is up and no EndDamage is pending; and the player's only pending
   * EndDamage is the one Damage schedules.
   */
  predicate DeadStaysLocked(b: PlayerBody)
  {
    && (forall t :: t in b.timers && t.action == EndDamage ==> t == DAMAGE_TIMER)
    && (b.hp <= 0 ==> b.damageFlag && b.timers[DAMAGE_TIMER] == 0)
  }

  lemma StepFixedKeepsLocked(b: PlayerBody, e: Event)
    requires DeadStaysLocked(b)
    ensures DeadStaysLocked(StepFixed(b, e))
  {
    match e
    case Tap =>
    case Hit(d) => HurtFixedKeepsLocked(b, d);
    case Due(t) => DueKeepsLocked(b, t);
    case Impact =>
  }

  lemma HurtFixedKeepsLocked(b: PlayerBody, d: int)
    requires DeadStaysLocked(b)
    ensures DeadStaysLocked(HurtFixed(b, d))
  {
    var r := HurtFixed(b, d);
    forall t | t in r.timers && t.action == EndDamage ensures t == DAMAGE_TIMER {
      assert t in b.timers || t == DEAD_TIMER || t == DAMAGE_TIMER;
    }
  }

  lemma DueKeepsLocked(b: PlayerBody, t: Timer)
    requires DeadStaysLocked(b)
    ensures DeadStaysLocked(Step(b, Due(t)))
  {
    if t in b.timers {
      var rest := b.(timers := b.timers - multiset{t});
      assert rest.timers <= b.timers;
      assert DeadStaysLocked(rest);
    }
  }

  /**
   * With the fix, from Start and whatever happens, a dead player never
   * accepts input again.
   */
  lemma {:induction false} FixedDeadPlayerStaysLocked(b: PlayerBody, es: seq<Event>)
    requires DeadStaysLocked(b)
    ensures DeadStaysLocked(StepsFixed(b, es))
    ensures StepsFixed(b, es).hp <= 0 ==> !InputOpen(StepsFixed(b, es))
    decreases |es|
  {
    if es != [] {
      StepFixedKeepsLocked(b, es[0]);
      FixedDeadPlayerStaysLocked(StepFixed(b, es[0]), es[1..]);
    }
  }

  lemma StartedIsLocked()
    ensures DeadStaysLocked(Started())
  {
  }

  class Player {
    var hp: int
    var attackFlag: bool
    var damageFlag: bool
    var colliderOn: bool
    var power: int
    var log: seq<Note>
    var timers: multiset<Timer>
    /** The enemy the current attack turns toward, if any. */
    var target: EnemyActor.Enemy?

    function Snapshot(): PlayerBody
      reads this
    {
      PlayerBody(hp, attackFlag, damageFlag, colliderOn, power, log, timers)
    }

    predicate IsDead()
      reads this
    {
      hp <= 0
    }

    predicate CanInput()
      reads this
    {
      InputOpen(Snapshot())
    }

    /** Awake; HP is set only by Start, so it reads 0 until then. */
    constructor ()
      ensures Snapshot() == PlayerBody(0, false, false, false, 0, [], multiset{}) && target == null
    {
      hp := 0;
      attackFlag, damageFlag, colliderOn := false, false, false;
      power := 0;
      log, timers := [], multiset{};
      target := null;
    }

    /** Start: HP to the maximum and the gauge initialised with it. */
    method Start(ui: Screen)
      modifies this, ui
      ensures Snapshot() == old(Snapshot()).(hp := MAX_HP) && target == old(target)
      ensures ui.shown == old(ui.shown) + [HPGaugeInit(MAX_HP)]
    {
      hp := MAX_HP;
      ui.Show(HPGaugeInit(MAX_HP));
    }

    /**
     * The per-frame update: while attacking the player turns toward its
     * target, if it has one that is not destroyed (Unity's `== null` also
     * holds for a destroyed object); it moves only when input is open and the
     * joystick is held.
     */
    method Update(stickActive: bool) returns (turns: bool, moves: bool)
      ensures turns <==> attackFlag && target != null && !target.destroyed
      ensures moves <==> CanInput() && stickActive
      ensures moves ==> !attackFlag && !damageFlag
    {
      turns := attackFlag && target != null && !target.destroyed;
      moves := false;
      if !CanInput() {
        return;
      }
      moves := stickActive;
    }

    /**
     * The tap: ignored unless input is open; otherwise the attack starts and
     * targets the nearest live enemy within 4 m (`distanceTo` gives each
     * enemy's distance from the player).
     */
    method Attack(registry: EnemyManager, distanceTo: EnemyActor.Enemy -> real)
      modifies this
      ensures !old(CanInput()) ==> Snapshot() == old(Snapshot()) && target == old(target)
      ensures old(CanInput()) ==>
        Snapshot() == old(Snapshot()).(attackFlag := true, log := old(log) + [SetTrigger("Attack")])
      ensures old(CanInput()) ==>
        (target == null <==>
          forall j :: 0 <= j < |registry.enemies| ==> !Candidate(registry.enemies[j], distanceTo, TARGET_RANGE))
      ensures old(CanInput()) && target != null ==>
        exists k :: NearestAt(registry.enemies, k, distanceTo, TARGET_RANGE) && registry.enemies[k] == target
    {
      if !CanInput() {
        return;
      }
      attackFlag := true;
      log := log + [SetTrigger("Attack")];
      target := registry.GetNearestEnemy(distanceTo, TARGET_RANGE);
    }

    /** The animation event at the attack's impact: arm the volume for 0.1 s. */
    method AttackImpactEvent()
      modifies this
      ensures Snapshot() == old(Snapshot()).(power := ATTACK_POWER, colliderOn := true,
                                             timers := old(timers) + multiset{COLLIDER_TIMER})
      ensures Snapshot() == Step(old(Snapshot()), Impact)
      ensures target == old(target)
    {
      power := ATTACK_POWER;
      colliderOn := true;
      timers := timers + multiset{COLLIDER_TIMER};
    }

    /** Disarm the volume; this also ends the attack. */
    method DisableAttackCollider()
      modifies this
      ensures Snapshot() == Fire(old(Snapshot()), Action.DisableAttackCollider) && target == old(target)
    {
      colliderOn := false;
      attackFlag := false;
    }

    /** Damage resolution; the new HP is pushed to the gauge. */
    method Damage(damage: int, ui: Screen)
      modifies this, ui
      ensures Snapshot() == Hurt(old(Snapshot()), damage) && target == old(target)
      ensures ui.shown == old(ui.shown) + (if old(hp) <= 0 then [] else [HPGaugeSet(hp)])
    {
      if IsDead() {
        return;
      }
      BeginHit(damage);
      ui.Show(HPGaugeSet(hp));
      if hp <= 0 {
        Dead();
        return;
      }
      log := log + [SetTrigger("Damage")];
      timers := timers + multiset{DAMAGE_TIMER};
    }

    /** Damage up to the gauge update. */
    method BeginHit(damage: int)
      modifies this
      ensures Snapshot() == Struck(old(Snapshot()), damage) && target == old(target)
    {
      attackFlag := false;
      damageFlag := true;
      hp := MaxInt(hp - damage, 0);
    }

    method EndDamage()
      modifies this
      ensures Snapshot() == Fire(old(Snapshot()), Action.EndDamage) && target == old(target)
    {
      damageFlag := false;
    }

    method Dead()
      modifies this
      ensures Snapshot() == old(Snapshot()).(log := old(log) + [SetTrigger("Dead")],
                                             timers := old(timers) + multiset{DEAD_TIMER})
      ensures target == old(target)
    {
      log := log + [SetTrigger("Dead")];
      timers := timers + multiset{DEAD_TIMER};
    }

    /** The end of death: the game-over banner. */
    method EndDead(ui: Screen)
      modifies ui
      ensures ui.shown == old(ui.shown) + [GameEnd(false)]
    {
      ui.Show(GameEnd(false));
    }

    /** Take a due timer out of the pending set before running it. */
    method TakeTimer(t: Timer)
      requires t in timers
      modifies this
      ensures Snapshot() == old(Snapshot()).(timers := old(timers) - multiset{t}) && target == old(target)
    {
      timers := timers - multiset{t};
    }
  }
}
