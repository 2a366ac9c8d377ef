/**
 * The enemy's behaviour graph: the states Patrol, Pursue, Attack, Damage
 * and Dead on top of the StateBase runtime.
 *
 * Each state is an `EnemyState` object whose `kind` selects the overrides
 * of Enter, Update and Exit that its class has in the source; `stage` and
 * `next` are StateBase's fields. The enemy's `Transition` forwards to its
 * current state, which while a hook runs is the state running it, so the
 * hooks call `Transition` on themselves.
 */
module EnemyStates {
  import opened Common
  import opened StateBase
  import opened EnemyActor

  /** Patrol starts pursuing strictly inside this distance. */
  const SEARCH_DISTANCE: real := 5.0
  /** Pursue gives up beyond this distance. */
  const CANCEL_DISTANCE: real := 5.0

  datatype Kind =
    | Patrol
    | Pursue
    | Attack
      /** the hit being resolved: its damage and the attack volume it came from */
    | Damage(amount: int, source: ColliderId)
    | Dead

  /** What Pursue does on one Update. */
  datatype Chase = ToAttack | GiveUp | Close

  /**
   * Pursue's choice: the attack-range test comes first, so Attack wins
   * whenever the player is in range; it gives up beyond the cancel
   * distance and moves only in between.
   */
  function PursueChoice(distance: real, attackRange: real): (c: Chase)
    ensures c == ToAttack <==> distance <= attackRange
    ensures c == GiveUp <==> attackRange < distance && CANCEL_DISTANCE < distance
    ensures c == Close <==> attackRange < distance <= CANCEL_DISTANCE
  {
    if distance <= attackRange then ToAttack
    else if distance > CANCEL_DISTANCE then GiveUp
    else Close
  }

  /**
   * The Transition that the hook of `stage` issues for a state of `kind`,
   * given the distance to the player and the enemy's HP before the hook.
   */
  function Requested(kind: Kind, stage: Stage, distance: real, attackRange: real, hp: int): Option<Kind>
  {
    match (kind, stage)
    case (Patrol, Update) => if distance < SEARCH_DISTANCE then Some(Pursue) else None
    case (Pursue, Update) =>
      (match PursueChoice(distance, attackRange)
       case ToAttack => Some(Attack)
       case GiveUp => Some(Patrol)
       case Close => None)
    case (Damage(amount, _), Enter) => if ReduceHP(hp, amount) <= 0 then Some(Dead) else None
    case _ => None
  }

  /** The edges of the behaviour graph, the knockback completion's included. */
  predicate Edge(from: Kind, to: Kind)
  {
    match from
    case Patrol => to == Pursue
    case Pursue => to == Attack || to == Patrol
    case Attack => false
    case Damage(_, _) => to == Dead || to == Patrol
    case Dead => false
  }

  /** Every transition a hook requests is an edge of the graph. */
  lemma RequestsFollowGraph(kind: Kind, stage: Stage, distance: real, attackRange: real, hp: int)
    ensures Requested(kind, stage, distance, attackRange, hp).Some? ==>
      Edge(kind, Requested(kind, stage, distance, attackRange, hp).value)
  {
  }

  /** Attack and Dead never call Transition; Dead has no way out at all. */
  lemma AttackAndDeadNeverRequest(stage: Stage, distance: real, attackRange: real, hp: int)
    ensures Requested(Attack, stage, distance, attackRange, hp) == None
    ensures Requested(Dead, stage, distance, attackRange, hp) == None
    ensures forall k :: !Edge(Dead, k)
  {
  }

  /** Patrol asks for Pursue exactly when the player is strictly closer than 5. */
  lemma PatrolSearch(distance: real, attackRange: real, hp: int)
    ensures Requested(Patrol, Update, distance, attackRange, hp) == Some(Pursue) <==> distance < 5.0
    ensures Requested(Patrol, Update, distance, attackRange, hp) == None <==> distance >= 5.0
  {
  }

  /** Damage asks for Dead during Enter exactly when the hit is lethal, and otherwise nothing. */
  lemma DamageDecidesInEnter(amount: int, source: ColliderId, distance: real, attackRange: real, hp: int)
    ensures Requested(Damage(amount, source), Enter, distance, attackRange, hp) ==
      (if hp - amount <= 0 then Some(Dead) else None)
    ensures Requested(Damage(amount, source), Update, distance, attackRange, hp) == None
  {
  }

  /** What the hook of `stage` of a `kind` state does to its enemy. */
  function HookEffect(kind: Kind, stage: Stage, b: Body): Body
  {
    match (kind, stage)
    case (Pursue, Enter) => b.(isMove := true)
    case (Pursue, Exit) => b.(isMove := false)
    case (Attack, Enter) => b.(log := b.log + [SetTrigger("Attack")])
    case (Damage(amount, _), Enter) => DamageEnter(b, amount)
    case (Dead, Enter) =>
      b.(log := b.log + [SetTrigger("Dead")], timers := b.timers + multiset{Timer(DEAD_TIME, EndDead)})
    case _ => b
  }

  /**
   * EnemyStateDamage.Enter on the enemy: the Attack trigger reset is logged
   * first, HP drops by the stored amount, the damage number (carrying that amount)
   * and the hit effects are emitted once, and a lethal hit returns before
   * the Damage trigger and without a knockback callback.
   */
  function DamageEnter(b: Body, amount: int): (r: Body)
    ensures r.hp == ReduceHP(b.hp, amount)
    ensures r.hp <= 0 ==> r.log == b.log + [ResetTrigger("Attack")] + HitNotes(amount) + [KnockBackMove]
                          && r.knockBack == None
    ensures r.hp > 0 ==> r.log == b.log + [ResetTrigger("Attack")] + HitNotes(amount) + [SetTrigger("Damage"), KnockBackMove]
                         && r.knockBack == Some(BackToPatrol)
    ensures r.timers == b.timers && r.attackFlag == b.attackFlag && r.damageFlag == b.damageFlag
    ensures r.isMove == b.isMove && r.colliderOn == b.colliderOn && r.power == b.power
    ensures r.destroyed == b.destroyed
  {
    var hit := b.(hp := ReduceHP(b.hp, amount), log := b.log + [ResetTrigger("Attack")] + HitNotes(amount));
    if hit.hp <= 0 then hit.(log := hit.log + [KnockBackMove], knockBack := None)
    else hit.(log := hit.log + [SetTrigger("Damage"), KnockBackMove], knockBack := Some(BackToPatrol))
  }

  /** Patrol and Attack leave HP, flags and position alone on every hook. */
  lemma PatrolAndAttackKeepHP(stage: Stage, b: Body)
    ensures HookEffect(Patrol, stage, b) == b
    ensures HookEffect(Attack, stage, b).hp == b.hp
    ensures HookEffect(Attack, stage, b) == (if stage == Enter then b.(log := b.log + [SetTrigger("Attack")]) else b)
  {
  }

  /** Dead's Enter fires the Dead trigger and schedules exactly one EndDead, 2 s out. */
  lemma DeadSchedulesOneEndDead(b: Body)
    ensures PendingDeaths(HookEffect(Dead, Enter, b)) == PendingDeaths(b) + 1
    ensures HookEffect(Dead, Enter, b).log == b.log + [SetTrigger("Dead")]
    ensures HookEffect(Dead, Update, b) == b && HookEffect(Dead, Exit, b) == b
  {
  }

  /** The distance to the player left after the hook ran; only Pursue's Update moves. */
  function Remaining(kind: Kind, stage: Stage, distance: real, attackRange: real, step: real): (r: real)
    requires distance >= 0.0
    ensures r != distance ==> kind == Pursue && stage == Update && attackRange < distance <= CANCEL_DISTANCE
    ensures step >= 0.0 ==> 0.0 <= r <= distance && distance - r <= step
  {
    if kind == Pursue && stage == Update && PursueChoice(distance, attackRange) == Close
    then MoveTowards(distance, step)
    else distance
  }

  class EnemyState {
    const kind: Kind
    var stage: Stage
    var next: EnemyState?

    /** The Exit stage is only reached through Transition, which records a successor. */
    ghost predicate Valid()
      reads this
    {
      stage == Stage.Exit ==> next != null
    }

    function View(): Slot<Kind>
      reads this
    {
      Slot(stage, if next == null then None else Some(next.kind))
    }

    constructor (kind: Kind)
      ensures this.kind == kind && next == null
      ensures View() == Fresh() && Valid()
    {
      this.kind := kind;
      stage := Stage.Enter;
      next := null;
    }

    method Transition(state: EnemyState)
      modifies this
      ensures next == state
      ensures View() == Transitioned(old(View()), state.kind) && Valid()
    {
      next := state;
      stage := Stage.Exit;
    }

    /**
     * Run the hook of the current stage. `distance` is the distance to the
     * player this frame, `deltaTime` the frame time; `remaining` is the
     * distance left after this frame's move. Returns this state, or on the
     * Exit stage the recorded successor.
     */
    method Process(enemy: Enemy, distance: real, deltaTime: real) returns (r: EnemyState, remaining: real)
      requires Valid()
      requires distance >= 0.0
      modifies this, enemy
      ensures Valid()
      ensures View() == AfterHook(old(View()), Requested(kind, old(stage), distance, enemy.attackRange, old(enemy.hp)))
      ensures r == (if old(stage) == Stage.Exit then old(next) else this)
      ensures next != old(next) ==> fresh(next) && next.View() == Fresh()
      ensures enemy.Snapshot() == HookEffect(kind, old(stage), old(enemy.Snapshot()))
      ensures remaining == Remaining(kind, old(stage), distance, enemy.attackRange, enemy.maxSpeed * deltaTime)
    {
      remaining := distance;
      match stage
      case Enter =>
        Enter(enemy);
        r := this;
      case Update =>
        remaining := Update(enemy, distance, deltaTime);
        r := this;
      case Exit =>
        Exit(enemy);
        r := next;
    }

    /** The base Enter moves to Update; each override runs it first. */
    method Enter(enemy: Enemy)
      requires stage == Stage.Enter
      modifies this, enemy
      ensures Valid()
      ensures View() == AfterHook(old(View()), Requested(kind, Stage.Enter, 0.0, enemy.attackRange, old(enemy.hp)))
      ensures next != old(next) ==> fresh(next) && next.View() == Fresh()
      ensures enemy.Snapshot() == HookEffect(kind, Stage.Enter, old(enemy.Snapshot()))
    {
      stage := Stage.Update;
      match kind
      case Patrol =>
      case Pursue =>
        enemy.SetIsMove(true);
      case Attack =>
        enemy.SetTrigger("Attack");
      case Damage(amount, _) =>
        EnterDamage(enemy, amount);
      case Dead =>
        enemy.SetTrigger("Dead");
        enemy.Invoke(Timer(DEAD_TIME, EndDead));
    }

    /** EnemyStateDamage.Enter after the base Enter: resolve the stored hit. */
    method EnterDamage(enemy: Enemy, amount: int)
      requires stage == Stage.Update
      modifies this, enemy
      ensures Valid()
      ensures View() == if ReduceHP(old(enemy.hp), amount) <= 0 then Slot(Stage.Exit, Some(Dead)) else old(View())
      ensures next != old(next) ==> fresh(next) && next.View() == Fresh()
      ensures enemy.Snapshot() == DamageEnter(old(enemy.Snapshot()), amount)
    {
      enemy.ResetTrigger("Attack");
      enemy.ReduceHP(amount);
      enemy.Emit(HitNotes(amount));
      if enemy.IsDead() {
        enemy.KnockBack(None);
        var dead := new EnemyState(Dead);
        Transition(dead);
        return;
      }
      enemy.SetTrigger("Damage");
      enemy.KnockBack(Some(BackToPatrol));
    }

    /** Patrol watches the distance; Pursue attacks, gives up or moves closer. */
    method Update(enemy: Enemy, distance: real, deltaTime: real) returns (remaining: real)
      requires stage == Stage.Update
      requires distance >= 0.0
      modifies this
      ensures Valid()
      ensures View() == AfterHook(old(View()), Requested(kind, Stage.Update, distance, enemy.attackRange, enemy.hp))
      ensures next != old(next) ==> fresh(next) && next.View() == Fresh()
      ensures remaining == Remaining(kind, Stage.Update, distance, enemy.attackRange, enemy.maxSpeed * deltaTime)
    {
      remaining := distance;
      match kind
      case Patrol =>
        if distance < SEARCH_DISTANCE {
          var pursue := new EnemyState(Pursue);
          Transition(pursue);
        }
      case Pursue =>
        if distance <= enemy.attackRange {
          var attack := new EnemyState(Attack);
          Transition(attack);
          return;
        }
        if distance > CANCEL_DISTANCE {
          var patrol := new EnemyState(Patrol);
          Transition(patrol);
          return;
        }
        remaining := MoveTowards(distance, enemy.maxSpeed * deltaTime);
      case _ =>
    }

    /** Pursue lowers the move flag on the way out. */
    method Exit(enemy: Enemy)
      modifies enemy
      ensures enemy.Snapshot() == HookEffect(kind, Stage.Exit, old(enemy.Snapshot()))
    {
      if kind == Pursue {
        enemy.SetIsMove(false);
      }
    }
  }
}
