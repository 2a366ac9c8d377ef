/**
 * The enemy actor (Enemy.cs): HP, the attack and damage flags that gate its
 * per-frame update, the attack chain driven by `Invoke`, damage resolution
 * with knockback, and death.
 *
 * The same class also offers what the enemy states call on their enemy:
 * `ReduceHP`, `KnockBack(onComplete)`, the animator calls and `Invoke`.
 * Positions are not modelled: the distance to the player is an input and
 * movement is reported as the distance left after the move.
 */
module EnemyActor {
  import opened Common

  const MAX_HP: int := 30
  /** The power the enemy's attack volume carries (Enemy.AttackImpactEvent). */
  const ATTACK_POWER: int := 20
  const COLLIDER_ON_TIME: real := 0.1
  const RECOVERY_TIME: real := 1.0
  const DEAD_TIME: real := 2.0

  /**
   * Vector3.MoveTowards seen along the line to the target: the distance left
   * after moving by `maxDelta` toward a target `distance` away. A negative
   * `maxDelta` moves away, as in Unity.
   */
  function MoveTowards(distance: real, maxDelta: real): (r: real)
    requires distance >= 0.0
    ensures r >= 0.0
    ensures maxDelta >= 0.0 ==> r <= distance && distance - r <= maxDelta
    ensures maxDelta >= 0.0 ==> r == 0.0 || distance - r == maxDelta
    ensures maxDelta < 0.0 && distance > 0.0 ==> r > distance
  {
    if distance == 0.0 || (maxDelta >= 0.0 && distance <= maxDelta) then 0.0
    else distance - maxDelta
  }

  /** The damage number and the hit, blink and shake effects of one hit. */
  function HitNotes(damage: int): (r: seq<Note>)
    ensures |r| == 4 && r[0] == DamageNumber(damage)
    ensures forall i :: 1 <= i < |r| ==> !r[i].DamageNumber?
  {
    [DamageNumber(damage), HitEffect, BlinkColor, ShakeBody]
  }

  /** The value of every field of an enemy that the model tracks. */
  datatype Body = Body(
    hp: int,
    attackFlag: bool,
    damageFlag: bool,
    isMove: bool,         // the animator's IsMove flag
    colliderOn: bool,     // whether the attack volume is enabled
    power: int,           // the power the attack volume carries
    log: seq<Note>,       // animator triggers and effects, in order
    timers: multiset<Timer>,  // pending Invoke calls
    knockBack: Option<Action>, // the callback of the running knockback, if any
    destroyed: bool       // whether the game object has been destroyed
  )

  /** The number of EndDead calls pending. */
  function PendingDeaths(b: Body): nat
  {
    b.timers[Timer(DEAD_TIME, EndDead)]
  }

  /**
   * Enemy.Damage on a body: nothing once dead; otherwise the attack is
   * dropped, the damage flag raised, HP reduced with a floor of 0, and
   * either death (EndDead after 2 s, no EndDamage) or a knockback whose
   * completion calls EndDamage.
   */
  function Damaged(b: Body, damage: int): (r: Body)
    ensures b.hp <= 0 ==> r == b
    ensures b.hp > 0 ==> r.hp == ReduceHP(b.hp, damage) && !r.attackFlag && r.damageFlag
    ensures b.hp > 0 ==> r.isMove == b.isMove && r.colliderOn == b.colliderOn && r.power == b.power
    ensures b.hp > 0 ==> r.destroyed == b.destroyed
    ensures b.hp > 0 ==> |r.log| == |b.log| + 7
    ensures b.hp > 0 ==> r.log[..|b.log| + 5] == b.log + [ResetTrigger("Attack")] + HitNotes(damage)
    ensures b.hp > 0 && r.hp == 0 ==>
      && r.timers == b.timers + multiset{Timer(DEAD_TIME, EndDead)}
      && r.knockBack == None
      && r.log[|b.log| + 5..] == [KnockBackMove, SetTrigger("Dead")]
    ensures b.hp > 0 && r.hp > 0 ==>
      && r.timers == b.timers
      && r.knockBack == Some(EndDamage)
      && r.log[|b.log| + 5..] == [SetTrigger("Damage"), KnockBackMove]
  {
    if b.hp <= 0 then b
    else
      var hit := Hit(b, damage);
      if hit.hp <= 0 then
        hit.(knockBack := None,
             log := hit.log + [KnockBackMove, SetTrigger("Dead")],
             timers := hit.timers + multiset{Timer(DEAD_TIME, EndDead)})
      else
        hit.(knockBack := Some(EndDamage), log := hit.log + [SetTrigger("Damage"), KnockBackMove])
  }

  /**
   * The part of Enemy.Damage before the lethal test: the attack dropped and
   * its trigger reset, the damage flag up, HP reduced, the damage number
   * and the hit effects emitted.
   */
  function Hit(b: Body, damage: int): Body
  {
    b.(attackFlag := false, damageFlag := true, hp := ReduceHP(b.hp, damage),
       log := b.log + [ResetTrigger("Attack")] + HitNotes(damage))
  }

  /** A series of hits, in order. */
  function DamagedBy(b: Body, damages: seq<int>): Body
    decreases |damages|
  {
    if damages == [] then b else DamagedBy(Damaged(b, damages[0]), damages[1..])
  }

  /**
   * Over any series of hits HP stays in [0, start], never rises, and at
   * most one EndDead gets scheduled: damage after death is a no-op.
   */
  lemma {:induction false} HitsKillAtMostOnce(b: Body, damages: seq<int>)
    requires b.hp >= 0
    requires forall i :: 0 <= i < |damages| ==> damages[i] >= 0
    ensures 0 <= DamagedBy(b, damages).hp <= b.hp
    ensures PendingDeaths(DamagedBy(b, damages)) <= PendingDeaths(b) + 1
    ensures b.hp == 0 ==> DamagedBy(b, damages) == b
    decreases |damages|
  {
    if damages != [] {
      var b1 := Damaged(b, damages[0]);
      HitsKillAtMostOnce(b1, damages[1..]);
      if b.hp > 0 && b1.hp == 0 {
        NoDamageAfterDeath(b1, damages[1..]);
      }
    }
  }

  /** Once HP is 0, further hits change nothing at all. */
  lemma {:induction false} NoDamageAfterDeath(b: Body, damages: seq<int>)
    requires b.hp <= 0
    ensures DamagedBy(b, damages) == b
    decreases |damages|
  {
    if damages != [] {
      NoDamageAfterDeath(Damaged(b, damages[0]), damages[1..]);
    }
  }

  /** What Enemy.Update does on one frame. */
  datatype Reaction = Idle | StartAttack | Advance

  /**
   * Enemy.Update's decision: idle while attacking, damaged or dead or when
   * the player is dead; attack when within attack range; else move closer.
   */
  function React(b: Body, distance: real, attackRange: real, playerDead: bool): (r: Reaction)
    ensures r == Idle <==> b.attackFlag || b.damageFlag || b.hp <= 0 || playerDead
    ensures r == StartAttack ==> distance <= attackRange
    ensures r == Advance ==> distance > attackRange
  {
    if b.attackFlag || b.damageFlag || b.hp <= 0 || playerDead then Idle
    else if distance <= attackRange then StartAttack
    else Advance
  }

  class Enemy {
    const attackRange: real
    const maxSpeed: real

    var hp: int
    var attackFlag: bool
    var damageFlag: bool
    var isMove: bool
    var colliderOn: bool
    var power: int
    var log: seq<Note>
    var timers: multiset<Timer>
    var knockBack: Option<Action>
    /** Set by Destroy; a destroyed object compares equal to null in Unity. */
    var destroyed: bool

    function Snapshot(): Body
      reads this
    {
      Body(hp, attackFlag, damageFlag, isMove, colliderOn, power, log, timers, knockBack, destroyed)
    }

    predicate IsDead()
      reads this
    {
      hp <= 0
    }

    /** Awake: the move flag is raised and HP set to the maximum. */
    constructor (attackRange: real, maxSpeed: real)
      ensures this.attackRange == attackRange && this.maxSpeed == maxSpeed
      ensures Snapshot() == Body(MAX_HP, false, false, true, false, 0, [], multiset{}, None, false)
    {
      this.attackRange := attackRange;
      this.maxSpeed := maxSpeed;
      hp := MAX_HP;
      attackFlag, damageFlag, isMove, colliderOn := false, false, true, false;
      power := 0;
      log, timers, knockBack := [], multiset{}, None;
      destroyed := false;
    }

    /**
     * The per-frame update. `distance` is the distance to the player this
     * frame; `remaining` is the distance left after this frame's move.
     */
    method Update(distance: real, deltaTime: real, playerDead: bool) returns (remaining: real)
      requires distance >= 0.0
      modifies this
      ensures React(old(Snapshot()), distance, attackRange, playerDead) == Idle ==>
        Snapshot() == old(Snapshot()) && remaining == distance
      ensures React(old(Snapshot()), distance, attackRange, playerDead) == StartAttack ==>
        Snapshot() == old(Snapshot()).(attackFlag := true, isMove := false,
                                       log := old(log) + [Note.SetTrigger("Attack")])
        && remaining == distance
      ensures React(old(Snapshot()), distance, attackRange, playerDead) == Advance ==>
        Snapshot() == old(Snapshot()) && remaining == MoveTowards(distance, maxSpeed * deltaTime)
    {
      remaining := distance;
      if attackFlag || damageFlag || hp <= 0 || playerDead {
        return;
      }
      if distance <= attackRange {
        Attack();
        return;
      }
      remaining := MoveTowards(distance, maxSpeed * deltaTime);
    }

    method Attack()
      modifies this
      ensures Snapshot() == old(Snapshot()).(attackFlag := true, isMove := false,
                                             log := old(log) + [Note.SetTrigger("Attack")])
    {
      attackFlag := true;
      SetTrigger("Attack");
      isMove := false;
    }

    /** The animation event at the attack's impact: arm the volume for 0.1 s. */
    method AttackImpactEvent()
      modifies this
      ensures Snapshot() == old(Snapshot()).(power := ATTACK_POWER, colliderOn := true,
                                             timers := old(timers) + multiset{Timer(COLLIDER_ON_TIME, Action.DisableAttackCollider)})
    {
      power := ATTACK_POWER;
      colliderOn := true;
      Invoke(Timer(COLLIDER_ON_TIME, Action.DisableAttackCollider));
    }

    /** Disarm the volume; the attack ends 1 s later. */
    method DisableAttackCollider()
      modifies this
      ensures Snapshot() == old(Snapshot()).(colliderOn := false,
                                             timers := old(timers) + multiset{Timer(RECOVERY_TIME, Action.EndAttack)})
    {
      colliderOn := false;
      Invoke(Timer(RECOVERY_TIME, Action.EndAttack));
    }

    method EndAttack()
      modifies this
      ensures Snapshot() == old(Snapshot()).(attackFlag := false, isMove := true)
    {
      attackFlag := false;
      isMove := true;
    }

    /** Damage resolution; `source` is the attack volume that hit. */
    method Damage(damage: int, source: ColliderId)
      modifies this
      ensures Snapshot() == Damaged(old(Snapshot()), damage)
    {
      if hp <= 0 {
        return;
      }
      BeginHit(damage);
      if hp <= 0 {
        KnockBack(None);
        Dead();
        return;
      }
      log := log + [Note.SetTrigger("Damage")];
      KnockBack(Some(Action.EndDamage));
    }

    /** Damage up to the lethal test. */
    method BeginHit(damage: int)
      modifies this
      ensures Snapshot() == Hit(old(Snapshot()), damage)
    {
      attackFlag := false;
      log := log + [Note.ResetTrigger("Attack")];
      damageFlag := true;
      hp := MaxInt(hp - damage, 0);
      log := log + HitNotes(damage);
    }

    method EndDamage()
      modifies this
      ensures Snapshot() == old(Snapshot()).(damageFlag := false)
    {
      damageFlag := false;
    }

    method Dead()
      modifies this
      ensures Snapshot() == old(Snapshot()).(log := old(log) + [Note.SetTrigger("Dead")],
                                             timers := old(timers) + multiset{Timer(DEAD_TIME, Action.EndDead)})
    {
      SetTrigger("Dead");
      Invoke(Timer(DEAD_TIME, Action.EndDead));
    }

    /** OnDestroy: CancelInvoke drops every pending Invoke. */
    method OnDestroy()
      modifies this
      ensures Snapshot() == old(Snapshot()).(timers := multiset{})
    {
      timers := multiset{};
    }

    /**
     * Destroying the game object: OnDestroy runs, and the tweens linked to
     * the object are killed, so a running knockback never completes.
     * Afterwards Unity's `==` reports the object as null.
     */
    method Destroy()
      modifies this
      ensures Snapshot() == old(Snapshot()).(timers := multiset{}, knockBack := None, destroyed := true)
    {
      OnDestroy();
      knockBack := None;
      destroyed := true;
    }

    /**
     * Start the knockback move; a running one is killed first, so its
     * completion callback is replaced by `onComplete`.
     */
    method KnockBack(onComplete: Option<Action>)
      modifies this
      ensures Snapshot() == old(Snapshot()).(knockBack := onComplete, log := old(log) + [KnockBackMove])
    {
      knockBack := onComplete;
      Emit([KnockBackMove]);
    }

    /** The knockback finished: its callback is taken out of the slot and handed back. */
    method CompleteKnockBack() returns (callback: Action)
      requires knockBack.Some?
      modifies this
      ensures callback == old(knockBack).value
      ensures Snapshot() == old(Snapshot()).(knockBack := None)
    {
      callback := knockBack.value;
      knockBack := None;
    }

    /** ReduceHP, as the enemy states use it. */
    method ReduceHP(damage: int)
      modifies this
      ensures Snapshot() == old(Snapshot()).(hp := Common.ReduceHP(old(hp), damage))
    {
      hp := MaxInt(hp - damage, 0);
    }

    method SetTrigger(name: string)
      modifies this
      ensures Snapshot() == old(Snapshot()).(log := old(log) + [Note.SetTrigger(name)])
    {
      log := log + [Note.SetTrigger(name)];
    }

    method ResetTrigger(name: string)
      modifies this
      ensures Snapshot() == old(Snapshot()).(log := old(log) + [Note.ResetTrigger(name)])
    {
      log := log + [Note.ResetTrigger(name)];
    }

    method SetIsMove(value: bool)
      modifies this
      ensures Snapshot() == old(Snapshot()).(isMove := value)
    {
      isMove := value;
    }

    method Emit(notes: seq<Note>)
      modifies this
      ensures Snapshot() == old(Snapshot()).(log := old(log) + notes)
    {
      log := log + notes;
    }

    method Invoke(t: Timer)
      modifies this
      ensures Snapshot() == old(Snapshot()).(timers := old(timers) + multiset{t})
    {
      timers := timers + multiset{t};
    }

    /** Take a due timer out of the pending set before running it. */
    method TakeTimer(t: Timer)
      requires t in timers
      modifies this
      ensures Snapshot() == old(Snapshot()).(timers := old(timers) - multiset{t})
    {
      timers := timers - multiset{t};
    }
  }
}
