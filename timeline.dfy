/**
 * The timed follow-ups: a pending `Invoke` coming due, and a knockback
 * tween completing. Which one happens next is the caller's choice, so
 * every ordering the engine could produce is covered.
 */
module Timeline {
  import opened Common
  import opened GameUi
  import opened EnemyActor
  import opened EnemyStates
  import opened EnemyRegistry
  import PlayerActor

  /** What a due Invoke does to an enemy's own fields; EndDead goes to the registry instead. */
  function EnemyFire(b: Body, a: Action): (r: Body)
    ensures a == DisableAttackCollider ==>
      r == b.(colliderOn := false, timers := b.timers + multiset{Timer(RECOVERY_TIME, EndAttack)})
    ensures a == EndAttack ==> r == b.(attackFlag := false, isMove := true)
    ensures a == EndDamage ==> r == b.(damageFlag := false)
    ensures a == EndDead || a == BackToPatrol ==> r == b
  {
    match a
    case DisableAttackCollider => b.(colliderOn := false, timers := b.timers + multiset{Timer(RECOVERY_TIME, EndAttack)})
    case EndAttack => b.(attackFlag := false, isMove := true)
    case EndDamage => b.(damageFlag := false)
    case _ => b
  }

  /** A due timer is taken out of the pending set and run. */
  function EnemyDue(b: Body, t: Timer): Body
    requires t in b.timers
  {
    EnemyFire(b.(timers := b.timers - multiset{t}), t.action)
  }

  /**
   * The attack chain: the impact arms the volume with power 20, the 0.1 s
   * timer disarms it and schedules EndAttack 1 s later, and EndAttack
   * clears the attack flag and restarts the move, leaving nothing pending
   * that the chain added.
   */
  lemma AttackChainEnds(b: Body)
    ensures var attacking := b.(attackFlag := true, isMove := false, log := b.log + [SetTrigger("Attack")]);
      var armed := attacking.(power := ATTACK_POWER, colliderOn := true,
                              timers := attacking.timers + multiset{Timer(COLLIDER_ON_TIME, DisableAttackCollider)});
      var disarmed := EnemyDue(armed, Timer(COLLIDER_ON_TIME, DisableAttackCollider));
      && disarmed.attackFlag && !disarmed.colliderOn
      && Timer(RECOVERY_TIME, EndAttack) in disarmed.timers
      && var done := EnemyDue(disarmed, Timer(RECOVERY_TIME, EndAttack));
         && !done.attackFlag && !done.colliderOn && done.isMove && done.power == ATTACK_POWER
         && done.timers == b.timers && done.hp == b.hp
  {
    var armedTimers := b.timers + multiset{Timer(COLLIDER_ON_TIME, DisableAttackCollider)};
    assert armedTimers - multiset{Timer(COLLIDER_ON_TIME, DisableAttackCollider)} == b.timers;
    var disarmedTimers := b.timers + multiset{Timer(RECOVERY_TIME, EndAttack)};
    assert disarmedTimers - multiset{Timer(RECOVERY_TIME, EndAttack)} == b.timers;
  }

  /** Damage cancels no pending Invoke: only OnDestroy does. */
  lemma DamageKeepsPendingInvokes(b: Body, damage: int)
    ensures b.timers <= Damaged(b, damage).timers
    ensures Damaged(b, damage).timers - b.timers == (if b.hp > 0 && Damaged(b, damage).hp == 0 then multiset{Timer(DEAD_TIME, EndDead)} else multiset{})
  {
  }

  /** The knockback completing: its callback runs and the slot empties. */
  function KnockBackDone(b: Body): (r: Body)
    requires b.knockBack.Some?
    ensures r.knockBack == None
    ensures r.damageFlag == (b.damageFlag && b.knockBack != Some(EndDamage))
    ensures r == b.(knockBack := None, damageFlag := b.damageFlag && b.knockBack != Some(EndDamage))
  {
    var cleared := b.(knockBack := None);
    if b.knockBack.value == EndDamage then cleared.(damageFlag := false) else cleared
  }

  /**
   * A non-lethal hit ends when its knockback completes, which clears the
   * damage flag; a lethal one leaves no knockback to complete, so the flag
   * stays up.
   */
  lemma DamageEndsOnKnockBack(b: Body, damage: int)
    requires b.hp > 0
    ensures Damaged(b, damage).hp > 0 ==> !KnockBackDone(Damaged(b, damage)).damageFlag
    ensures Damaged(b, damage).hp == 0 ==> Damaged(b, damage).knockBack == None && Damaged(b, damage).damageFlag
  {
  }

  /**
   * Run a pending Invoke of `enemy`: its own methods, or for EndDead
   * removal from the registry (which destroys it).
   */
  method FireEnemyTimer(enemy: Enemy, t: Timer, registry: EnemyManager, playerDead: bool, ui: Screen)
    requires t in enemy.timers
    requires registry.Valid()
    modifies enemy, registry, ui
    ensures registry.Valid()
    ensures t.action != EndDead ==>
      && enemy.Snapshot() == EnemyDue(old(enemy.Snapshot()), t)
      && registry.enemies == old(registry.enemies) && ui.shown == old(ui.shown)
    ensures t.action == EndDead ==>
      && registry.enemies == RemoveFirst(old(registry.enemies), enemy)
      && ui.shown == old(ui.shown) +
           (if ClearsGame(old(registry.enemies), enemy, playerDead) then [GameEnd(true)] else [])
      && (enemy in old(registry.enemies) ==>
            enemy.Snapshot() == old(enemy.Snapshot()).(timers := multiset{}, knockBack := None, destroyed := true))
      && (enemy !in old(registry.enemies) ==>
            enemy.Snapshot() == old(enemy.Snapshot()).(timers := old(enemy.timers) - multiset{t}))
  {
    enemy.TakeTimer(t);
    match t.action
    case DisableAttackCollider => enemy.DisableAttackCollider();
    case EndAttack => enemy.EndAttack();
    case EndDamage => enemy.EndDamage();
    case EndDead => registry.Remove(enemy, playerDead, ui);
    case BackToPatrol =>
  }

  /**
   * The enemy's knockback completes: EndDamage for the flag-based enemy,
   * or the Damage state's callback, which transitions the current state
   * to a new Patrol.
   */
  method CompleteKnockBack(enemy: Enemy, current: EnemyState)
    requires enemy.knockBack.Some?
    modifies enemy, current
    ensures enemy.Snapshot() == KnockBackDone(old(enemy.Snapshot()))
    ensures old(enemy.knockBack) == Some(BackToPatrol) ==>
      && current.View() == StateBase.Transitioned(old(current.View()), Patrol)
      && fresh(current.next) && current.next.View() == StateBase.Fresh()
    ensures old(enemy.knockBack) != Some(BackToPatrol) ==>
      current.stage == old(current.stage) && current.next == old(current.next)
  {
    var callback := enemy.CompleteKnockBack();
    match callback
    case EndDamage => enemy.EndDamage();
    case BackToPatrol =>
      var patrol := new EnemyState(Patrol);
      current.Transition(patrol);
    case _ =>
  }

  /** Run a pending Invoke of the player; EndDead shows the game-over banner. */
  method FirePlayerTimer(player: PlayerActor.Player, t: Timer, ui: Screen)
    requires t in player.timers
    modifies player, ui
    ensures player.Snapshot() == PlayerActor.Step(old(player.Snapshot()), PlayerActor.Due(t))
    ensures player.target == old(player.target)
    ensures ui.shown == old(ui.shown) + (if t.action == EndDead then [GameEnd(false)] else [])
  {
    player.TakeTimer(t);
    match t.action
    case DisableAttackCollider => player.DisableAttackCollider();
    case EndDamage => player.EndDamage();
    case EndDead => player.EndDead(ui);
    case _ =>
  }
}
