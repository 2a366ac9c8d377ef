/**
 * Values shared by every actor of the encounter: the optional value, the
 * notifications sent to the animator and to the effect players, and the
 * callbacks that `Invoke` schedules or that a finished tween calls.
 */
module Common {

  datatype Option<T> = None | Some(value: T)

  /** Mathf.Max on integers. */
  function MaxInt(a: int, b: int): int
  {
    if a >= b then a else b
  }

  /** Mathf.Max on floats, read as exact reals. */
  function MaxReal(a: real, b: real): real
  {
    if a >= b then a else b
  }

  /** The identity of a collider (an attack volume); only identity matters here. */
  type ColliderId = nat

  /** A method that an `Invoke` or a tween's completion calls back later. */
  datatype Action =
    | DisableAttackCollider
    | EndAttack
    | EndDamage
    | EndDead
      /** the knockback completion of the Damage state: transition to Patrol */
    | BackToPatrol

  /** One pending `Invoke`: the delay in seconds it was scheduled with, and what it calls. */
  datatype Timer = Timer(delay: real, action: Action)

  /** Fire-and-forget notifications: animator triggers and visual effects. */
  datatype Note =
    | SetTrigger(name: string)
    | ResetTrigger(name: string)
    | DamageNumber(amount: int)
    | HitEffect
    | BlinkColor
    | ShakeBody
    | KnockBackMove

  /** HP after taking `damage`: `Mathf.Max(hp - damage, 0)`. */
  function ReduceHP(hp: int, damage: int): (r: int)
    ensures r >= 0
    ensures r >= hp - damage
    ensures r == 0 || r == hp - damage
  {
    MaxInt(hp - damage, 0)
  }

  /** Damage never heals and never takes HP below zero. */
  lemma DamageNeverHeals(hp: int, damage: int)
    requires hp >= 0 && damage >= 0
    ensures 0 <= ReduceHP(hp, damage) <= hp
    ensures ReduceHP(hp, damage) == 0 <==> damage >= hp
  {
  }
}

/** The screen-level UI: the game-end banner, the player's HP gauge and the time text. */
module GameUi {

  datatype UiNote =
    | GameEnd(clear: bool)
    | HPGaugeInit(maxHP: int)
    | HPGaugeSet(hp: int)
    | TimeText(text: string)

  /** Everything shown so far, in order. */
  class Screen {
    var shown: seq<UiNote>

    constructor ()
      ensures shown == []
    {
      shown := [];
    }

    method Show(n: UiNote)
      modifies this
      ensures shown == old(shown) + [n]
    {
      shown := shown + [n];
    }
  }
}
