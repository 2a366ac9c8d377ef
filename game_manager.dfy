/**
 * The game clock (GameManager.cs): the remaining time counts down while
 * enemies remain, never below zero, is shown as "mm:ss" every tick, and
 * the game-over banner appears on the tick where it reaches zero.
 */
module Countdown {
  import opened Common
  import opened GameUi
  import opened EnemyRegistry
  import TimeView

  /** `Mathf.Max(time - deltaTime, 0)`. */
  function TickTime(time: real, deltaTime: real): (r: real)
    ensures r >= 0.0
    ensures r == 0.0 || r == time - deltaTime
    ensures r == 0.0 <==> time - deltaTime <= 0.0
    ensures time >= 0.0 && deltaTime >= 0.0 ==> r <= time
  {
    MaxReal(time - deltaTime, 0.0)
  }

  /** What one Update sees: the frame time and whether any enemy is left. */
  datatype Frame = Frame(deltaTime: real, enemiesLeft: bool)

  /**
   * One Update on the remaining time: the new time and what it shows.
   * Nothing happens once the time is over or no enemy is left.
   */
  function Tick(time: real, f: Frame): (r: (real, seq<UiNote>))
    ensures time <= 0.0 || !f.enemiesLeft ==> r == (time, [])
    ensures time > 0.0 && f.enemiesLeft ==>
      && r.0 == TickTime(time, f.deltaTime)
      && |r.1| >= 1 && r.1[0] == TimeText(TimeView.FormatTime(r.0))
      && (r.0 <= 0.0 <==> GameEnd(false) in r.1)
      && r.1 == [TimeText(TimeView.FormatTime(r.0))] + (if r.0 <= 0.0 then [GameEnd(false)] else [])
  {
    if time <= 0.0 || !f.enemiesLeft then (time, [])
    else
      var t := TickTime(time, f.deltaTime);
      (t, [TimeText(TimeView.FormatTime(t))] + (if t <= 0.0 then [GameEnd(false)] else []))
  }

  /** A run of Updates: the final time and everything shown, in order. */
  function Ticks(time: real, frames: seq<Frame>): (real, seq<UiNote>)
    decreases |frames|
  {
    if frames == [] then (time, [])
    else
      var first := Tick(time, frames[0]);
      var rest := Ticks(first.0, frames[1..]);
      (rest.0, first.1 + rest.1)
  }

  /** How many game-over banners a run shows. */
  function GameOvers(shown: seq<UiNote>): nat
  {
    multiset(shown)[GameEnd(false)]
  }

  /**
   * Over any run the time never rises and never goes below zero; game over
   * is shown at most once, and exactly when a run that started with time
   * left ends with none.
   */
  lemma {:induction false} GameOverAtMostOnce(time: real, frames: seq<Frame>)
    requires time >= 0.0
    requires forall i :: 0 <= i < |frames| ==> frames[i].deltaTime >= 0.0
    ensures 0.0 <= Ticks(time, frames).0 <= time
    ensures time <= 0.0 ==> Ticks(time, frames) == (time, [])
    ensures time > 0.0 ==> (GameOvers(Ticks(time, frames).1) == 1 <==> Ticks(time, frames).0 <= 0.0)
    ensures GameOvers(Ticks(time, frames).1) <= 1
    decreases |frames|
  {
    if frames != [] {
      var first := Tick(time, frames[0]);
      GameOverAtMostOnce(first.0, frames[1..]);
      var rest := Ticks(first.0, frames[1..]);
      assert multiset(first.1 + rest.1) == multiset(first.1) + multiset(rest.1);
      if time > 0.0 && frames[0].enemiesLeft {
        if first.0 <= 0.0 {
          assert first.1 == [TimeText(TimeView.FormatTime(first.0)), GameEnd(false)];
        } else {
          assert first.1 == [TimeText(TimeView.FormatTime(first.0))];
        }
      } else if time <= 0.0 {
        assert first.1 + rest.1 == [];
      }
    }
  }

  class GameManager {
    /** The length of a game, in seconds. */
    const maxTime: int
    /** The time left, in seconds. */
    var time: real

    /** Awake: the full time is left. */
    constructor (maxTime: int)
      ensures this.maxTime == maxTime && time == maxTime as real
    {
      this.maxTime := maxTime;
      time := maxTime as real;
    }

    predicate IsTimeOver()
      reads this
    {
      time <= 0.0
    }

    /** Start: the initial time is shown. */
    method Start(ui: Screen)
      modifies ui
      ensures ui.shown == old(ui.shown) + [TimeText(TimeView.FormatTime(time))]
    {
      ui.Show(TimeText(TimeView.FormatTime(time)));
    }

    /** One frame of the clock. */
    method Update(deltaTime: real, registry: EnemyManager, ui: Screen)
      modifies this, ui
      ensures time == Tick(old(time), Frame(deltaTime, registry.IsExistEnemy())).0
      ensures ui.shown == old(ui.shown) + Tick(old(time), Frame(deltaTime, registry.IsExistEnemy())).1
    {
      ghost var r := Tick(time, Frame(deltaTime, registry.IsExistEnemy()));
      ghost var before := ui.shown;
      if IsTimeOver() || !registry.IsExistEnemy() {
        return;
      }
      time := MaxReal(time - deltaTime, 0.0);
      assert time == r.0;
      var text := TimeView.FormatTime(time);
      ui.Show(TimeText(text));
      if IsTimeOver() {
        ui.Show(GameEnd(false));
        assert r.1 == [TimeText(text), GameEnd(false)];
        assert ui.shown == before + [TimeText(text), GameEnd(false)];
      } else {
        assert r.1 == [TimeText(text)];
      }
    }
  }
}
