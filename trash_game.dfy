/**
 * The game session: the seven fields the component keeps, and the steps that
 * overwrite them. Each timer callback, event handler and effect body is one
 * atomic method; the timers and listeners themselves are not modelled, so a
 * step that only runs while a timer or listener is registered checks the same
 * condition that registers it.
 */
module TrashGame {
  import opened Wrappers
  import opened Geometry
  import opened Catcher
  import opened Falling
  import opened Leveling

  class Game {
    var score: int
    var level: int
    var speed: real
    var gameOver: bool
    var isPlaying: bool
    var position: real
    var trash: seq<Item>

    /**
     * The session invariant. Score is a non-negative multiple of the catch
     * points, speed follows the level, the catcher is inside its range, the
     * session is idle, playing or over (never playing and over at once), an
     * idle session has never been played, and every item is in range.
     */
    ghost predicate Valid()
      reads this
    {
      && score >= 0 && score % CatchPoints == 0
      && level >= StartLevel && speed == SpeedAt(level)
      && MinPosition <= position <= MaxPosition
      && !(isPlaying && gameOver)
      && (!isPlaying && !gameOver ==> trash == [] && score == 0 && level == StartLevel)
      && forall i :: 0 <= i < |trash| ==> WellFormed(trash[i])
    }

    /** The state before the first start: idle, nothing on the board. */
    constructor ()
      ensures Valid()
      ensures score == 0 && level == StartLevel && speed == StartSpeed
      ensures !gameOver && !isPlaying && position == StartPosition && trash == []
    {
      score, level, speed := 0, StartLevel, StartSpeed;
      gameOver, isPlaying := false, false;
      position, trash := StartPosition, [];
    }

    /**
     * Start (or restart) a session: every field back to its start value. The
     * new state does not depend on the old one, so starting twice in a row
     * leaves the same state as starting once.
     */
    method Start()
      modifies this
      ensures Valid()
      ensures score == 0 && level == StartLevel && speed == StartSpeed
      ensures !gameOver && isPlaying && position == StartPosition && trash == []
    {
      score := 0;
      level := StartLevel;
      gameOver := false;
      isPlaying := true;
      trash := [];
      speed := StartSpeed;
      position := StartPosition;
    }

    /**
     * A pointer move to `clientX`. Nothing happens unless a session is being
     * played and the play area is there to measure; otherwise the catcher goes
     * to the pointer's percentage, clamped to its range.
     */
    method MoveBin(clientX: real, area: Option<Rect>)
      requires Valid()
      requires area.Some? ==> area.value.width > 0.0
      modifies this`position
      ensures Valid() && MinPosition <= position <= MaxPosition
      ensures if isPlaying && !gameOver && area.Some?
              then position == Clamp(PointerPercent(clientX, area.value))
              else position == old(position)
    {
      if !isPlaying || gameOver || area.None? {
        return;
      }
      position := Clamp(PointerPercent(clientX, area.value));
    }

    /** The left step button. It works whether or not a session is being played. */
    method PressLeft()
      requires Valid()
      modifies this`position
      ensures Valid()
      ensures position == StepLeft(old(position))
    {
      position := StepLeft(position);
    }

    /** The right step button. It works whether or not a session is being played. */
    method PressRight()
      requires Valid()
      modifies this`position
      ensures Valid()
      ensures position == StepRight(old(position))
    {
      position := StepRight(position);
    }

    /**
     * One firing of the spawn timer, which runs only while a session is being
     * played: one new item at the top, appended after the others.
     */
    method SpawnItem(id: int, leftDraw: real, kindDraw: real)
      requires Valid()
      requires 0.0 <= leftDraw < 1.0 && 0.0 <= kindDraw < 1.0
      modifies this`trash
      ensures Valid()
      ensures if isPlaying && !gameOver
              then trash == old(trash) + [NewItem(id, leftDraw, kindDraw)]
              else trash == old(trash)
    {
      if !isPlaying || gameOver {
        return;
      }
      trash := Spawn(trash, id, leftDraw, kindDraw);
    }

    /**
     * One firing of the move timer, which runs only while a session is being
     * played. The list becomes the tick's kept list, each catch adds
     * CatchPoints, and an item lost through the floor ends the session. The
     * level-up rule is a separate step (SettleLevel).
     */
    method MoveAndCollide(bin: Option<Rect>, area: Option<Rect>)
      requires Valid()
      modifies this`trash, this`score, this`gameOver, this`isPlaying
      ensures Valid()
      ensures old(isPlaying) && !old(gameOver) ==>
                var r := Tick(old(trash), Scene(speed, bin, area));
                && trash == r.kept
                && score == old(score) + CatchPoints * r.caught
                && gameOver == (r.breached > 0)
                && isPlaying == !gameOver
      ensures !(old(isPlaying) && !old(gameOver)) ==>
                trash == old(trash) && score == old(score) &&
                gameOver == old(gameOver) && isPlaying == old(isPlaying)
    {
      if !isPlaying || gameOver {
        return;
      }
      var sc := Scene(speed, bin, area);
      var r := Tick(trash, sc);
      TickKeepsWellFormed(trash, sc);
      trash := r.kept;
      score := score + CatchPoints * r.caught;
      if r.breached > 0 {
        gameOver := true;
        isPlaying := false;
      }
    }

    /** One run of the level-up effect: one level and SpeedStep more speed when the rule fires. */
    method LevelUp()
      requires Valid()
      modifies this`level, this`speed
      ensures Valid()
      ensures Fires(score, old(level)) ==> level == old(level) + 1 && speed == old(speed) + SpeedStep
      ensures !Fires(score, old(level)) ==> level == old(level) && speed == old(speed)
    {
      if Fires(score, level) {
        level := level + 1;
        speed := speed + SpeedStep;
      }
    }

    /**
     * The level-up effect re-runs after every change of score or level until
     * it no longer fires; this is that sequence of runs after a score change.
     */
    method SettleLevel()
      requires Valid()
      modifies this`level, this`speed
      ensures Valid()
      ensures level == LevelAfter(score, old(level))
      ensures speed == SpeedAt(level)
      ensures !Fires(score, level)
    {
      ghost var target := LevelAfter(score, level);
      while Fires(score, level)
        invariant Valid()
        invariant old(level) <= level <= target
        invariant LevelAfter(score, level) == target
        decreases target - level
      {
        LevelUp();
      }
    }
  }

  /**
   * A session in which one item, spawned at the start, is never caught: after
   * 49 ticks at the start speed it is 98 down, and the 50th tick loses it
   * through the floor and ends the session.
   */
  method UncaughtItemEndsSession() returns (g: Game)
    ensures g.gameOver && !g.isPlaying && g.trash == [] && g.score == 0
  {
    g := new Game();
    g.Start();
    g.SpawnItem(1, 0.5, 0.5);
    ghost var it := NewItem(1, 0.5, 0.5);
    var ticks := 0;
    while ticks < 49
      invariant 0 <= ticks <= 49
      invariant g.Valid() && g.isPlaying && !g.gameOver && g.score == 0 && g.speed == StartSpeed
      invariant g.trash == [it.(top := ticks as real * StartSpeed)]
    {
      g.MoveAndCollide(None, None);
      ticks := ticks + 1;
    }
    g.MoveAndCollide(None, None);
  }
}
