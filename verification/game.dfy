/**
  The game-level state machine of Boomshine: the phase, the round and total
  scores, the reaction to a mouse click (doMousedown / checkCircleClicked),
  the end-of-round decision of checkForCollisions, reset, the best-score
  update done while drawing the HUD, and one frame of the game loop.

  The browser parts are parameters: `contains` stands for
  pointInsideCircle at the click position, `overlap` for circlesIntersect,
  `spawn` for the random draws of makeCircles, `dt` for the clamped frame
  time.
 */
module Game {
  import opened Options
  import opened Circles
  import opened Collisions

  /** GAME_STATE.  MainScreen is declared by the source but never entered. */
  datatype Phase = MainScreen | Begin | Default | Exploding | RoundOver | RepeatLevel | End

  const NumCirclesStart: nat := 6
  /** The constant table names this key twice (20, then 33); the later one wins. */
  const NumCirclesEnd: nat := 33
  const NumLevelIncrease: nat := 6
  /** NUM_PERCENT_CIRCLES_TO_ADVANCE = 0.45, as a percentage. */
  const AdvancePercent: nat := 45

  datatype Game = Game(
    circles: seq<Circle>,
    numCircles: nat,
    roundScore: nat,
    scoreGoal: nat,
    totalScore: nat,
    bestScore: int,
    phase: Phase,
    paused: bool)

  /** Phases in which a click is a hit test on the circles. */
  predicate Aiming(p: Phase)
  {
    p == MainScreen || p == Begin || p == Default
  }

  /** Phases that show an end-of-round screen. */
  predicate Finished(p: Phase)
  {
    p == RoundOver || p == RepeatLevel || p == End
  }

  /** The round is finished when no circle is active (the isOver loop). */
  predicate AllSettled(cs: seq<Circle>)
  {
    forall k :: 0 <= k < |cs| ==> Settled(cs[k])
  }

  /** parseInt(numCircles * 0.45): the goal is the floor of 45% of the circles. */
  function ScoreGoal(numCircles: nat): (goal: nat)
    ensures goal * 100 <= numCircles * AdvancePercent < (goal + 1) * 100
  {
    numCircles * AdvancePercent / 100
  }

  // ---------------------------------------------------------------------------
  // Round outcome

  /** The phase a finished round moves to.  The source's third test
      (roundScore >= scoreGoal) always holds when it is reached. */
  function Outcome(roundScore: nat, scoreGoal: nat, numCircles: nat): (p: Phase)
    ensures p == RepeatLevel <==> roundScore < scoreGoal
    ensures p == End <==> scoreGoal <= roundScore && numCircles > NumCirclesEnd
    ensures p == RoundOver <==> scoreGoal <= roundScore && numCircles <= NumCirclesEnd
  {
    if roundScore < scoreGoal then RepeatLevel
    else if numCircles > NumCirclesEnd then End
    else RoundOver
  }

  /** checkForCollisions: only while the phase is Exploding, run the
      chain-reaction pass; once no circle is active, pick the next phase and
      bank the round score unless the level has to be repeated. */
  function CheckForCollisions(g: Game, overlap: Overlap): (r: Game)
    ensures g.phase != Phase.Exploding ==> r == g
    ensures r.numCircles == g.numCircles && r.scoreGoal == g.scoreGoal
    ensures r.bestScore == g.bestScore && r.paused == g.paused
    ensures g.phase == Phase.Exploding ==>
      && PopsOnly(g.circles, r.circles)
      && r.roundScore == g.roundScore + Transitions(g.circles, r.circles)
      && (r.phase != Phase.Exploding <==> AllSettled(r.circles))
      && (r.phase == RepeatLevel <==> AllSettled(r.circles) && r.roundScore < g.scoreGoal)
      && (r.phase == End <==>
            AllSettled(r.circles) && g.scoreGoal <= r.roundScore && g.numCircles > NumCirclesEnd)
      && (r.phase == RoundOver <==>
            AllSettled(r.circles) && g.scoreGoal <= r.roundScore && g.numCircles <= NumCirclesEnd)
      && r.totalScore == g.totalScore + (if r.phase == RoundOver || r.phase == End then r.roundScore else 0)
  {
    if g.phase != Phase.Exploding then g
    else
      var pass := Collide(overlap, g.circles, g.roundScore);
      TransitionsCount(g.circles, pass.circles);
      if !AllSettled(pass.circles) then
        g.(circles := pass.circles, roundScore := pass.score)
      else
        var next := Outcome(pass.score, g.scoreGoal, g.numCircles);
        g.(circles := pass.circles, roundScore := pass.score, phase := next,
           totalScore := if next != RepeatLevel then g.totalScore + pass.score else g.totalScore)
  }

  // ---------------------------------------------------------------------------
  // Clicks

  /** The highest index below `n` whose circle contains the click point:
      checkCircleClicked scans downwards and stops at the first hit. */
  function TopmostHit(cs: seq<Circle>, contains: Circle -> bool, n: nat): (r: Option<nat>)
    requires n <= |cs|
    ensures r.Some? ==>
      && r.value < n
      && contains(cs[r.value])
      && forall j :: r.value < j < n ==> !contains(cs[j])
    ensures r.None? ==> forall j :: 0 <= j < n ==> !contains(cs[j])
  {
    if n == 0 then None
    else if contains(cs[n - 1]) then Some(n - 1)
    else TopmostHit(cs, contains, n - 1)
  }

  /** checkCircleClicked: the topmost circle under the click is set off, the
      phase becomes Exploding and the click scores a point; a click that
      hits no circle changes nothing. */
  function CheckCircleClicked(g: Game, contains: Circle -> bool): (r: Game)
    ensures r.numCircles == g.numCircles && r.scoreGoal == g.scoreGoal && r.totalScore == g.totalScore
    ensures r.bestScore == g.bestScore && r.paused == g.paused && |r.circles| == |g.circles|
    ensures (forall k :: 0 <= k < |g.circles| ==> !contains(g.circles[k])) ==> r == g
    ensures (exists k :: 0 <= k < |g.circles| && contains(g.circles[k])) ==>
      exists k ::
        && 0 <= k < |g.circles|
        && contains(g.circles[k])
        && (forall j :: k < j < |g.circles| ==> !contains(g.circles[j]))
        && r == g.(circles := g.circles[k := Explode(g.circles[k])],
                   phase := Phase.Exploding,
                   roundScore := g.roundScore + 1)
  {
    match TopmostHit(g.circles, contains, |g.circles|)
    case None => g
    case Some(k) =>
      g.(circles := g.circles[k := Explode(g.circles[k])], phase := Phase.Exploding,
         roundScore := g.roundScore + 1)
  }

  /** reset: after a win the game starts over; after a failed round the
      level repeats; otherwise the next level has six more circles.  The
      random background and font colour choice is left out. */
  function Reset(cfg: Config, g: Game, spawn: nat -> Spawn): (r: Game)
    ensures g.phase == End ==> r.numCircles == NumCirclesStart && r.totalScore == 0
    ensures g.phase == RepeatLevel ==> r.numCircles == g.numCircles && r.totalScore == g.totalScore
    ensures g.phase != End && g.phase != RepeatLevel ==>
      r.numCircles == g.numCircles + NumLevelIncrease && r.totalScore == g.totalScore
    ensures r.roundScore == 0
    ensures r.scoreGoal * 100 <= r.numCircles * AdvancePercent < (r.scoreGoal + 1) * 100
    ensures |r.circles| == r.numCircles
    ensures forall k :: 0 <= k < |r.circles| ==>
      r.circles[k].state == Normal && r.circles[k].radius == cfg.startRadius
      && r.circles[k].lifetime == 0.0 && r.circles[k].speed == MaxSpeed
    ensures r.phase == Default && r.bestScore == g.bestScore && r.paused == g.paused
  {
    var n := if g.phase == End then NumCirclesStart
             else if g.phase == RepeatLevel then g.numCircles
             else g.numCircles + NumLevelIncrease;
    var total := if g.phase == End then 0 else g.totalScore;
    g.(numCircles := n, totalScore := total, roundScore := 0, scoreGoal := ScoreGoal(n),
       circles := MakeCircles(cfg, n, spawn), phase := Default)
  }

  /** doMousedown.  A click on a paused game unpauses it and runs one frame
      straight away; while circles explode a click is ignored; on an
      end-of-round screen it resets; otherwise it is a hit test. */
  function Mousedown(cfg: Config, g: Game, contains: Circle -> bool, spawn: nat -> Spawn,
                     dt: real, overlap: Overlap): (r: Game)
    ensures !r.paused
    ensures g.paused ==> r == Frame(cfg, g.(paused := false), dt, overlap)
    ensures !g.paused && g.phase == Phase.Exploding ==> r == g
    ensures !g.paused && Finished(g.phase) ==>
      r.phase == Default && r.roundScore == 0 && |r.circles| == r.numCircles
    ensures !g.paused && Finished(g.phase) ==> r == Reset(cfg, g, spawn)
    ensures !g.paused && Aiming(g.phase) ==> r == CheckCircleClicked(g, contains)
    ensures !g.paused && Aiming(g.phase) ==>
      && r.numCircles == g.numCircles && r.totalScore == g.totalScore
      && (r.phase == g.phase || r.phase == Phase.Exploding)
      && r.roundScore == (if r.phase == g.phase then g.roundScore else g.roundScore + 1)
  {
    if g.paused then Frame(cfg, g.(paused := false), dt, overlap)
    else if g.phase == Phase.Exploding then g
    else if Finished(g.phase) then Reset(cfg, g, spawn)
    else CheckCircleClicked(g, contains)
  }

  // ---------------------------------------------------------------------------
  // One frame

  /** The best-score update done while drawing the HUD. */
  function UpdateBest(g: Game): (r: Game)
    ensures r == g.(bestScore := r.bestScore)
    ensures r.bestScore >= g.bestScore
    ensures r.bestScore == g.bestScore || r.bestScore == g.totalScore
    ensures g.phase != RepeatLevel ==> r.bestScore >= g.totalScore
    ensures g.phase == RepeatLevel || g.totalScore <= g.bestScore ==> r == g
  {
    if g.totalScore > g.bestScore && g.phase != RepeatLevel then g.(bestScore := g.totalScore)
    else g
  }

  /** One call of update(): a paused frame does nothing; otherwise the HUD
      update of the best score, then moveCircles, then checkForCollisions.
      The keyboard cheat that follows is left out. */
  function Frame(cfg: Config, g: Game, dt: real, overlap: Overlap): (r: Game)
    ensures g.paused ==> r == g
    ensures |r.circles| == |g.circles|
    ensures r.numCircles == g.numCircles && r.scoreGoal == g.scoreGoal && r.paused == g.paused
    ensures r.roundScore >= g.roundScore
    ensures r.roundScore != g.roundScore ==> g.phase == Phase.Exploding
    ensures r.totalScore >= g.totalScore
    ensures r.bestScore >= g.bestScore
  {
    if g.paused then g
    else
      var h := UpdateBest(g);
      CheckForCollisions(h.(circles := MoveCircles(cfg, h.circles, dt)), overlap)
  }

  /** Within one frame a circle moves forward through the life cycle by at
      most one stage. */
  lemma FrameOneStage(cfg: Config, g: Game, dt: real, overlap: Overlap, k: nat)
    requires k < |g.circles|
    ensures Rank(g.circles[k].state) <= Rank(Frame(cfg, g, dt, overlap).circles[k].state)
    ensures Rank(Frame(cfg, g, dt, overlap).circles[k].state) <= Rank(g.circles[k].state) + 1
  {
    if !g.paused {
      var h := UpdateBest(g);
      var moved := h.(circles := MoveCircles(cfg, h.circles, dt));
      var r := CheckForCollisions(moved, overlap);
      assert moved.circles[k] == StepCircle(cfg, g.circles[k], dt);
      if g.phase == Phase.Exploding {
        assert PopStep(moved.circles[k], r.circles[k]);
      }
    }
  }

  // ---------------------------------------------------------------------------
  // Reachable states

  /** What holds of every game state from the first reset on. */
  predicate Valid(g: Game)
  {
    && |g.circles| == g.numCircles
    && NumCirclesStart <= g.numCircles <= NumCirclesEnd + NumLevelIncrease
    && g.numCircles % NumLevelIncrease == 0
    && g.scoreGoal == ScoreGoal(g.numCircles)
    && g.roundScore == NonNormal(g.circles)
    && (forall k :: 0 <= k < |g.circles| && !g.circles[k].state.Normal? ==>
          g.circles[k].xSpeed == 0.0 && g.circles[k].ySpeed == 0.0)
    && (Aiming(g.phase) ==> forall k :: 0 <= k < |g.circles| ==> g.circles[k].state.Normal?)
    && (g.phase == Phase.Exploding ==> g.roundScore >= 1)
    && (Finished(g.phase) ==> AllSettled(g.circles))
    && (g.phase == RepeatLevel ==> g.roundScore < g.scoreGoal)
    && (g.phase == RoundOver ==> g.scoreGoal <= g.roundScore && g.numCircles <= NumCirclesEnd)
    && (g.phase == End ==> g.scoreGoal <= g.roundScore && g.numCircles > NumCirclesEnd)
  }

  /** In a reachable state the round score counts the circles that have been
      set off this round, so it never exceeds the number of circles, and
      there are never more than 36 circles. */
  lemma ValidBounds(g: Game)
    requires Valid(g)
    ensures g.roundScore <= g.numCircles <= 36
    ensures g.scoreGoal <= 16
  {
  }

  /** Resetting after a win yields a reachable state whatever came before. */
  lemma ResetAfterWinIsValid(cfg: Config, g: Game, spawn: nat -> Spawn)
    requires g.phase == End
    ensures Valid(Reset(cfg, g, spawn))
  {
  }

  /** init calls reset from the Begin screen with the starting circle
      count, so the first round is a reachable state (with twelve circles). */
  lemma FirstResetIsValid(cfg: Config, g: Game, spawn: nat -> Spawn)
    requires g.phase == Begin && g.numCircles == NumCirclesStart
    ensures Reset(cfg, g, spawn).numCircles == 2 * NumCirclesStart
    ensures Valid(Reset(cfg, g, spawn))
  {
  }

  lemma MovePreservesValid(cfg: Config, g: Game, dt: real)
    requires Valid(g)
    ensures Valid(g.(circles := MoveCircles(cfg, g.circles, dt)))
  {
  }

  lemma CollisionsPreserveValid(g: Game, overlap: Overlap)
    requires Valid(g)
    ensures Valid(CheckForCollisions(g, overlap))
  {
    if g.phase == Phase.Exploding {
      var r := CheckForCollisions(g, overlap);
      TransitionsCount(g.circles, r.circles);
      forall k | 0 <= k < |r.circles| && !r.circles[k].state.Normal?
        ensures r.circles[k].xSpeed == 0.0 && r.circles[k].ySpeed == 0.0
      {
        assert PopStep(g.circles[k], r.circles[k]);
      }
    }
  }

  lemma FramePreservesValid(cfg: Config, g: Game, dt: real, overlap: Overlap)
    requires Valid(g)
    ensures Valid(Frame(cfg, g, dt, overlap))
  {
    if !g.paused {
      var h := UpdateBest(g);
      MovePreservesValid(cfg, h, dt);
      CollisionsPreserveValid(h.(circles := MoveCircles(cfg, h.circles, dt)), overlap);
    }
  }

  lemma ClickPreservesValid(g: Game, contains: Circle -> bool)
    requires Valid(g) && Aiming(g.phase)
    ensures Valid(CheckCircleClicked(g, contains))
  {
    match TopmostHit(g.circles, contains, |g.circles|)
    case None =>
    case Some(k) =>
      NonNormalUpdate(g.circles, k, Explode(g.circles[k]));
  }

  lemma ResetPreservesValid(cfg: Config, g: Game, spawn: nat -> Spawn)
    requires Valid(g) && Finished(g.phase)
    ensures Valid(Reset(cfg, g, spawn))
  {
    var r := Reset(cfg, g, spawn);
    assert NonNormal(r.circles) == 0;
    if g.phase == RoundOver {
      assert g.numCircles <= NumCirclesEnd;
      assert r.numCircles == g.numCircles + NumLevelIncrease;
      assert r.numCircles % NumLevelIncrease == 0;
    } else if g.phase == RepeatLevel {
      assert r.numCircles == g.numCircles;
    } else {
      assert r.numCircles == NumCirclesStart;
    }
    assert r.scoreGoal == ScoreGoal(r.numCircles);
  }

  lemma MousedownPreservesValid(cfg: Config, g: Game, contains: Circle -> bool,
                                spawn: nat -> Spawn, dt: real, overlap: Overlap)
    requires Valid(g)
    ensures Valid(Mousedown(cfg, g, contains, spawn, dt, overlap))
  {
    if g.paused {
      FramePreservesValid(cfg, g.(paused := false), dt, overlap);
    } else if Aiming(g.phase) {
      ClickPreservesValid(g, contains);
    } else if Finished(g.phase) {
      ResetPreservesValid(cfg, g, spawn);
    }
  }

  /** In a reachable state a click never sends a circle back in its life
      cycle, unless it starts a new round. */
  lemma ClickMovesForward(cfg: Config, g: Game, contains: Circle -> bool,
                          spawn: nat -> Spawn, dt: real, overlap: Overlap, k: nat)
    requires Valid(g) && !Finished(g.phase) && k < |g.circles|
    ensures |Mousedown(cfg, g, contains, spawn, dt, overlap).circles| == |g.circles|
    ensures Rank(g.circles[k].state) <= Rank(Mousedown(cfg, g, contains, spawn, dt, overlap).circles[k].state)
  {
    if g.paused {
      FrameOneStage(cfg, g.(paused := false), dt, overlap, k);
    }
  }

  /** In a reachable state a circle that has been set off never moves again. */
  lemma SetOffCirclesStayPut(cfg: Config, g: Game, dt: real, overlap: Overlap, k: nat)
    requires Valid(g) && k < |g.circles| && !g.circles[k].state.Normal?
    ensures Frame(cfg, g, dt, overlap).circles[k].x == g.circles[k].x
    ensures Frame(cfg, g, dt, overlap).circles[k].y == g.circles[k].y
  {
    if !g.paused {
      var h := UpdateBest(g);
      var moved := h.(circles := MoveCircles(cfg, h.circles, dt));
      assert moved.circles[k] == StepCircle(cfg, g.circles[k], dt);
      if g.phase == Phase.Exploding {
        assert PopStep(moved.circles[k], Frame(cfg, g, dt, overlap).circles[k]);
      }
    }
  }

  /** With no active circle the chain-reaction pass changes nothing. */
  lemma {:induction false} QuietPass(overlap: Overlap, cs: seq<Circle>, i: nat, score: nat)
    requires i <= |cs| && AllSettled(cs)
    ensures OuterPass(overlap, cs, i, score) == PassResult(cs, score)
    decreases |cs| - i
  {
    if i < |cs| {
      QuietPass(overlap, cs, i + 1, score);
    }
  }

  /** A six-circle round with goal two that ends with three circles popped
      moves on to the next level and banks the three points. */
  lemma SixCircleRoundSucceeds(g: Game, overlap: Overlap)
    requires g.phase == Phase.Exploding && g.numCircles == 6 && g.scoreGoal == ScoreGoal(6)
    requires g.roundScore == 3 && AllSettled(g.circles)
    ensures g.scoreGoal == 2
    ensures CheckForCollisions(g, overlap).phase == RoundOver
    ensures CheckForCollisions(g, overlap).totalScore == g.totalScore + 3
  {
    QuietPass(overlap, g.circles, 0, g.roundScore);
  }
}
