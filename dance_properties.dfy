/** What one update of the choreography state machine guarantees, what a run
    of updates preserves, and the behaviours the update shows at the edges of
    a sequence. */
module DanceProperties {
  import opened Common
  import opened DanceLibrary
  import opened DanceSession

  /** Without a sequence an update reports nothing and changes nothing. */
  lemma StepWithoutSequence(s: Session, dt: real, leftHand: Option<Point>, rightHand: Option<Point>)
    requires s.sequence.None?
    ensures Step(s, dt, leftHand, rightHand) == (s, NoEvents)
  {
  }

  /** While celebrating no hit test runs: the update only waits, and leaves the
      move (reporting `complete`) once the celebration timer reaches its length. */
  lemma StepWhileCelebrating(s: Session, dt: real, leftHand: Option<Point>, rightHand: Option<Point>)
    requires s.sequence.Some? && s.celebrating
    ensures var (t, e) := Step(s, dt, leftHand, rightHand);
      && !e.hit && !e.miss && !e.pop && !e.sequenceComplete
      && t.loopCount == s.loopCount
      && t.movesCompleted == s.movesCompleted && t.movesMissed == s.movesMissed
      && t.currentStreak == s.currentStreak && t.bestStreak == s.bestStreak
      && (e.complete <==> s.celebrationTimer + dt >= CelebrationTime)
      && (e.complete ==> t.moveIndex == s.moveIndex + 1 && AtMoveStart(t))
      && (!e.complete ==> t == s.(moveTimer := s.moveTimer + dt,
                                  celebrationTimer := s.celebrationTimer + dt))
  {
  }

  /** `complete` is only ever reported at the end of a celebration. */
  lemma CompleteOnlyAfterCelebration(s: Session, dt: real, leftHand: Option<Point>, rightHand: Option<Point>)
    ensures Step(s, dt, leftHand, rightHand).1.complete ==> s.sequence.Some? && s.celebrating
  {
  }

  /** A move is completed exactly when every defined target has been hit and
      it has been shown for at least the minimum display time; completing it
      counts one move, extends the streak, updates the best streak and starts
      the celebration. */
  lemma StepHit(s: Session, dt: real, leftHand: Option<Point>, rightHand: Option<Point>)
    ensures var (t, e) := Step(s, dt, leftHand, rightHand);
      && (e.hit <==> s.sequence.Some? && !s.celebrating && s.moveTimer + dt >= MinDisplayTime
                     && LeftDone(s, leftHand) && RightDone(s, rightHand))
      && (e.hit ==>
            && t.movesCompleted == s.movesCompleted + 1
            && t.currentStreak == s.currentStreak + 1
            && t.bestStreak == Max(s.bestStreak, s.currentStreak + 1)
            && t.movesMissed == s.movesMissed
            && t.celebrating && t.celebrationTimer == 0.0)
  {
  }

  /** A move times out exactly when it was not completed and its timer reached
      the timeout; the miss is counted, the streak drops to 0 and the next move
      starts at once, without a celebration. */
  lemma StepMiss(s: Session, dt: real, leftHand: Option<Point>, rightHand: Option<Point>)
    ensures var (t, e) := Step(s, dt, leftHand, rightHand);
      && (e.miss <==> s.sequence.Some? && !s.celebrating && !e.hit && s.moveTimer + dt >= MoveTimeout)
      && (e.miss ==>
            && t.movesMissed == s.movesMissed + 1
            && t.currentStreak == 0
            && t.movesCompleted == s.movesCompleted && t.bestStreak == s.bestStreak
            && (t.loopCount == s.loopCount ==> t.moveIndex == s.moveIndex + 1)
            && AtMoveStart(t))
  {
  }

  /** Counters only move on `hit` or `miss`; the best streak, the number of
      completed and of missed moves, and the score never go down in an update. */
  lemma StepCounters(s: Session, dt: real, leftHand: Option<Point>, rightHand: Option<Point>)
    ensures var (t, e) := Step(s, dt, leftHand, rightHand);
      && (!e.hit ==> t.movesCompleted == s.movesCompleted && t.bestStreak == s.bestStreak)
      && (!e.miss ==> t.movesMissed == s.movesMissed)
      && (!e.hit && !e.miss ==> t.currentStreak == s.currentStreak)
      && t.bestStreak >= s.bestStreak
      && t.movesCompleted >= s.movesCompleted && t.movesMissed >= s.movesMissed
      && Score(t) >= Score(s)
  {
  }

  /** Hit flags are edge-triggered: `pop` fires exactly when a hand reaches a
      target it had not yet hit in this move; the flag is then set and the hit
      time is the move timer of that update; a flag once set stays set until
      the move is left. */
  lemma StepPop(s: Session, dt: real, leftHand: Option<Point>, rightHand: Option<Point>)
    ensures var (t, e) := Step(s, dt, leftHand, rightHand);
      && (e.pop <==> s.sequence.Some? && !s.celebrating
                     && (LeftFresh(s, leftHand) || RightFresh(s, rightHand)))
      && (s.sequence.Some? && !s.celebrating && !e.miss ==>
            && (t.leftHandHit <==> s.leftHandHit || LeftFresh(s, leftHand))
            && (t.rightHandHit <==> s.rightHandHit || RightFresh(s, rightHand))
            && t.leftHitTime == (if LeftFresh(s, leftHand) then s.moveTimer + dt else s.leftHitTime)
            && t.rightHitTime == (if RightFresh(s, rightHand) then s.moveTimer + dt else s.rightHitTime))
      && (s.leftHandHit && !t.leftHandHit ==> e.complete || e.miss)
      && (s.rightHandHit && !t.rightHandHit ==> e.complete || e.miss)
  {
  }

  /** The loop counter only moves by one, and only when the index (after this
      update's completion or miss) has reached the number of moves; then the
      index wraps to 0 below the loop limit, and `sequence_complete` fires at
      or above it. */
  lemma StepLoop(s: Session, dt: real, leftHand: Option<Point>, rightHand: Option<Point>)
    ensures var (t, e) := Step(s, dt, leftHand, rightHand);
      && (t.loopCount == s.loopCount || t.loopCount == s.loopCount + 1)
      && (s.sequence.Some? && !s.celebrating ==>
            (t.loopCount == s.loopCount + 1 <==>
               s.moveIndex + (if e.miss then 1 else 0) >= |s.sequence.value.moves|))
      && (t.loopCount == s.loopCount + 1 ==>
            && (e.sequenceComplete <==> t.loopCount >= MaxLoops)
            && (!e.sequenceComplete ==> t.moveIndex == 0))
      && (e.sequenceComplete ==> t.loopCount == s.loopCount + 1 && IsSequenceComplete(t))
  {
  }

  /** Finishing the celebration of the last move leaves the index at the number
      of moves without counting the loop: the wrap-around (or the
      `sequence_complete` event) only happens in the following update. */
  lemma LastMoveLoopCheckDeferred(s: Session, dt: real, leftHand: Option<Point>, rightHand: Option<Point>)
    requires s.sequence.Some? && s.celebrating
    requires s.moveIndex + 1 == |s.sequence.value.moves|
    requires s.celebrationTimer + dt >= CelebrationTime
    ensures var (t, e) := Step(s, dt, leftHand, rightHand);
      && e.complete && !e.sequenceComplete
      && t.moveIndex == |s.sequence.value.moves| && t.loopCount == s.loopCount
  {
  }

  /** Past the last move there are no targets, so both hands are vacuously
      done: once the minimum display time has passed an update reports `hit`
      and counts a completed move although no hand did anything. */
  lemma PhantomHitPastLastMove(s: Session, dt: real, leftHand: Option<Point>, rightHand: Option<Point>)
    requires s.sequence.Some? && !s.celebrating
    requires s.moveIndex >= |s.sequence.value.moves|
    requires s.moveTimer + dt >= MinDisplayTime
    ensures var (t, e) := Step(s, dt, leftHand, rightHand);
      && e.hit && !e.pop && t.movesCompleted == s.movesCompleted + 1
      && t.loopCount == s.loopCount + 1
      && (s.loopCount + 1 >= MaxLoops ==> e.sequenceComplete)
  {
  }

  /** Updates after the sequence is complete go on counting loops and report
      `sequence_complete` again; once the minimum display time has passed, the
      past-the-end move, which has no targets, is also scored as completed. */
  lemma CompleteSequenceKeepsCounting(s: Session, dt: real, leftHand: Option<Point>, rightHand: Option<Point>)
    requires s.sequence.Some? && !s.celebrating && IsSequenceComplete(s)
    requires s.moveIndex >= |s.sequence.value.moves|
    ensures var (t, e) := Step(s, dt, leftHand, rightHand);
      && e.sequenceComplete && t.loopCount == s.loopCount + 1 && t.moveIndex == s.moveIndex
      && (e.hit <==> s.moveTimer + dt >= MinDisplayTime)
      && (e.hit ==> t.movesCompleted == s.movesCompleted + 1 && t.celebrating)
  {
  }

  /** The cycle after completion: past the last move and once the minimum
      display time has passed, an update counts a loop and a phantom hit,
      which starts a celebration; the update after it counts no loop and
      reports neither `hit` nor `sequence_complete`, and if it ends the
      celebration the index steps one further past the moves. */
  lemma PhantomCelebrationAfterCompletion(s: Session, dt: real, dt2: real,
                                          leftHand: Option<Point>, rightHand: Option<Point>,
                                          leftHand2: Option<Point>, rightHand2: Option<Point>)
    requires s.sequence.Some? && !s.celebrating && IsSequenceComplete(s)
    requires s.moveIndex >= |s.sequence.value.moves|
    requires s.moveTimer + dt >= MinDisplayTime
    ensures var (t, e) := Step(s, dt, leftHand, rightHand);
      var (u, e2) := Step(t, dt2, leftHand2, rightHand2);
      && e.hit && e.sequenceComplete && t.celebrating && t.loopCount == s.loopCount + 1
      && u.loopCount == t.loopCount && !e2.hit && !e2.miss && !e2.sequenceComplete
      && (e2.complete <==> dt2 >= CelebrationTime)
      && (e2.complete ==> u.moveIndex == s.moveIndex + 1 && !u.celebrating && u.moveTimer == 0.0)
      && (!e2.complete ==> u.moveIndex == s.moveIndex && u.celebrating)
  {
    var (t, e) := Step(s, dt, leftHand, rightHand);
    CompleteSequenceKeepsCounting(s, dt, leftHand, rightHand);
    assert t.celebrationTimer == 0.0;
    StepWhileCelebrating(t, dt2, leftHand2, rightHand2);
  }

  /** The `sequence_complete` event is reported exactly when an update that
      judged a move leaves the session complete by counting one more loop. */
  lemma SequenceCompleteEvent(s: Session, dt: real, leftHand: Option<Point>, rightHand: Option<Point>)
    ensures var (t, e) := Step(s, dt, leftHand, rightHand);
      e.sequenceComplete <==>
        s.sequence.Some? && !s.celebrating && t.loopCount == s.loopCount + 1 && IsSequenceComplete(t)
  {
  }

  /** Once complete, a session stays complete whatever the updates. */
  lemma CompleteStaysComplete(s: Session, dt: real, leftHand: Option<Point>, rightHand: Option<Point>)
    requires IsSequenceComplete(s)
    ensures IsSequenceComplete(Step(s, dt, leftHand, rightHand).0)
  {
  }

  /** Starting a sequence during a celebration keeps the celebration: when it
      ends the manager advances past the new sequence's first move, which is
      never judged. */
  lemma StartDuringCelebrationSkipsFirstMove(s: Session, q: DanceSequence, dt: real,
                                             leftHand: Option<Point>, rightHand: Option<Point>)
    requires s.celebrating && s.celebrationTimer + dt >= CelebrationTime
    ensures var (t, e) := Step(StartSession(s, q), dt, leftHand, rightHand);
      && e.complete && t.moveIndex == 1 && t.movesCompleted == 0 && t.movesMissed == 0
  {
  }

  /** What every reachable session satisfies: the streak is bounded by the best
      streak and by the completed moves, a hit flag is only set for a target
      the current move defines, and until the loop limit is reached the index
      of a non-empty sequence never passes the number of moves (and is a real
      move while celebrating). */
  ghost predicate Inv(s: Session) {
    StreakInv(s) && FlagsInv(s) && IndexInv(s)
  }

  ghost predicate StreakInv(s: Session) {
    s.currentStreak <= s.bestStreak && s.currentStreak <= s.movesCompleted
  }

  ghost predicate FlagsInv(s: Session) {
    && (s.leftHandHit ==> CurrentMove(s).Some? && CurrentMove(s).value.leftHandTarget.Some?)
    && (s.rightHandHit ==> CurrentMove(s).Some? && CurrentMove(s).value.rightHandTarget.Some?)
  }

  ghost predicate IndexInv(s: Session) {
    s.sequence.Some? && |s.sequence.value.moves| > 0 && s.loopCount < MaxLoops ==>
      s.moveIndex <= |s.sequence.value.moves| &&
      (s.celebrating ==> s.moveIndex < |s.sequence.value.moves|)
  }

  lemma InitialSessionInv(screenWidth: int, screenHeight: int)
    ensures Inv(InitialSession(screenWidth, screenHeight))
  {
  }

  lemma StartSessionInv(s: Session, q: DanceSequence)
    requires Inv(s)
    ensures Inv(StartSession(s, q))
  {
  }

  /** The hit tests keep the streak and flag invariants and leave the
      streaks, the counters, the index, the loop count and the celebration
      state alone. */
  lemma HitTestsInv(s: Session, leftHand: Option<Point>, rightHand: Option<Point>)
    requires StreakInv(s) && FlagsInv(s)
    ensures var t := HitTests(s, leftHand, rightHand).0;
      && StreakInv(t) && FlagsInv(t)
      && t.sequence == s.sequence && t.moveIndex == s.moveIndex
      && t.loopCount == s.loopCount && t.celebrating == s.celebrating
      && t.currentStreak == s.currentStreak && t.bestStreak == s.bestStreak
      && t.movesCompleted == s.movesCompleted && t.movesMissed == s.movesMissed
  {
  }

  /** Judging keeps the streak and flag invariants and the loop count, and moves
      the index by at most one, and only past a real move (past the last move
      both hands are done, so the move completes or waits but never times out). */
  lemma JudgeInv(s: Session)
    requires StreakInv(s) && FlagsInv(s) && !s.celebrating
    ensures var t := Judge(s).0;
      && StreakInv(t) && FlagsInv(t)
      && t.sequence == s.sequence && t.loopCount == s.loopCount
      && (t.moveIndex == s.moveIndex || (t.moveIndex == s.moveIndex + 1 && CurrentMove(s).Some?))
      && (t.celebrating ==> t.moveIndex == s.moveIndex)
  {
    if CurrentMove(s).None? {
      assert TargetPositions(s).0.None? && TargetPositions(s).1.None?;
    }
  }

  /** The loop check restores the index invariant from an index that has at
      most reached the number of moves. */
  lemma LoopCheckInv(s: Session)
    requires StreakInv(s) && FlagsInv(s)
    requires s.sequence.Some? && |s.sequence.value.moves| > 0 && s.loopCount < MaxLoops ==>
      s.moveIndex <= |s.sequence.value.moves|
    ensures Inv(LoopCheck(s).0)
  {
  }

  /** The celebration wait keeps the invariant: it only leaves a real move. */
  lemma CelebrateInv(s: Session, dt: real)
    requires Inv(s) && s.celebrating
    ensures Inv(Celebrate(s, dt).0)
  {
  }

  /** Every update keeps the invariant. */
  lemma StepInv(s: Session, dt: real, leftHand: Option<Point>, rightHand: Option<Point>)
    requires Inv(s)
    ensures Inv(Step(s, dt, leftHand, rightHand).0)
  {
    if s.sequence.Some? {
      var timed := s.(moveTimer := s.moveTimer + dt);
      if s.celebrating {
        StepCelebrating(s, dt, leftHand, rightHand);
        CelebrateInv(timed, dt);
      } else {
        StepJudging(s, dt, leftHand, rightHand);
        JudgingInv(timed, leftHand, rightHand);
      }
    }
  }

  /** While celebrating, an update is the celebration wait. */
  lemma StepCelebrating(s: Session, dt: real, leftHand: Option<Point>, rightHand: Option<Point>)
    requires s.sequence.Some? && s.celebrating
    ensures Step(s, dt, leftHand, rightHand).0 == Celebrate(s.(moveTimer := s.moveTimer + dt), dt).0
  {
  }

  /** Otherwise an update is the hit tests, then judging, then the loop check. */
  lemma StepJudging(s: Session, dt: real, leftHand: Option<Point>, rightHand: Option<Point>)
    requires s.sequence.Some? && !s.celebrating
    ensures Step(s, dt, leftHand, rightHand).0 ==
      LoopCheck(Judge(HitTests(s.(moveTimer := s.moveTimer + dt), leftHand, rightHand).0).0).0
  {
    var tested := HitTests(s.(moveTimer := s.moveTimer + dt), leftHand, rightHand);
    var judged := Judge(tested.0);
    var looped := LoopCheck(judged.0);
    assert Step(s, dt, leftHand, rightHand) == (looped.0, Events(judged.1, judged.2, false, looped.1, tested.1));
  }

  /** Hit tests, judging and the loop check together keep the invariant. */
  lemma JudgingInv(s: Session, leftHand: Option<Point>, rightHand: Option<Point>)
    requires Inv(s) && !s.celebrating
    ensures Inv(LoopCheck(Judge(HitTests(s, leftHand, rightHand).0).0).0)
  {
    var tested := HitTests(s, leftHand, rightHand).0;
    HitTestsInv(s, leftHand, rightHand);
    JudgeInv(tested);
    LoopCheckInv(Judge(tested).0);
  }

  /** One tick of input: elapsed seconds and this tick's hand positions. */
  datatype Tick = Tick(dt: real, leftHand: Option<Point>, rightHand: Option<Point>)

  /** The session and the events after feeding `ticks` to update in order. */
  function Run(s: Session, ticks: seq<Tick>): (r: (Session, seq<Events>))
    ensures |r.1| == |ticks|
    decreases |ticks|
  {
    if ticks == [] then (s, [])
    else
      var first := Step(s, ticks[0].dt, ticks[0].leftHand, ticks[0].rightHand);
      var rest := Run(first.0, ticks[1..]);
      (rest.0, [first.1] + rest.1)
  }

  function CountHits(events: seq<Events>): nat {
    if events == [] then 0 else (if events[0].hit then 1 else 0) + CountHits(events[1..])
  }

  function CountMisses(events: seq<Events>): nat {
    if events == [] then 0 else (if events[0].miss then 1 else 0) + CountMisses(events[1..])
  }

  /** The invariant holds after any run from a session that satisfies it. */
  lemma {:induction false} RunInv(s: Session, ticks: seq<Tick>)
    requires Inv(s)
    ensures Inv(Run(s, ticks).0)
    decreases |ticks|
  {
    if ticks != [] {
      StepInv(s, ticks[0].dt, ticks[0].leftHand, ticks[0].rightHand);
      RunInv(Step(s, ticks[0].dt, ticks[0].leftHand, ticks[0].rightHand).0, ticks[1..]);
    }
  }

  /** The score tracker agrees with the events: completed and missed moves grow
      by exactly the number of `hit` and `miss` events, and the best streak and
      the score never decrease over a run. */
  lemma {:induction false} RunBookkeeping(s: Session, ticks: seq<Tick>)
    ensures var (t, events) := Run(s, ticks);
      && t.movesCompleted == s.movesCompleted + CountHits(events)
      && t.movesMissed == s.movesMissed + CountMisses(events)
      && t.bestStreak >= s.bestStreak
      && Score(t) >= Score(s)
    decreases |ticks|
  {
    if ticks != [] {
      var first := Step(s, ticks[0].dt, ticks[0].leftHand, ticks[0].rightHand);
      StepCounters(s, ticks[0].dt, ticks[0].leftHand, ticks[0].rightHand);
      RunBookkeeping(first.0, ticks[1..]);
      var rest := Run(first.0, ticks[1..]);
      var events := [first.1] + rest.1;
      assert Run(s, ticks) == (rest.0, events);
      assert events[1..] == rest.1;
      assert CountHits(events) == (if first.1.hit then 1 else 0) + CountHits(rest.1);
      assert CountMisses(events) == (if first.1.miss then 1 else 0) + CountMisses(rest.1);
    }
  }

  /** Every `miss` in a run leaves the streak at 0 right after it. */
  lemma {:induction false} MissResetsStreak(s: Session, ticks: seq<Tick>, k: nat)
    requires k < |ticks|
    requires Run(s, ticks).1[k].miss
    ensures Run(s, ticks[..k + 1]).0.currentStreak == 0
    decreases k
  {
    var first := Step(s, ticks[0].dt, ticks[0].leftHand, ticks[0].rightHand);
    if k == 0 {
      StepMiss(s, ticks[0].dt, ticks[0].leftHand, ticks[0].rightHand);
      assert ticks[..1][1..] == [];
    } else {
      assert ticks[..k + 1][1..] == ticks[1..][..k];
      MissResetsStreak(first.0, ticks[1..], k - 1);
    }
  }
}
