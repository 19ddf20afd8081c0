/** The dance target manager as an object whose fields the update changes in
    place; each mutating method is proved against the session functions. */
module DanceManager {
  import opened Common
  import opened DanceLibrary
  import opened DanceSession

  class DanceTargetManager {
    const screenWidth: int
    const screenHeight: int

    var currentSequence: Option<DanceSequence>
    var currentMoveIndex: nat
    var moveTimer: real

    var leftHandHit: bool
    var rightHandHit: bool
    var leftHitTime: real
    var rightHitTime: real

    var celebrating: bool
    var celebrationTimer: real

    var movesCompleted: nat
    var movesMissed: nat
    var currentStreak: nat
    var bestStreak: nat

    var loopCount: nat

    /** The manager's fields as a session value. */
    function State(): Session
      reads this
    {
      Session(screenWidth, screenHeight, currentSequence, currentMoveIndex, moveTimer,
              leftHandHit, rightHandHit, leftHitTime, rightHitTime,
              celebrating, celebrationTimer,
              movesCompleted, movesMissed, currentStreak, bestStreak, loopCount)
    }

    constructor (screenWidth: int, screenHeight: int)
      ensures State() == InitialSession(screenWidth, screenHeight)
    {
      this.screenWidth := screenWidth;
      this.screenHeight := screenHeight;
      currentSequence := None;
      currentMoveIndex := 0;
      moveTimer := 0.0;
      leftHandHit := false;
      rightHandHit := false;
      leftHitTime := 0.0;
      rightHitTime := 0.0;
      celebrating := false;
      celebrationTimer := 0.0;
      movesCompleted := 0;
      movesMissed := 0;
      currentStreak := 0;
      bestStreak := 0;
      loopCount := 0;
    }

    method StartSequence(sequence: DanceSequence)
      modifies this`currentSequence, this`currentMoveIndex, this`moveTimer
      modifies this`leftHandHit, this`rightHandHit
      modifies this`movesCompleted, this`movesMissed, this`currentStreak, this`loopCount
      ensures State() == StartSession(old(State()), sequence)
      ensures bestStreak == old(bestStreak) && celebrating == old(celebrating)
      ensures celebrationTimer == old(celebrationTimer)
    {
      currentSequence := Some(sequence);
      currentMoveIndex := 0;
      moveTimer := 0.0;
      leftHandHit := false;
      rightHandHit := false;
      movesCompleted := 0;
      movesMissed := 0;
      currentStreak := 0;
      loopCount := 0;
    }

    /** Starting one of the library dances; `choice` is the random pick. */
    method StartRandomSequence(choice: nat)
      requires choice < |AllSequences()|
      modifies this`currentSequence, this`currentMoveIndex, this`moveTimer
      modifies this`leftHandHit, this`rightHandHit
      modifies this`movesCompleted, this`movesMissed, this`currentStreak, this`loopCount
      ensures State() == StartSession(old(State()), AllSequences()[choice])
      ensures WellFormedSequence(currentSequence.value)
    {
      StartSequence(AllSequences()[choice]);
    }

    method NextMove()
      modifies this`currentMoveIndex, this`moveTimer, this`leftHandHit, this`rightHandHit
      modifies this`leftHitTime, this`rightHitTime, this`celebrating, this`celebrationTimer
      ensures State() == NextMoveState(old(State()))
    {
      currentMoveIndex := currentMoveIndex + 1;
      moveTimer := 0.0;
      leftHandHit := false;
      rightHandHit := false;
      leftHitTime := 0.0;
      rightHitTime := 0.0;
      celebrating := false;
      celebrationTimer := 0.0;
    }

    /** The hit tests of one update (the flag returned is `pop`). */
    method TestHits(leftHand: Option<Point>, rightHand: Option<Point>) returns (pop: bool)
      modifies this`leftHandHit, this`leftHitTime, this`rightHandHit, this`rightHitTime
      ensures (State(), pop) == HitTests(old(State()), leftHand, rightHand)
    {
      pop := false;
      var targets := TargetPositions(State());
      var leftTarget, rightTarget := targets.0, targets.1;

      if leftTarget.Some? && !leftHandHit {
        if CheckHandHit(leftHand, leftTarget) {
          leftHandHit := true;
          leftHitTime := moveTimer;
          pop := true;
        }
      }

      if rightTarget.Some? && !rightHandHit {
        if CheckHandHit(rightHand, rightTarget) {
          rightHandHit := true;
          rightHitTime := moveTimer;
          pop := true;
        }
      }
    }

    /** Completing or timing out the current move (the flags returned are
        `hit` and `miss`). */
    method JudgeMove() returns (hit: bool, miss: bool)
      modifies this`movesCompleted, this`movesMissed, this`currentStreak, this`bestStreak
      modifies this`currentMoveIndex, this`moveTimer, this`leftHandHit, this`rightHandHit
      modifies this`leftHitTime, this`rightHitTime, this`celebrating, this`celebrationTimer
      ensures (State(), hit, miss) == Judge(old(State()))
    {
      var targets := TargetPositions(State());
      var leftDone := targets.0.None? || leftHandHit;
      var rightDone := targets.1.None? || rightHandHit;
      var canAdvance := moveTimer >= MinDisplayTime;

      hit, miss := false, false;
      if leftDone && rightDone && canAdvance {
        hit := true;
        movesCompleted := movesCompleted + 1;
        currentStreak := currentStreak + 1;
        bestStreak := Max(bestStreak, currentStreak);
        celebrating := true;
        celebrationTimer := 0.0;
      } else if moveTimer >= MoveTimeout {
        miss := true;
        movesMissed := movesMissed + 1;
        currentStreak := 0;
        NextMove();
      }
    }

    /** The end-of-sequence check (the flag returned is `sequence_complete`). */
    method CheckSequenceEnd() returns (sequenceComplete: bool)
      modifies this`loopCount, this`currentMoveIndex
      ensures (State(), sequenceComplete) == LoopCheck(old(State()))
    {
      sequenceComplete := false;
      if currentSequence.Some? && currentMoveIndex >= |currentSequence.value.moves| {
        loopCount := loopCount + 1;
        if loopCount >= MaxLoops {
          sequenceComplete := true;
        } else {
          currentMoveIndex := 0;
        }
      }
    }

    method Update(dt: real, leftHand: Option<Point>, rightHand: Option<Point>) returns (events: Events)
      modifies this`currentMoveIndex, this`moveTimer, this`leftHandHit, this`rightHandHit
      modifies this`leftHitTime, this`rightHitTime, this`celebrating, this`celebrationTimer
      modifies this`movesCompleted, this`movesMissed, this`currentStreak, this`bestStreak, this`loopCount
      ensures (State(), events) == Step(old(State()), dt, leftHand, rightHand)
    {
      events := NoEvents;
      if currentSequence.None? {
        return;
      }

      moveTimer := moveTimer + dt;

      if celebrating {
        celebrationTimer := celebrationTimer + dt;
        if celebrationTimer >= CelebrationTime {
          NextMove();
          events := events.(complete := true);
        }
        return;
      }

      var pop := TestHits(leftHand, rightHand);
      var hit, miss := JudgeMove();
      var sequenceComplete := CheckSequenceEnd();
      events := Events(hit, miss, false, sequenceComplete, pop);
    }
  }
}
