/** The choreography state machine as values: a `Session` holds every field of
    the dance target manager, `Step` is one call of its per-tick update, and the
    query functions are its getters. */
module DanceSession {
  import opened Common
  import opened DanceLibrary

  /** Seconds a move may take before it counts as missed. */
  const MoveTimeout: real := 5.0
  /** Pixels between a hand and its target that still count as a hit. */
  const HitRadius: real := 80.0
  /** Seconds a move is shown before it may complete. */
  const MinDisplayTime: real := 3.0
  /** Seconds of celebration after a completed move. */
  const CelebrationTime: real := 1.0
  /** How many times the whole sequence is danced. */
  const MaxLoops: nat := 2

  /** A target in screen pixels. */
  datatype Pixel = Pixel(x: int, y: int)

  /** What one update reports to the renderer and the audio cues. */
  datatype Events = Events(hit: bool, miss: bool, complete: bool, sequenceComplete: bool, pop: bool)

  const NoEvents: Events := Events(false, false, false, false, false)

  datatype Session = Session(
    screenWidth: int,
    screenHeight: int,
    sequence: Option<DanceSequence>,
    moveIndex: nat,
    moveTimer: real,
    leftHandHit: bool,
    rightHandHit: bool,
    leftHitTime: real,
    rightHitTime: real,
    celebrating: bool,
    celebrationTimer: real,
    movesCompleted: nat,
    movesMissed: nat,
    currentStreak: nat,
    bestStreak: nat,
    loopCount: nat)

  /** The state of a freshly constructed manager: no sequence loaded. */
  function InitialSession(screenWidth: int, screenHeight: int): Session {
    Session(screenWidth, screenHeight, None, 0, 0.0, false, false, 0.0, 0.0,
            false, 0.0, 0, 0, 0, 0, 0)
  }

  /** Loading a sequence: resets the index, timer, hit flags, counters and loop
      count, but leaves the best streak, the hit times and the celebration state
      as they were. */
  function StartSession(s: Session, q: DanceSequence): Session {
    s.(sequence := Some(q), moveIndex := 0, moveTimer := 0.0,
       leftHandHit := false, rightHandHit := false,
       movesCompleted := 0, movesMissed := 0, currentStreak := 0, loopCount := 0)
  }

  /** The move being danced; None without a sequence or once the index has run
      past the last move. */
  function CurrentMove(s: Session): (r: Option<DanceMove>)
    ensures r.Some? <==> s.sequence.Some? && s.moveIndex < |s.sequence.value.moves|
    ensures r.Some? ==> r.value == s.sequence.value.moves[s.moveIndex]
  {
    if s.sequence.Some? && s.moveIndex < |s.sequence.value.moves| then
      Some(s.sequence.value.moves[s.moveIndex])
    else
      None
  }

  /** A fractional target scaled to the screen, each coordinate truncated
      toward zero; a target on the screen stays on the screen. */
  function ToPixel(f: Fraction, width: int, height: int): (p: Pixel)
    ensures 0.0 <= f.x <= 1.0 && 0 <= width ==> 0 <= p.x <= width
    ensures 0.0 <= f.y <= 1.0 && 0 <= height ==> 0 <= p.y <= height
  {
    Pixel(Scaled(f.x, width), Scaled(f.y, height))
  }

  /** A fraction of a screen dimension in whole pixels, truncated toward
      zero; a fraction in [0, 1] lands on the screen. */
  function Scaled(f: real, n: int): (c: int)
    ensures 0.0 <= f <= 1.0 && 0 <= n ==> 0 <= c <= n
    ensures 0.0 <= f * n as real ==> c as real <= f * n as real < c as real + 1.0
    ensures f * n as real < 0.0 ==> c as real - 1.0 < f * n as real <= c as real
  {
    ScaleWithin(f, n);
    Trunc(f * n as real)
  }

  lemma ScaleWithin(f: real, n: int)
    ensures 0.0 <= f <= 1.0 && 0 <= n ==> 0 <= Trunc(f * n as real) <= n
  {
    if 0.0 <= f <= 1.0 && 0 <= n {
      assert n as real - f * n as real == (1.0 - f) * n as real;
    }
  }

  function PixelOf(f: Option<Fraction>, width: int, height: int): Option<Pixel> {
    if f.Some? then Some(ToPixel(f.value, width, height)) else None
  }

  /** The left and right targets of the current move in screen pixels. */
  function TargetPositions(s: Session): (r: (Option<Pixel>, Option<Pixel>))
    ensures CurrentMove(s).None? ==> r.0.None? && r.1.None?
    ensures CurrentMove(s).Some? ==>
      r.0 == PixelOf(CurrentMove(s).value.leftHandTarget, s.screenWidth, s.screenHeight) &&
      r.1 == PixelOf(CurrentMove(s).value.rightHandTarget, s.screenWidth, s.screenHeight)
    ensures CurrentMove(s).Some? && WellFormedMove(CurrentMove(s).value) &&
            0 <= s.screenWidth && 0 <= s.screenHeight ==>
      (r.0.Some? || r.1.Some?) &&
      (r.0.Some? ==> 0 <= r.0.value.x <= s.screenWidth && 0 <= r.0.value.y <= s.screenHeight) &&
      (r.1.Some? ==> 0 <= r.1.value.x <= s.screenWidth && 0 <= r.1.value.y <= s.screenHeight)
  {
    match CurrentMove(s)
    case None => (None, None)
    case Some(move) =>
      (PixelOf(move.leftHandTarget, s.screenWidth, s.screenHeight),
       PixelOf(move.rightHandTarget, s.screenWidth, s.screenHeight))
  }

  function HandDistance2(hand: Point, target: Pixel): real {
    SquaredDistance(hand.x, hand.y, target.x as real, target.y as real)
  }

  /** Inclusive circular hit test; an absent hand or target never hits. */
  function CheckHandHit(hand: Option<Point>, target: Option<Pixel>): (r: bool)
    ensures hand.None? || target.None? ==> !r
    ensures hand.Some? && target.Some? ==>
      forall d :: IsRoot(d, HandDistance2(hand.value, target.value)) ==> (r <==> d <= HitRadius)
  {
    if hand.None? || target.None? then false
    else
      WithinRadius(HandDistance2(hand.value, target.value), HitRadius);
      HandDistance2(hand.value, target.value) <= HitRadius * HitRadius
  }

  /** The left hand reaches its target for the first time in this move. */
  predicate LeftFresh(s: Session, hand: Option<Point>) {
    !s.leftHandHit && CheckHandHit(hand, TargetPositions(s).0)
  }

  predicate RightFresh(s: Session, hand: Option<Point>) {
    !s.rightHandHit && CheckHandHit(hand, TargetPositions(s).1)
  }

  /** After this tick's hit tests, the left hand has nothing left to do. */
  predicate LeftDone(s: Session, hand: Option<Point>) {
    TargetPositions(s).0.None? || s.leftHandHit || LeftFresh(s, hand)
  }

  predicate RightDone(s: Session, hand: Option<Point>) {
    TargetPositions(s).1.None? || s.rightHandHit || RightFresh(s, hand)
  }

  /** The per-move state is fresh: timer, flags, hit times and celebration cleared. */
  predicate AtMoveStart(s: Session) {
    s.moveTimer == 0.0 && !s.leftHandHit && !s.rightHandHit &&
    s.leftHitTime == 0.0 && s.rightHitTime == 0.0 &&
    !s.celebrating && s.celebrationTimer == 0.0
  }

  /** Leaving a move: index up by one, per-move state cleared, counters untouched. */
  function NextMoveState(s: Session): Session {
    s.(moveIndex := s.moveIndex + 1, moveTimer := 0.0,
       leftHandHit := false, rightHandHit := false,
       leftHitTime := 0.0, rightHitTime := 0.0,
       celebrating := false, celebrationTimer := 0.0)
  }

  /** Scoring a completed move and starting its celebration. */
  function Completed(s: Session): Session {
    s.(movesCompleted := s.movesCompleted + 1,
       currentStreak := s.currentStreak + 1,
       bestStreak := Max(s.bestStreak, s.currentStreak + 1),
       celebrating := true, celebrationTimer := 0.0)
  }

  /** Scoring a timed-out move. */
  function Missed(s: Session): Session {
    s.(movesMissed := s.movesMissed + 1, currentStreak := 0)
  }

  /** The end-of-update check: once the index has reached the number of moves,
      one more loop is counted and the index wraps to 0 unless the loop limit
      is reached, in which case the sequence is reported complete. */
  function LoopCheck(s: Session): (Session, bool) {
    if s.sequence.Some? && s.moveIndex >= |s.sequence.value.moves| then
      if s.loopCount + 1 >= MaxLoops then (s.(loopCount := s.loopCount + 1), true)
      else (s.(loopCount := s.loopCount + 1, moveIndex := 0), false)
    else
      (s, false)
  }

  /** The celebration wait: its timer grows by `dt`, and once it reaches the
      celebration length the manager moves on (the flag is `complete`). */
  function Celebrate(s: Session, dt: real): (Session, bool) {
    var waited := s.(celebrationTimer := s.celebrationTimer + dt);
    if waited.celebrationTimer >= CelebrationTime then (NextMoveState(waited), true)
    else (waited, false)
  }

  /** The hit tests of one update: each hand whose target is defined and not yet
      hit is tested, and a successful test sets its flag and hit time (the flag
      is `pop`). */
  function HitTests(s: Session, leftHand: Option<Point>, rightHand: Option<Point>): (Session, bool) {
    var targets := TargetPositions(s);
    var leftPop := targets.0.Some? && !s.leftHandHit && CheckHandHit(leftHand, targets.0);
    var afterLeft := if leftPop then s.(leftHandHit := true, leftHitTime := s.moveTimer) else s;
    var rightPop := targets.1.Some? && !afterLeft.rightHandHit && CheckHandHit(rightHand, targets.1);
    var afterRight := if rightPop then afterLeft.(rightHandHit := true, rightHitTime := afterLeft.moveTimer) else afterLeft;
    (afterRight, leftPop || rightPop)
  }

  /** Judging the move after the hit tests: completed when every defined target
      is hit and the minimum display time has passed, otherwise missed once the
      timeout is reached (the flags are `hit` and `miss`). */
  function Judge(s: Session): (Session, bool, bool) {
    var targets := TargetPositions(s);
    var leftDone := targets.0.None? || s.leftHandHit;
    var rightDone := targets.1.None? || s.rightHandHit;
    var canAdvance := s.moveTimer >= MinDisplayTime;
    if leftDone && rightDone && canAdvance then (Completed(s), true, false)
    else if s.moveTimer >= MoveTimeout then (NextMoveState(Missed(s)), false, true)
    else (s, false, false)
  }

  /** One call of the manager's update with elapsed time `dt` and the hand
      positions of this tick. */
  function Step(s: Session, dt: real, leftHand: Option<Point>, rightHand: Option<Point>): (r: (Session, Events))
    ensures r.0.sequence == s.sequence
    ensures r.0.screenWidth == s.screenWidth && r.0.screenHeight == s.screenHeight
    ensures !(r.1.hit && r.1.miss)
  {
    if s.sequence.None? then (s, NoEvents)
    else
      var timed := s.(moveTimer := s.moveTimer + dt);
      if timed.celebrating then
        var waited := Celebrate(timed, dt);
        (waited.0, NoEvents.(complete := waited.1))
      else
        var tested := HitTests(timed, leftHand, rightHand);
        var judged := Judge(tested.0);
        var looped := LoopCheck(judged.0);
        (looped.0, Events(judged.1, judged.2, false, looped.1, tested.1))
  }

  /** Seconds left before the current move times out, never negative. */
  function TimeRemaining(s: Session): (r: real)
    ensures r >= 0.0
    ensures s.moveTimer <= MoveTimeout ==> r + s.moveTimer == MoveTimeout
    ensures s.moveTimer >= MoveTimeout ==> r == 0.0
  {
    if MoveTimeout - s.moveTimer > 0.0 then MoveTimeout - s.moveTimer else 0.0
  }

  /** Fraction of the timeout already used, capped at 1. */
  function TimeProgress(s: Session): (r: real)
    ensures r <= 1.0
    ensures 0.0 <= s.moveTimer ==> 0.0 <= r
    ensures s.moveTimer <= MoveTimeout ==> r * MoveTimeout == s.moveTimer
    ensures s.moveTimer >= MoveTimeout ==> r == 1.0
  {
    if 1.0 < s.moveTimer / MoveTimeout then 1.0 else s.moveTimer / MoveTimeout
  }

  /** 100 points per completed move plus 50 per step of the best streak. */
  function Score(s: Session): (r: nat)
    ensures r >= 100 * s.movesCompleted && r >= 50 * s.bestStreak
  {
    s.movesCompleted * 100 + s.bestStreak * 50
  }

  datatype DanceStats = DanceStats(
    score: nat,
    movesHit: nat,
    movesMissed: nat,
    accuracy: real,
    currentStreak: nat,
    bestStreak: nat,
    danceName: string)

  /** Completed moves as a percentage of all judged moves, 0 before any. */
  function Accuracy(completed: nat, missed: nat): (r: real)
    ensures completed + missed == 0 ==> r == 0.0
    ensures 0.0 <= r <= 100.0
    ensures completed + missed > 0 ==> r * (completed + missed) as real == 100.0 * completed as real
    ensures missed == 0 && completed > 0 ==> r == 100.0
    ensures completed == 0 ==> r == 0.0
  {
    var total := completed + missed;
    if total > 0 then
      var q := completed as real / total as real;
      assert q <= 1.0 by {
        assert q * total as real == completed as real;
      }
      q * 100.0
    else 0.0
  }

  function Stats(s: Session): (r: DanceStats)
    ensures r.score == Score(s)
    ensures r.movesHit == s.movesCompleted && r.movesMissed == s.movesMissed
    ensures r.accuracy == Accuracy(s.movesCompleted, s.movesMissed) && 0.0 <= r.accuracy <= 100.0
    ensures s.movesCompleted + s.movesMissed == 0 ==> r.accuracy == 0.0
    ensures r.currentStreak == s.currentStreak && r.bestStreak == s.bestStreak
    ensures r.danceName == (if s.sequence.Some? then s.sequence.value.name else "")
  {
    DanceStats(Score(s), s.movesCompleted, s.movesMissed,
               Accuracy(s.movesCompleted, s.movesMissed),
               s.currentStreak, s.bestStreak,
               if s.sequence.Some? then s.sequence.value.name else "")
  }

  /** True without a sequence, and once the loop counter reaches the limit. */
  predicate IsSequenceComplete(s: Session) {
    s.sequence.None? || s.loopCount >= MaxLoops
  }
}
