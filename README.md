# Dance targets and Christmas Popper, modelled in Dafny

This project models the game logic of two pose-driven party games.

**The choreography state machine** (`DanceTargetManager`, dance_targets.py):
- A dance is a sequence of moves. Each move has a target for the left hand, the right hand or both, given as fractions of the screen.
- Each tick, `update` first runs the move timer. If a celebration is on, it waits that out.
- Otherwise it hit-tests every tracked hand that has not yet reached its target. The test is inclusive: a hand exactly 80 pixels from its target still hits.
- It then judges the move:
  - completed, when every defined target is hit and the move has been shown for 3 seconds;
  - missed, once 5 seconds have passed.
- Finally it counts a loop whenever the index has run past the last move. After 2 loops it reports the sequence complete.
- The counters (completed, missed, streak, best streak) feed the score and the statistics.

**The popper round** (`ChristmasPopper`, game.py, without rendering, sound or camera):
- A round moves through the title, countdown, play and results states.
- Each spawn timer grows by the tick and spawns a target of its category when it reaches that category's rate.
- Every target then moves, bounces off the walls and ages, or fades once popped.
- Each live target is tested against every hand. The test is strict: the hand must be closer than 50 plus half the target's size. The first hand that touches it pops it and scores the category's points.

Module by module:

- `common.dfy` (`Common`): `Option`, points, squared distances and truncation toward zero. It also has the lemmas that connect a squared-distance test to a distance test without a square root.
- `dance_library.dfy` (`DanceLibrary`): `DanceMove`, `DanceSequence` and the five library dances.
- `dance_session.dfy` (`DanceSession`): the manager's state as a `Session` value.
  - `Step` is one call of `update`. It is written as its phases: `Celebrate`, `HitTests`, `Judge` and `LoopCheck`.
  - The getters are functions.
- `dance_properties.dfy` (`DanceProperties`):
  - what one update guarantees, one lemma per event flag;
  - a state invariant every update preserves;
  - bookkeeping over a run of updates;
  - the behaviours at the edges of a sequence.
- `dance_manager.dfy` (`DanceManager`): the class `DanceTargetManager` with the source's fields. Every method is proved to change them exactly as the session functions say.
- `popper_targets.dfy` (`PopperTargets`): categories and their tables, targets, spawning, the per-tick motion and ageing, the hand test, and scoring. Each is a function with its lemmas.
- `popper_game.dfy` (`PopperGame`): the class `ChristmasPopper`.
  - Its key handler and per-tick update change the fields in place.
  - Its loops are proved against the functions of `PopperTargets`.
  - It keeps the invariant `Valid`: the score is what the pop counts are worth, every target is sound, and each state keeps its timer positive.

Some source behaviour is modelled as written and stated as lemmas:

- **Loop check deferred:** finishing the celebration of the last move does not count the loop; the next update does (`LastMoveLoopCheckDeferred`).
- **Phantom hit:** past the last move there are no targets, so both hands count as done and an update reports `hit` without any hand moving (`PhantomHitPastLastMove`).
- **Counting goes on:** once the sequence is complete, each update that is not celebrating counts another loop and reports `sequence_complete` again (`CompleteSequenceKeepsCounting`). Once the minimum display time of 3 seconds has passed, such an update also counts a phantom completed move, which starts a 1-second celebration. The updates of that celebration count no loop and report neither `hit` nor `sequence_complete`. When it ends, the index steps one further past the moves, and the cycle starts again (`PhantomCelebrationAfterCompletion`).
- **Stale celebration:** `start_sequence` keeps the best streak, the hit times and the celebration state, so a start during a celebration skips the new first move (`StartDuringCelebrationSkipsFirstMove`).
- **One hand, many pops:** one hand pops every live target it touches in the same check (`OneHandPopsAllItTouches`).

About `list.remove`: the source removes a target by dataclass equality, which deletes the first element equal in value. The model removes the processed element itself. These agree. The elements before it have already been aged and kept, and one equal in every field would have been removed too.

## Model

| member | source | states |
|---|---|---|
| DanceLibrary.AllSequences | dance_targets.py:139-147 | the library holds five dances; each has at least one move, a difficulty in 1..3, and moves whose targets lie on the screen and track at least one hand |
| DanceSession.CurrentMove | dance_targets.py:208-212 | a move exactly when a sequence is loaded and the index is below its length, and then it is the move at the index |
| DanceSession.Scaled | dance_targets.py:222-233 | a fraction of a screen dimension truncated toward zero to whole pixels: the result is within one pixel of the product, below it for a non-negative product and above it for a negative one; a fraction in [0, 1] lands between 0 and the dimension |
| DanceSession.ToPixel | dance_targets.py:222-233 | a target on the screen in fractions lands on the screen in pixels |
| DanceSession.TargetPositions | dance_targets.py:214-235 | no targets without a current move; otherwise each hand's target scaled to pixels; for a well-formed move at least one target is present and all lie on the screen |
| DanceSession.CheckHandHit | dance_targets.py:237-246 | an absent hand or target never hits; otherwise a hit exactly when the Euclidean distance is at most the 80-pixel radius |
| DanceSession.Step | dance_targets.py:248-329 | an update never changes the loaded sequence or the screen size and never reports both `hit` and `miss` |
| DanceSession.TimeRemaining | dance_targets.py:342-344 | the seconds left before the timeout, never negative, and 0 once the timeout has passed |
| DanceSession.TimeProgress | dance_targets.py:346-348 | the fraction of the timeout used: exactly timer/timeout up to the timeout, exactly 1 from the timeout on, never above 1 and never negative for a non-negative timer |
| DanceSession.Score | dance_targets.py:350-354 | at least 100 per completed move and at least 50 per step of the best streak |
| DanceSession.Accuracy | dance_targets.py:358-359 | 0 before any judged move, otherwise the completed share of judged moves as a percentage, between 0 and 100 |
| DanceSession.Stats | dance_targets.py:356-369 | the statistics carry the score, the hit and missed counts, the accuracy of those counts (between 0 and 100, 0 before any move is judged), the current and best streaks and the dance name, empty without a sequence |
| DanceProperties.StepWithoutSequence | dance_targets.py:257-258 | without a sequence an update changes nothing and reports nothing |
| DanceProperties.StepWhileCelebrating | dance_targets.py:270-277 | while celebrating only the timers run; `complete` exactly when the celebration timer reaches 1 second, and then the next move starts fresh |
| DanceProperties.CompleteOnlyAfterCelebration | dance_targets.py:270-277 | `complete` is only reported while celebrating |
| DanceProperties.StepHit | dance_targets.py:295-306 | `hit` exactly when both hands are done and the move was shown 3 seconds; it counts the move, extends the streak, raises the best streak and starts the celebration |
| DanceProperties.StepMiss | dance_targets.py:312-318 | `miss` exactly when the move is not completed and the timer reached 5 seconds; it counts the miss, zeroes the streak and starts the next move fresh |
| DanceProperties.StepCounters | dance_targets.py:295-318 | counters move only with their event; best streak, completed, missed and score never decrease |
| DanceProperties.StepPop | dance_targets.py:280-293 | `pop` exactly when a hand reaches a target it had not hit in this move; the flag is set with the move timer as hit time and is only cleared on leaving the move |
| DanceProperties.StepLoop | dance_targets.py:315-327 | the loop count grows by at most one, exactly when the index reached the number of moves; then the index wraps to 0 below the limit, and `sequence_complete` fires at the limit |
| DanceProperties.LastMoveLoopCheckDeferred | dance_targets.py:270-277 | the celebration of the last move ends with the index at the number of moves and the loop not yet counted |
| DanceProperties.PhantomHitPastLastMove | dance_targets.py:295-306 | past the last move an update reports `hit` and counts a move with no hand tested |
| DanceProperties.CompleteSequenceKeepsCounting | dance_targets.py:315-327 | after completion, an update past the last move that is not celebrating counts another loop, keeps the index and reports `sequence_complete` again; it also reports `hit` and counts a completed move, starting a celebration, exactly when the minimum display time has passed |
| DanceProperties.PhantomCelebrationAfterCompletion | dance_targets.py:268-340 | after completion, a phantom hit from 3 s on counts a loop and starts a celebration; the next update counts no loop and reports no `hit` and no `sequence_complete`; ending the celebration moves the index one further past the moves |
| DanceProperties.SequenceCompleteEvent | dance_targets.py:315-327 | `sequence_complete` is reported exactly when an update that judged a move counts one more loop and leaves the session complete in the sense of `is_sequence_complete` |
| DanceProperties.CompleteStaysComplete | dance_targets.py:371-375 | a session that is complete (no sequence, or the loop count at the limit) stays complete after any update |
| DanceProperties.StartDuringCelebrationSkipsFirstMove | dance_targets.py:191-201 | a sequence started during a celebration is moved past its first move by the next update, which counts nothing |
| DanceProperties.InitialSessionInv | dance_targets.py:153-189 | a new manager satisfies the invariant |
| DanceProperties.StartSessionInv | dance_targets.py:191-201 | starting a sequence keeps the invariant |
| DanceProperties.HitTestsInv | dance_targets.py:280-293 | the hit tests only set flags of defined targets, keep the streak and flag invariants, and leave the current and best streaks, the completed and missed counts, the index, the loop count and the celebration alone |
| DanceProperties.JudgeInv | dance_targets.py:295-318 | judging keeps the streak and flag invariants and moves the index by at most one, only past a real move, and never while it starts a celebration |
| DanceProperties.LoopCheckInv | dance_targets.py:315-327 | the loop check restores the index invariant |
| DanceProperties.CelebrateInv | dance_targets.py:270-277 | the celebration wait keeps the invariant |
| DanceProperties.StepCelebrating | dance_targets.py:270-277 | while celebrating, an update is the timer tick followed by the celebration wait |
| DanceProperties.StepJudging | dance_targets.py:279-327 | otherwise an update is the timer tick, the hit tests, judging and the loop check, in that order |
| DanceProperties.JudgingInv | dance_targets.py:279-327 | hit tests, judging and the loop check together keep the invariant |
| DanceProperties.StepInv | dance_targets.py:248-329 | every update keeps the invariant: streak at most best streak and completed moves, flags only for defined targets, index within the sequence until the loop limit |
| DanceProperties.RunInv | dance_targets.py:248-329 | the invariant holds after any number of updates |
| DanceProperties.RunBookkeeping | dance_targets.py:295-318 | over any run, completed and missed moves grow by exactly the number of `hit` and `miss` events; best streak and score never drop |
| DanceProperties.MissResetsStreak | dance_targets.py:312-318 | right after any `miss` of a run the streak is 0 |
| DanceManager.DanceTargetManager.constructor | dance_targets.py:153-189 | a new manager holds no sequence and all counters, flags and timers at 0 |
| DanceManager.DanceTargetManager.StartSequence | dance_targets.py:191-201 | loads the sequence and resets index, timer, flags, counters and loops, keeping best streak, hit times and celebration |
| DanceManager.DanceTargetManager.StartRandomSequence | dance_targets.py:203-206 | starts the chosen library dance, which is well formed |
| DanceManager.DanceTargetManager.NextMove | dance_targets.py:331-340 | index up by one and the per-move state cleared, counters untouched |
| DanceManager.DanceTargetManager.TestHits | dance_targets.py:280-293 | the fields and `pop` are those of the hit-test phase |
| DanceManager.DanceTargetManager.JudgeMove | dance_targets.py:295-318 | the fields and `hit`/`miss` are those of the judging phase |
| DanceManager.DanceTargetManager.CheckSequenceEnd | dance_targets.py:315-327 | the fields and `sequence_complete` are those of the loop check |
| DanceManager.DanceTargetManager.Update | dance_targets.py:248-329 | the new fields and the events are exactly those of one `Step` |
| PopperTargets.SpawnOrderVisitsEachOnce | game.py:50-55 | the spawn loop visits every category exactly once |
| PopperTargets.PerCategory.Set | game.py:518 | updating one category's entry leaves the others unchanged |
| PopperTargets.Points | game.py:42-47 | 5, 50, 100 and -10 points; only the Grinch costs points |
| PopperTargets.SpawnRate | game.py:50-55 | every spawn interval is positive |
| PopperTargets.Lifetime | game.py:58-63 | every lifetime is positive |
| PopperTargets.Speed | game.py:66-71 | speeds are non-negative and only baubles stand still |
| PopperTargets.Size | game.py:446 | every target size is positive |
| PopperTargets.NewTarget | game.py:428-455 | a spawned target is live, of its category's lifetime and size, at the drawn integer position, still when its category has no speed and with the drawn velocity otherwise |
| PopperTargets.NewTargetSound | game.py:430-432 | a target spawned from a draw within the 80-pixel margins is sound, and its velocity's magnitude is its category's speed |
| PopperTargets.Bounce | game.py:470-476 | a coordinate inside the walls is kept; one outside has its velocity negated and is clamped to the wall it crossed (the 50-pixel margin, or the dimension less 50); the speed is kept |
| PopperTargets.Moved | game.py:466-479 | each axis of a moved target is the bounce of its position advanced by `dt` times its velocity; it ends inside the walls with the same speeds and velocity magnitude and `dt` less lifetime |
| PopperTargets.Aged | game.py:459-481 | a popped target is kept exactly while its fade timer stays within 0.3 s, a live one while lifetime remains; kept targets stay sound |
| PopperTargets.UpdatedTargets | game.py:457-481 | the update never adds targets |
| PopperTargets.UpdatedTargetsMembers | game.py:457-481 | the kept targets are exactly the aged targets that were not removed |
| PopperTargets.UpdatedTargetsSound | game.py:457-481 | the update keeps every target sound |
| PopperTargets.PlayerHands | game.py:490-494 | a player contributes exactly its present hands, at most two |
| PopperTargets.Hands | game.py:488-494 | at most two hands per player |
| PopperTargets.HandsMembers | game.py:488-494 | the gathered hands are exactly the present hands of the players |
| PopperTargets.HandsAppend | game.py:488-494 | hands are gathered player by player in order |
| PopperTargets.Touches | game.py:502-507 | a hand touches exactly when its Euclidean distance is strictly below 50 plus half the target's size |
| PopperTargets.Collided | game.py:498-509 | the check keeps every target's place and kind; a live target that some hand touches is popped with a fresh fade timer, every other target is unchanged |
| PopperTargets.CollidedSound | game.py:498-509 | the collision check keeps every target sound |
| PopperTargets.PopsOf | game.py:511-518 | one check pops at most as many targets as there are |
| PopperTargets.StatsScoreCount | game.py:514-518 | one more pop of a category adds that category's points to the worth of the counts |
| PopperTargets.PointsGainedByCategory | game.py:511-518 | the points of a check are the pops of each category times its points |
| PopperTargets.TalliedScore | game.py:511-518 | counting a check's pops raises the worth of the counts by exactly the points it awards |
| PopperTargets.CollidedOnce | game.py:498-500 | popped targets are skipped, so a second check with the same hands pops and awards nothing |
| PopperTargets.NoHandsNoPops | game.py:485-486 | without hands nothing is popped, counted or scored |
| PopperTargets.NoHandsNoPoints | game.py:485-486 | without hands no category is popped and no points are awarded |
| PopperTargets.OneHandPopsAllItTouches | game.py:498-509 | one hand pops every live target it touches in the same check |
| PopperTargets.Spawned | game.py:420-426 | the spawn loop adds at most one target per category visited |
| PopperTargets.SpawnedOncePerDueCategory | game.py:420-426 | exactly one target of each due category is spawned and none of any other |
| PopperTargets.SpawnedSound | game.py:428-455 | every spawned target is sound, live and has its category's lifetime |
| PopperTargets.TimersAfter | game.py:420-426 | a category's timer restarts at 0 when due and otherwise grows by `dt` |
| PopperGame.CountdownBeep | game.py:387-394 | a beep only while the timer drops and stays above -1; for a timer within 0..before it beeps exactly when it falls below the whole second it started in |
| PopperGame.HandsReach | game.py:502-509 | the hand loop finds a touching hand exactly when some hand touches the target |
| PopperGame.CollectHands | game.py:488-494 | the gathered list is the players' present hands in order |
| PopperGame.ChristmasPopper.constructor | game.py:107-118 | a new game is on the title screen with full timers, no score, no targets and zero timers and counts |
| PopperGame.ChristmasPopper.HandleKeydown | game.py:325-335 | Escape stops the game; Space starts the countdown from the title or results screen only; other keys change nothing |
| PopperGame.ChristmasPopper.StartCountdown | game.py:337-341 | the countdown starts at 3 seconds |
| PopperGame.ChristmasPopper.StartGame | game.py:343-351 | a round starts with 60 seconds, no score, targets or pops and zero spawn timers |
| PopperGame.ChristmasPopper.UpdateCountdown | game.py:387-397 | the countdown runs down by `dt`, beeps as `CountdownBeep` says, and starts the round exactly when it reaches 0 |
| PopperGame.ChristmasPopper.EndGame | game.py:565-569 | the results are shown and the high score becomes the larger of itself and the score |
| PopperGame.ChristmasPopper.SpawnTarget | game.py:428-455 | the new target is appended and the invariant kept |
| PopperGame.ChristmasPopper.UpdateSpawning | game.py:420-426 | the timers become `TimersAfter` and the targets of `Spawned` are appended in spawn order |
| PopperGame.ChristmasPopper.UpdateTargets | game.py:457-481 | the target list becomes `UpdatedTargets` of the old list |
| PopperGame.ChristmasPopper.PopTarget | game.py:511-518 | the target is popped with a fresh fade timer, its points are added and its category's count grows by one |
| PopperGame.ChristmasPopper.CheckCollisions | game.py:483-509 | the targets become `Collided`, the counts `Tallied` and the score grows by `PointsGained`; the score stays the worth of the counts |
| PopperGame.ChristmasPopper.UpdatePlaying | game.py:399-418 | the clock runs down; at 0 it is held at 0 and the round ends with nothing else changed; otherwise spawning, ageing and the collision check follow in that order |
| PopperGame.ChristmasPopper.Update | game.py:353-419 | title and results screens change nothing and do not beep; in the countdown the timer drops by `dt`, beeps on entering a lower whole second and starts a fresh round at 0; in play the clock runs down and the round ends at 0 with the high score absorbing the score, otherwise targets are spawned, aged and collided with the score and statistics counting the pops; the high score never goes down |

## Left out

- Rendering, sound, the camera and pose detection, and the main loop and event pump are left out. So are `_cleanup`, `main`, snowflakes and particles, and the dance avatar. None of them affects the state modelled here. A pop's particles and sound cue are not modelled. Of the sound cues, only the countdown's per-second beeps are reported (the `beep` result of `UpdateCountdown` and `Update`). The beep that `_start_countdown` plays when the countdown starts is not reported by `StartCountdown` or `HandleKeydown`.
- The dance manager's visual-effect timers (`target_pulse`, `success_flash`, `miss_flash`) are left out. They affect no event or counter.
- Floating-point numbers are exact reals. Rounding, NaN and infinities are not modelled. `int()` on a float is truncation toward zero.
- Square roots are not computed. Hit tests compare squared distances, and their contracts state the result against the true distance.
- Randomness is a parameter: `choice` for `random.choice` in `StartRandomSequence`, and `draw` for the spawn position and the velocity the random direction gives. The model has no trigonometry: a draw for a moving category is any velocity whose magnitude is the category's speed, which is exactly the set of velocities `speed * (cos a, sin a)` gives (`DrawInRange`).
- The players' hands, which the source reads from the pose detector's cache, are a parameter of the update.
- Full-screen mode, which reads the screen size from the display, is left out. The size is a constructor parameter.
- `random.randint` fails when the screen is less than 160 pixels wide or high. The model asks the draws to lie in range instead (`DrawInRange`, `DrawsFit`).
- PopperTargets.Moved: the target is proved inside the walls only for screens at least 100 pixels in each direction. On smaller screens the source's clamp is still modelled as written.
- DanceSession.Score: its ensures states only lower bounds. The exact formula is the function's body, and the bookkeeping lemmas show that it never decreases.
