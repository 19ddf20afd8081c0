/** The popper round as an object whose fields the key handler and the
    per-tick update change in place: the round state machine, the countdown,
    the game clock, the spawn timers, the target list, the score and the pop
    counts. Each method states its new state in terms of the target functions. */
module PopperGame {
  import opened Common
  import opened PopperTargets

  datatype GameState = Title | Countdown | Playing | Results

  /** The keys the handler tells apart. */
  datatype Key = Escape | Space | OtherKey

  /** Seconds of countdown before a round. */
  const CountdownSeconds: real := 3.0
  /** Seconds in a round. */
  const RoundSeconds: real := 60.0

  /** The countdown beeps when the timer, still at or above 0 in whole
      seconds, drops into a lower whole second. */
  function CountdownBeep(before: real, after: real): (r: bool)
    ensures r ==> after < before && -1.0 < after
    ensures r ==> Trunc(after) != Trunc(before)
    ensures 0.0 <= after <= before ==> (r <==> after < before.Floor as real)
  {
    Trunc(after) < Trunc(before) && Trunc(after) >= 0
  }

  /** The random draws fit the screen for every category due to spawn. */
  predicate DrawsFit(timers: Timers, dt: real, draw: Category -> SpawnDraw, width: int, height: int) {
    forall c: Category :: Due(timers, dt, c) ==> DrawInRange(c, draw(c), width, height)
  }

  /** The inner loop of the collision check: the hands are tried in order and
      the first one that touches the target ends the search. */
  method HandsReach(hands: seq<Point>, t: Target) returns (hit: bool)
    ensures hit == Reached(hands, t)
  {
    hit := false;
    var k := 0;
    while k < |hands|
      invariant 0 <= k <= |hands|
      invariant forall j :: 0 <= j < k ==> !Touches(hands[j], t)
    {
      if Touches(hands[k], t) {
        hit := true;
        break;
      }
      k := k + 1;
    }
  }

  lemma UpdatedTargetsSnoc(ts: seq<Target>, i: nat, dt: real, width: int, height: int)
    requires i < |ts|
    ensures UpdatedTargets(ts[..i + 1], dt, width, height) ==
      UpdatedTargets(ts[..i], dt, width, height) +
      (if Aged(ts[i], dt, width, height).Some? then [Aged(ts[i], dt, width, height).value] else [])
  {
    assert ts[..i + 1][..i] == ts[..i];
  }

  /** One step of the update loop: the target at `j` is the next one of the
      snapshot; replacing it by its aged self extends the updated prefix by
      that target ... */
  lemma UpdateTargetsKeep(snapshot: seq<Target>, i: nat, current: seq<Target>, j: nat,
                          dt: real, width: int, height: int)
    requires i < |snapshot|
    requires current == UpdatedTargets(snapshot[..i], dt, width, height) + snapshot[i..]
    requires j == |UpdatedTargets(snapshot[..i], dt, width, height)|
    requires Aged(snapshot[i], dt, width, height).Some?
    ensures j < |current| && current[j] == snapshot[i]
    ensures current[j := Aged(snapshot[i], dt, width, height).value] ==
      UpdatedTargets(snapshot[..i + 1], dt, width, height) + snapshot[i + 1..]
    ensures j + 1 == |UpdatedTargets(snapshot[..i + 1], dt, width, height)|
  {
    var done := UpdatedTargets(snapshot[..i], dt, width, height);
    assert snapshot[i..] == [snapshot[i]] + snapshot[i + 1..];
    UpdatedTargetsSnoc(snapshot, i, dt, width, height);
    assert current[j := Aged(snapshot[i], dt, width, height).value] ==
      done + [Aged(snapshot[i], dt, width, height).value] + snapshot[i + 1..];
  }

  /** ... and removing it leaves the updated prefix as it was. */
  lemma UpdateTargetsDrop(snapshot: seq<Target>, i: nat, current: seq<Target>, j: nat,
                          dt: real, width: int, height: int)
    requires i < |snapshot|
    requires current == UpdatedTargets(snapshot[..i], dt, width, height) + snapshot[i..]
    requires j == |UpdatedTargets(snapshot[..i], dt, width, height)|
    requires Aged(snapshot[i], dt, width, height).None?
    ensures j < |current| && current[j] == snapshot[i]
    ensures current[..j] + current[j + 1..] ==
      UpdatedTargets(snapshot[..i + 1], dt, width, height) + snapshot[i + 1..]
    ensures j == |UpdatedTargets(snapshot[..i + 1], dt, width, height)|
  {
    var done := UpdatedTargets(snapshot[..i], dt, width, height);
    assert snapshot[i..] == [snapshot[i]] + snapshot[i + 1..];
    UpdatedTargetsSnoc(snapshot, i, dt, width, height);
    assert current[..j] == done;
    assert current[j + 1..] == snapshot[i + 1..];
  }

  /** One step of the collision loop: the points and the pop counts of the
      first `i + 1` targets are those of the first `i` plus those of target `i`. */
  lemma CollisionStep(ts: seq<Target>, i: nat, hands: seq<Point>, stats: Stats)
    requires i < |ts|
    ensures PointsGained(ts[..i + 1], hands) ==
      PointsGained(ts[..i], hands) + (if NewlyHit(ts[i], hands) then Points(ts[i].kind) else 0)
    ensures Tallied(stats, ts[..i + 1], hands) ==
      if NewlyHit(ts[i], hands) then
        Tallied(stats, ts[..i], hands).Set(ts[i].kind, Tallied(stats, ts[..i], hands).Get(ts[i].kind) + 1)
      else Tallied(stats, ts[..i], hands)
  {
    assert ts[..i + 1][..i] == ts[..i];
  }

  /** The spawn timers once the loop has visited the first `i` categories:
      those are restarted or grown, the others are untouched. */
  ghost predicate TimersVisited(start: Timers, timers: Timers, dt: real, i: nat) {
    && (forall k :: 0 <= k < i && k < |SpawnOrder| ==>
         timers.Get(SpawnOrder[k]) == TimerAfter(start, dt, SpawnOrder[k]))
    && (forall k :: i <= k < |SpawnOrder| ==> timers.Get(SpawnOrder[k]) == start.Get(SpawnOrder[k]))
  }

  /** One visit of the spawn loop: the category's timer grows by `dt` and is
      restarted at 0 if that reaches the rate, exactly when it was due. */
  lemma TimersVisitedStep(start: Timers, before: Timers, after: Timers, dt: real, i: nat)
    requires i < |SpawnOrder|
    requires TimersVisited(start, before, dt, i)
    requires var c := SpawnOrder[i];
      after == (if before.Get(c) + dt >= SpawnRate(c) then before.Set(c, before.Get(c) + dt).Set(c, 0.0)
                else before.Set(c, before.Get(c) + dt))
    ensures before.Get(SpawnOrder[i]) + dt >= SpawnRate(SpawnOrder[i]) <==> Due(start, dt, SpawnOrder[i])
    ensures TimersVisited(start, after, dt, i + 1)
  {
    SpawnOrderVisitsEachOnce();
  }

  /** After the last visit every timer is as the spawn loop leaves it. */
  lemma TimersVisitedAll(start: Timers, timers: Timers, dt: real)
    requires TimersVisited(start, timers, dt, |SpawnOrder|)
    ensures timers == TimersAfter(start, dt)
  {
    assert timers.Get(SpawnOrder[0]) == TimerAfter(start, dt, Bauble);
    assert timers.Get(SpawnOrder[1]) == TimerAfter(start, dt, Elf);
    assert timers.Get(SpawnOrder[2]) == TimerAfter(start, dt, Santa);
    assert timers.Get(SpawnOrder[3]) == TimerAfter(start, dt, Grinch);
  }

  /** Gathering every present hand of every player. */
  method CollectHands(players: seq<Player>) returns (hands: seq<Point>)
    ensures hands == Hands(players)
  {
    hands := [];
    var i := 0;
    while i < |players|
      invariant 0 <= i <= |players|
      invariant hands == Hands(players[..i])
    {
      var player := players[i];
      ghost var before := hands;
      if player.leftHand.Some? {
        hands := hands + [player.leftHand.value];
      }
      if player.rightHand.Some? {
        hands := hands + [player.rightHand.value];
      }
      assert hands == before + PlayerHands(player);
      HandsSnoc(players, i);
      i := i + 1;
    }
    assert players[..i] == players;
  }

  lemma HandsSnoc(players: seq<Player>, i: nat)
    requires i < |players|
    ensures Hands(players[..i + 1]) == Hands(players[..i]) + PlayerHands(players[i])
  {
    assert players[..i + 1] == players[..i] + [players[i]];
    HandsAppend(players[..i], [players[i]]);
    assert [players[i]][1..] == [];
  }

  class ChristmasPopper {
    const width: int
    const height: int

    var state: GameState
    var countdownTimer: real
    var gameTimer: real
    var score: int
    var highScore: int

    var targets: seq<Target>
    var spawnTimers: Timers
    var stats: Stats

    /** The score is always what the pop counts are worth, every target is
        sound, the high score is never negative, and each state keeps its
        timer positive; nothing has been spawned or scored before the first
        round, and the results show a score the high score has absorbed. */
    ghost predicate Valid()
      reads this
    {
      && Settled()
      && (state == Title ==> targets == [] && score == 0)
      && (state == Countdown ==> countdownTimer > 0.0)
      && (state == Playing ==> gameTimer > 0.0)
      && (state == Results ==> highScore >= score)
    }

    /** The part of `Valid` that does not depend on the state. */
    ghost predicate Settled()
      reads this
    {
      && score == StatsScore(stats)
      && (forall i :: 0 <= i < |targets| ==> Sound(targets[i], width, height))
      && highScore >= 0
    }

    constructor (width: int, height: int)
      ensures Valid()
      ensures this.width == width && this.height == height
      ensures state == Title && countdownTimer == CountdownSeconds && gameTimer == RoundSeconds
      ensures score == 0 && highScore == 0 && targets == []
      ensures spawnTimers == ZeroTimers && stats == ZeroStats
    {
      this.width := width;
      this.height := height;
      state := Title;
      countdownTimer := CountdownSeconds;
      gameTimer := RoundSeconds;
      score := 0;
      highScore := 0;
      targets := [];
      spawnTimers := ZeroTimers;
      stats := ZeroStats;
    }

    /** Escape asks to quit; Space starts the countdown from the title or the
        results screen and is ignored otherwise; any other key is ignored. */
    method HandleKeydown(key: Key) returns (keepRunning: bool)
      requires Valid()
      modifies this`state, this`countdownTimer
      ensures Valid()
      ensures keepRunning <==> key != Escape
      ensures key == Space && old(state) in {Title, Results} ==>
        state == Countdown && countdownTimer == CountdownSeconds
      ensures !(key == Space && old(state) in {Title, Results}) ==>
        state == old(state) && countdownTimer == old(countdownTimer)
    {
      if key == Escape {
        return false;
      } else if key == Space {
        if state == Title {
          StartCountdown();
        } else if state == Results {
          StartCountdown();
        }
      }
      return true;
    }

    method StartCountdown()
      requires Valid()
      modifies this`state, this`countdownTimer
      ensures Valid()
      ensures state == Countdown && countdownTimer == CountdownSeconds
    {
      state := Countdown;
      countdownTimer := CountdownSeconds;
    }

    /** A new round: a full clock, no targets, no score, no pops and fresh
        spawn timers; the high score is kept. */
    method StartGame()
      requires highScore >= 0
      modifies this`state, this`gameTimer, this`score, this`targets, this`stats, this`spawnTimers
      ensures Valid()
      ensures state == Playing && gameTimer == RoundSeconds
      ensures score == 0 && targets == [] && stats == ZeroStats && spawnTimers == ZeroTimers
    {
      state := Playing;
      gameTimer := RoundSeconds;
      score := 0;
      targets := [];
      stats := ZeroStats;
      spawnTimers := ZeroTimers;
    }

    /** The countdown runs down by `dt`, beeps when it drops into a lower
        whole second, and starts the round once it reaches 0. */
    method UpdateCountdown(dt: real) returns (beep: bool)
      requires Valid()
      modifies this`countdownTimer
      modifies this`state, this`gameTimer, this`score, this`targets, this`stats, this`spawnTimers
      ensures Valid()
      ensures beep == CountdownBeep(old(countdownTimer), old(countdownTimer) - dt)
      ensures countdownTimer == old(countdownTimer) - dt
      ensures countdownTimer <= 0.0 ==>
        && state == Playing && gameTimer == RoundSeconds
        && score == 0 && targets == [] && stats == ZeroStats && spawnTimers == ZeroTimers
      ensures countdownTimer > 0.0 ==>
        && state == old(state) && gameTimer == old(gameTimer) && score == old(score)
        && targets == old(targets) && stats == old(stats) && spawnTimers == old(spawnTimers)
    {
      var previousSecond := Trunc(countdownTimer);
      countdownTimer := countdownTimer - dt;
      var newSecond := Trunc(countdownTimer);
      beep := newSecond < previousSecond && newSecond >= 0;
      if countdownTimer <= 0.0 {
        StartGame();
      }
    }

    /** The end of a round: the results are shown and the high score absorbs
        the score. */
    method EndGame()
      requires Settled()
      modifies this`state, this`highScore
      ensures Valid()
      ensures state == Results && highScore == Max(old(highScore), score)
    {
      state := Results;
      if score > highScore {
        highScore := score;
      }
    }

    /** Appending a freshly spawned target. */
    method SpawnTarget(c: Category, d: SpawnDraw)
      requires Valid()
      requires DrawInRange(c, d, width, height)
      requires state != Title
      modifies this`targets
      ensures Valid()
      ensures targets == old(targets) + [NewTarget(c, d)]
    {
      NewTargetSound(c, d, width, height);
      targets := targets + [NewTarget(c, d)];
    }

    /** Each category's timer grows by `dt`; a timer that reaches its rate
        restarts at 0 and spawns one target of its category. */
    method UpdateSpawning(dt: real, draw: Category -> SpawnDraw)
      requires Valid()
      requires DrawsFit(spawnTimers, dt, draw, width, height)
      requires state != Title
      modifies this`targets, this`spawnTimers
      ensures Valid()
      ensures spawnTimers == TimersAfter(old(spawnTimers), dt)
      ensures targets == old(targets) + Spawned(SpawnOrder, old(spawnTimers), dt, draw)
    {
      var start := spawnTimers;
      var timers := start;
      var i := 0;
      while i < |SpawnOrder|
        invariant 0 <= i <= |SpawnOrder|
        invariant Valid()
        invariant TimersVisited(start, timers, dt, i)
        invariant targets == old(targets) + Spawned(SpawnOrder[..i], start, dt, draw)
      {
        var category := SpawnOrder[i];
        ghost var before := timers;
        timers := timers.Set(category, timers.Get(category) + dt);
        assert SpawnOrder[..i + 1][..i] == SpawnOrder[..i];
        if timers.Get(category) >= SpawnRate(category) {
          timers := timers.Set(category, 0.0);
          SpawnTarget(category, draw(category));
        }
        TimersVisitedStep(start, before, timers, dt, i);
        i := i + 1;
      }
      assert SpawnOrder[..i] == SpawnOrder;
      TimersVisitedAll(start, timers, dt);
      spawnTimers := timers;
    }

    /** Every target ages by one update, in list order: a popped one advances
        its fade timer and is removed once that passes the fade time; a live
        one moves, bounces off the walls, and is removed once its lifetime
        runs out. */
    method UpdateTargets(dt: real)
      requires Valid()
      modifies this`targets
      ensures Valid()
      ensures targets == UpdatedTargets(old(targets), dt, width, height)
    {
      var snapshot, current := targets, targets;
      UpdatedTargetsSound(snapshot, dt, width, height);
      var i, j := 0, 0;
      while i < |snapshot|
        invariant 0 <= i <= |snapshot|
        invariant current == UpdatedTargets(snapshot[..i], dt, width, height) + snapshot[i..]
        invariant j == |UpdatedTargets(snapshot[..i], dt, width, height)|
      {
        if Aged(snapshot[i], dt, width, height).Some? {
          UpdateTargetsKeep(snapshot, i, current, j, dt, width, height);
          current := current[j := Aged(current[j], dt, width, height).value];
          j := j + 1;
        } else {
          UpdateTargetsDrop(snapshot, i, current, j, dt, width, height);
          current := current[..j] + current[j + 1..];
        }
        i := i + 1;
      }
      assert snapshot[..i] == snapshot;
      targets := current;
    }

    /** Popping one target: it is marked popped with a fresh fade timer, its
        category's points are added to the score and its pop count grows by one. */
    method PopTarget(i: nat)
      requires Valid()
      requires i < |targets|
      requires state == Playing
      modifies this`targets, this`score, this`stats
      ensures Valid()
      ensures targets == old(targets)[i := PoppedTarget(old(targets)[i])]
      ensures score == old(score) + Points(old(targets)[i].kind)
      ensures stats == old(stats).Set(old(targets)[i].kind, old(stats).Get(old(targets)[i].kind) + 1)
    {
      var target := targets[i];
      targets := targets[i := PoppedTarget(target)];
      StatsScoreCount(stats, target.kind);
      score := score + Points(target.kind);
      stats := stats.Set(target.kind, stats.Get(target.kind) + 1);
    }

    /** Every live target is tested against the hands in list order and
        popped by the first hand that touches it; popped targets are skipped.
        Without players nothing happens. */
    method CheckCollisions(players: seq<Player>)
      requires Valid()
      requires state == Playing
      modifies this`targets, this`score, this`stats
      ensures Valid()
      ensures targets == Collided(old(targets), Hands(players))
      ensures stats == Tallied(old(stats), old(targets), Hands(players))
      ensures score == old(score) + PointsGained(old(targets), Hands(players))
    {
      if players == [] {
        NoHandsNoPops(targets, stats);
        return;
      }
      var hands := CollectHands(players);
      ghost var snapshot, stats0, score0 := targets, stats, score;
      var i := 0;
      while i < |targets|
        invariant 0 <= i <= |targets| == |snapshot|
        invariant Valid()
        invariant forall k :: 0 <= k < i ==> targets[k] == AfterCollision(snapshot[k], hands)
        invariant forall k :: i <= k < |targets| ==> targets[k] == snapshot[k]
        invariant stats == Tallied(stats0, snapshot[..i], hands)
        invariant score == score0 + PointsGained(snapshot[..i], hands)
      {
        CollisionStep(snapshot, i, hands, stats0);
        if !targets[i].popped {
          var hit := HandsReach(hands, targets[i]);
          if hit {
            PopTarget(i);
          }
        }
        assert targets[i] == AfterCollision(snapshot[i], hands);
        i := i + 1;
      }
      assert snapshot[..i] == snapshot;
      assert targets == Collided(snapshot, hands);
    }

    /** One tick of play: the clock runs down and, once it reaches 0, is held
        at 0 and the round ends with nothing else done; otherwise targets
        spawn, age and are checked against the hands, in that order. */
    method UpdatePlaying(dt: real, players: seq<Player>, draw: Category -> SpawnDraw)
      requires Valid()
      requires state == Playing
      requires gameTimer - dt > 0.0 ==> DrawsFit(spawnTimers, dt, draw, width, height)
      modifies this`gameTimer, this`state, this`highScore
      modifies this`targets, this`spawnTimers, this`score, this`stats
      ensures Valid()
      ensures old(gameTimer) - dt <= 0.0 ==>
        && state == Results && gameTimer == 0.0 && highScore == Max(old(highScore), old(score))
        && targets == old(targets) && score == old(score) && stats == old(stats)
        && spawnTimers == old(spawnTimers)
      ensures old(gameTimer) - dt > 0.0 ==>
        var aged := UpdatedTargets(old(targets) + Spawned(SpawnOrder, old(spawnTimers), dt, draw),
                                   dt, width, height);
        && state == Playing && gameTimer == old(gameTimer) - dt && highScore == old(highScore)
        && spawnTimers == TimersAfter(old(spawnTimers), dt)
        && targets == Collided(aged, Hands(players))
        && stats == Tallied(old(stats), aged, Hands(players))
        && score == old(score) + PointsGained(aged, Hands(players))
    {
      gameTimer := gameTimer - dt;
      if gameTimer <= 0.0 {
        gameTimer := 0.0;
        EndGame();
        return;
      }
      UpdateSpawning(dt, draw);
      UpdateTargets(dt);
      CheckCollisions(players);
    }

    /** One tick of the game: the countdown runs in the countdown, play in a
        round, and nothing changes on the title or results screen. The high
        score never goes down. */
    method Update(dt: real, players: seq<Player>, draw: Category -> SpawnDraw) returns (beep: bool)
      requires Valid()
      requires state == Playing && gameTimer - dt > 0.0 ==> DrawsFit(spawnTimers, dt, draw, width, height)
      modifies this
      ensures Valid()
      ensures highScore >= old(highScore)
      ensures old(state) in {Title, Results} ==> unchanged(this) && !beep
      ensures old(state) == Countdown ==>
        && beep == CountdownBeep(old(countdownTimer), old(countdownTimer) - dt)
        && countdownTimer == old(countdownTimer) - dt && highScore == old(highScore)
        && (state == Playing <==> old(countdownTimer) <= dt)
        && (state == Countdown <==> old(countdownTimer) > dt)
      ensures old(state) == Countdown && countdownTimer <= 0.0 ==>
        && gameTimer == RoundSeconds && score == 0 && targets == []
        && stats == ZeroStats && spawnTimers == ZeroTimers
      ensures old(state) == Countdown && countdownTimer > 0.0 ==>
        && gameTimer == old(gameTimer) && score == old(score) && targets == old(targets)
        && stats == old(stats) && spawnTimers == old(spawnTimers)
      ensures old(state) == Playing ==>
        && !beep && countdownTimer == old(countdownTimer)
        && (state == Results <==> old(gameTimer) <= dt)
        && (state == Playing <==> old(gameTimer) > dt)
      ensures old(state) == Playing && old(gameTimer) - dt <= 0.0 ==>
        && gameTimer == 0.0 && highScore == Max(old(highScore), old(score)) && highScore >= score
        && targets == old(targets) && score == old(score) && stats == old(stats)
        && spawnTimers == old(spawnTimers)
      ensures old(state) == Playing && old(gameTimer) - dt > 0.0 ==>
        var aged := UpdatedTargets(old(targets) + Spawned(SpawnOrder, old(spawnTimers), dt, draw),
                                   dt, width, height);
        && gameTimer == old(gameTimer) - dt && highScore == old(highScore)
        && spawnTimers == TimersAfter(old(spawnTimers), dt)
        && targets == Collided(aged, Hands(players))
        && stats == Tallied(old(stats), aged, Hands(players))
        && score == old(score) + PointsGained(aged, Hands(players))
    {
      beep := false;
      if state == Countdown {
        beep := UpdateCountdown(dt);
      } else if state == Playing {
        UpdatePlaying(dt, players, draw);
      }
    }
  }
}
