/** The popper's target categories and their tables, and the pure side of a
    target's life: how it is spawned, how it drifts, bounces and ages in one
    update, how it fades once popped, and the hit test against the hands. */
module PopperTargets {
  import opened Common

  datatype Category = Bauble | Elf | Santa | Grinch

  /** The categories in the order the spawn loop visits them. */
  const SpawnOrder: seq<Category> := [Bauble, Elf, Santa, Grinch]

  /** Every category is visited by the spawn loop, and exactly once. */
  lemma SpawnOrderVisitsEachOnce()
    ensures forall c: Category :: c in SpawnOrder
    ensures forall i, j :: 0 <= i < j < |SpawnOrder| ==> SpawnOrder[i] != SpawnOrder[j]
  {
    forall c: Category
      ensures c in SpawnOrder
    {
      match c
      case Bauble => assert SpawnOrder[0] == c;
      case Elf => assert SpawnOrder[1] == c;
      case Santa => assert SpawnOrder[2] == c;
      case Grinch => assert SpawnOrder[3] == c;
    }
  }

  /** One value per category: the source keeps its pop counts and its spawn
      timers in dictionaries whose keys are exactly the four categories. */
  datatype PerCategory<T> = PerCategory(bauble: T, elf: T, santa: T, grinch: T)
  {
    function Get(c: Category): T {
      match c
      case Bauble => bauble
      case Elf => elf
      case Santa => santa
      case Grinch => grinch
    }

    /** The entry of `c` replaced by `v`, every other entry kept. */
    function Set(c: Category, v: T): (r: PerCategory<T>)
      ensures r.Get(c) == v
      ensures forall k: Category :: k != c ==> r.Get(k) == Get(k)
    {
      match c
      case Bauble => this.(bauble := v)
      case Elf => this.(elf := v)
      case Santa => this.(santa := v)
      case Grinch => this.(grinch := v)
    }
  }

  /** Points for popping a target; only the Grinch costs points. */
  function Points(c: Category): (r: int)
    ensures r < 0 <==> c == Grinch
  {
    match c
    case Bauble => 5
    case Elf => 50
    case Santa => 100
    case Grinch => -10
  }

  /** Seconds between two spawns of a category. */
  function SpawnRate(c: Category): (r: real)
    ensures r > 0.0
  {
    match c
    case Bauble => 1.0
    case Elf => 4.0
    case Santa => 20.0
    case Grinch => 6.0
  }

  /** Seconds a target lives unless popped. */
  function Lifetime(c: Category): (r: real)
    ensures r > 0.0
  {
    match c
    case Bauble => 8.0
    case Elf => 3.0
    case Santa => 3.0
    case Grinch => 3.0
  }

  /** Pixels per second; baubles are the only targets that stand still. */
  function Speed(c: Category): (r: real)
    ensures r >= 0.0
    ensures r == 0.0 <==> c == Bauble
  {
    match c
    case Bauble => 0.0
    case Elf => 150.0
    case Santa => 300.0
    case Grinch => 150.0
  }

  /** Size of a target in pixels. */
  function Size(c: Category): (r: real)
    ensures r > 0.0
  {
    match c
    case Bauble => 50.0
    case Elf => 55.0
    case Santa => 70.0
    case Grinch => 60.0
  }

  /** Distance from the screen edges within which a target's centre stays. */
  const ArenaMargin: real := 50.0
  /** Distance from the screen edges within which a target is spawned. */
  const SpawnMargin: int := 80
  /** Seconds a popped target stays on screen for its animation. */
  const PopFadeTime: real := 0.3
  /** Radius of a hand, added to half a target's size in the hit test. */
  const HandRadius: real := 50.0

  datatype Target = Target(
    x: real,
    y: real,
    kind: Category,
    vx: real,
    vy: real,
    lifetime: real,
    size: real,
    popped: bool,
    popTimer: real)

  /** The random draws of one spawn: the integer position and, for a moving
      category, the velocity that the drawn direction gives. */
  datatype SpawnDraw = SpawnDraw(x: int, y: int, vx: real, vy: real)

  /** A draw the random generator can produce for a target of category `c`
      on this screen: the position within the spawn margins and, for a moving
      category, a velocity `speed * (cos a, sin a)`, whose magnitude is the
      category's speed since cos² a + sin² a = 1. */
  predicate DrawInRange(c: Category, d: SpawnDraw, width: int, height: int) {
    && SpawnMargin <= d.x <= width - SpawnMargin && SpawnMargin <= d.y <= height - SpawnMargin
    && (Speed(c) > 0.0 ==> d.vx * d.vx + d.vy * d.vy == Speed(c) * Speed(c))
  }

  predicate InArena(x: real, y: real, width: int, height: int) {
    ArenaMargin <= x <= width as real - ArenaMargin &&
    ArenaMargin <= y <= height as real - ArenaMargin
  }

  /** What every target in the list satisfies between updates: its size is
      its category's, its centre is inside the walls, a live target has time
      left and a popped one has not finished fading. */
  predicate Sound(t: Target, width: int, height: int) {
    t.size == Size(t.kind) && InArena(t.x, t.y, width, height) &&
    (!t.popped ==> t.lifetime > 0.0) &&
    (t.popped ==> t.popTimer <= PopFadeTime)
  }

  /** A freshly spawned target of category `c`. */
  function NewTarget(c: Category, d: SpawnDraw): (t: Target)
    ensures t.kind == c && !t.popped && t.popTimer == 0.0
    ensures t.lifetime == Lifetime(c) && t.size == Size(c)
    ensures t.x == d.x as real && t.y == d.y as real
    ensures c == Bauble ==> t.vx == 0.0 && t.vy == 0.0
    ensures c != Bauble ==> t.vx == d.vx && t.vy == d.vy
  {
    var velocity := if Speed(c) > 0.0 then (d.vx, d.vy) else (0.0, 0.0);
    Target(d.x as real, d.y as real, c, velocity.0, velocity.1, Lifetime(c), Size(c), false, 0.0)
  }

  /** A target spawned from a draw in range is sound, and lies at least the
      spawn margin away from every edge. */
  lemma NewTargetSound(c: Category, d: SpawnDraw, width: int, height: int)
    requires DrawInRange(c, d, width, height)
    ensures Sound(NewTarget(c, d), width, height)
    ensures var t := NewTarget(c, d); t.vx * t.vx + t.vy * t.vy == Speed(c) * Speed(c)
    ensures SpawnMargin as real <= NewTarget(c, d).x <= (width - SpawnMargin) as real
    ensures SpawnMargin as real <= NewTarget(c, d).y <= (height - SpawnMargin) as real
  {
  }

  /** `max(lo, min(hi, p))`. */
  function Clamp(p: real, lo: real, hi: real): real {
    var capped := if hi <= p then hi else p;
    if lo >= capped then lo else capped
  }

  /** One axis of the wall bounce: a coordinate outside the walls has its
      velocity negated and is clamped back between them; one inside is kept.
      The clamp is pinned only for a dimension of at least 100 pixels: on a
      narrower screen the walls cross. Such a screen never holds a target:
      a sound target lies between the walls, which needs 100 pixels, and a
      spawn draw within the 80-pixel margins needs 160. */
  function Bounce(p: real, v: real, limit: int): (r: (real, real))
    ensures limit as real >= 2.0 * ArenaMargin ==> ArenaMargin <= r.0 <= limit as real - ArenaMargin
    ensures ArenaMargin <= p <= limit as real - ArenaMargin ==> r == (p, v)
    ensures !(ArenaMargin <= p <= limit as real - ArenaMargin) ==> r.1 == -v
    ensures limit as real >= 2.0 * ArenaMargin && p < ArenaMargin ==> r.0 == ArenaMargin
    ensures limit as real >= 2.0 * ArenaMargin && p > limit as real - ArenaMargin ==>
      r.0 == limit as real - ArenaMargin
    ensures Abs(r.1) == Abs(v) && r.1 * r.1 == v * v
  {
    var hi := limit as real - ArenaMargin;
    if p < ArenaMargin || p > hi then (Clamp(p, ArenaMargin, hi), -v) else (p, v)
  }

  /** A live target after one update: moved by its velocity, bounced back
      inside the walls, and `dt` older. Wherever it was, it ends inside the
      walls of a screen at least twice the margin wide and high, and the
      magnitude of each velocity component is kept. */
  function Moved(t: Target, dt: real, width: int, height: int): (m: Target)
    ensures m.kind == t.kind && m.size == t.size && m.popped == t.popped && m.popTimer == t.popTimer
    ensures m.lifetime == t.lifetime - dt
    ensures width as real >= 2.0 * ArenaMargin && height as real >= 2.0 * ArenaMargin ==>
      InArena(m.x, m.y, width, height)
    ensures (m.x, m.vx) == Bounce(t.x + t.vx * dt, t.vx, width)
    ensures (m.y, m.vy) == Bounce(t.y + t.vy * dt, t.vy, height)
    ensures Abs(m.vx) == Abs(t.vx) && Abs(m.vy) == Abs(t.vy)
    ensures m.vx * m.vx + m.vy * m.vy == t.vx * t.vx + t.vy * t.vy
  {
    var alongX := Bounce(t.x + t.vx * dt, t.vx, width);
    var alongY := Bounce(t.y + t.vy * dt, t.vy, height);
    t.(x := alongX.0, vx := alongX.1, y := alongY.0, vy := alongY.1, lifetime := t.lifetime - dt)
  }

  /** One target through one update; None when the update removes it. A
      popped target only advances its fade timer and goes once that passes
      the fade time; a live one moves and goes once its lifetime runs out. */
  function Aged(t: Target, dt: real, width: int, height: int): (r: Option<Target>)
    ensures t.popped ==> (r.Some? <==> t.popTimer + dt <= PopFadeTime)
    ensures !t.popped ==> (r.Some? <==> t.lifetime - dt > 0.0)
    ensures r.Some? ==> r.value.kind == t.kind && r.value.popped == t.popped
    ensures r.Some? && t.popped ==> r.value == t.(popTimer := t.popTimer + dt)
    ensures r.Some? && !t.popped ==> r.value == Moved(t, dt, width, height)
    ensures r.Some? && Sound(t, width, height) ==> Sound(r.value, width, height)
  {
    if t.popped then
      var faded := t.(popTimer := t.popTimer + dt);
      if faded.popTimer > PopFadeTime then None else Some(faded)
    else
      var moved := Moved(t, dt, width, height);
      if moved.lifetime <= 0.0 then None else Some(moved)
  }

  /** The target list after one update: every target aged in order, the
      removed ones dropped. */
  function UpdatedTargets(ts: seq<Target>, dt: real, width: int, height: int): (r: seq<Target>)
    ensures |r| <= |ts|
    decreases |ts|
  {
    if ts == [] then []
    else
      var last := Aged(ts[|ts| - 1], dt, width, height);
      UpdatedTargets(ts[..|ts| - 1], dt, width, height) + (if last.Some? then [last.value] else [])
  }

  /** The targets kept by an update are exactly the aged targets that were
      not removed. */
  lemma {:induction false} UpdatedTargetsMembers(ts: seq<Target>, dt: real, width: int, height: int)
    ensures forall u :: u in UpdatedTargets(ts, dt, width, height) <==>
      exists i :: 0 <= i < |ts| && Aged(ts[i], dt, width, height) == Some(u)
    decreases |ts|
  {
    if ts != [] {
      var init := ts[..|ts| - 1];
      UpdatedTargetsMembers(init, dt, width, height);
      forall u
        ensures u in UpdatedTargets(ts, dt, width, height) <==>
          exists i :: 0 <= i < |ts| && Aged(ts[i], dt, width, height) == Some(u)
      {
        if exists i :: 0 <= i < |ts| && Aged(ts[i], dt, width, height) == Some(u) {
          var i :| 0 <= i < |ts| && Aged(ts[i], dt, width, height) == Some(u);
          if i < |ts| - 1 {
            assert init[i] == ts[i];
          }
        }
        if u in UpdatedTargets(init, dt, width, height) {
          var i :| 0 <= i < |init| && Aged(init[i], dt, width, height) == Some(u);
          assert ts[i] == init[i];
        }
      }
    }
  }

  /** An update keeps every target sound. */
  lemma {:induction false} UpdatedTargetsSound(ts: seq<Target>, dt: real, width: int, height: int)
    requires forall i :: 0 <= i < |ts| ==> Sound(ts[i], width, height)
    ensures forall i :: 0 <= i < |UpdatedTargets(ts, dt, width, height)| ==>
      Sound(UpdatedTargets(ts, dt, width, height)[i], width, height)
    decreases |ts|
  {
    if ts != [] {
      UpdatedTargetsSound(ts[..|ts| - 1], dt, width, height);
    }
  }

  /** A tracked player's two hands, each possibly missing. */
  datatype Player = Player(leftHand: Option<Point>, rightHand: Option<Point>)

  /** A player's present hands, left before right. */
  function PlayerHands(player: Player): (r: seq<Point>)
    ensures |r| <= 2
    ensures forall p :: p in r <==> player.leftHand == Some(p) || player.rightHand == Some(p)
  {
    (if player.leftHand.Some? then [player.leftHand.value] else []) +
    (if player.rightHand.Some? then [player.rightHand.value] else [])
  }

  /** The present hands of all players, player by player. */
  function Hands(players: seq<Player>): (r: seq<Point>)
    ensures |r| <= 2 * |players|
    decreases |players|
  {
    if players == [] then []
    else PlayerHands(players[0]) + Hands(players[1..])
  }

  /** The hands gathered are exactly the present hands of the players. */
  lemma {:induction false} HandsMembers(players: seq<Player>)
    ensures forall p :: p in Hands(players) <==>
      exists i :: 0 <= i < |players| && (players[i].leftHand == Some(p) || players[i].rightHand == Some(p))
    decreases |players|
  {
    if players != [] {
      HandsMembers(players[1..]);
      forall p
        ensures p in Hands(players) <==>
          exists i :: 0 <= i < |players| && (players[i].leftHand == Some(p) || players[i].rightHand == Some(p))
      {
        if exists i :: 0 <= i < |players| && (players[i].leftHand == Some(p) || players[i].rightHand == Some(p)) {
          var i :| 0 <= i < |players| && (players[i].leftHand == Some(p) || players[i].rightHand == Some(p));
          if i > 0 {
            assert players[1..][i - 1] == players[i];
          }
        }
        if p in Hands(players[1..]) {
          var i :| 0 <= i < |players[1..]| &&
            (players[1..][i].leftHand == Some(p) || players[1..][i].rightHand == Some(p));
          assert players[i + 1] == players[1..][i];
        }
      }
    }
  }

  /** The hands of two groups of players are the first group's followed by
      the second's. */
  lemma {:induction false} HandsAppend(a: seq<Player>, b: seq<Player>)
    ensures Hands(a + b) == Hands(a) + Hands(b)
    decreases |a|
  {
    if a == [] {
      assert a + b == b;
    } else {
      assert (a + b)[0] == a[0];
      assert (a + b)[1..] == a[1..] + b;
      HandsAppend(a[1..], b);
    }
  }

  /** Strict circular hit test: the hand lies strictly closer to the
      target's centre than the hand radius plus half the target's size. */
  function Touches(hand: Point, t: Target): (r: bool)
    ensures forall d :: IsRoot(d, SquaredDistance(hand.x, hand.y, t.x, t.y)) ==>
      (r <==> d < HandRadius + t.size / 2.0)
  {
    var reach := HandRadius + t.size / 2.0;
    InsideRadius(SquaredDistance(hand.x, hand.y, t.x, t.y), reach);
    0.0 < reach && SquaredDistance(hand.x, hand.y, t.x, t.y) < reach * reach
  }

  /** Some hand touches the target. */
  predicate Reached(hands: seq<Point>, t: Target) {
    exists k :: 0 <= k < |hands| && Touches(hands[k], t)
  }

  /** A live target that some hand touches is popped by the collision check. */
  predicate NewlyHit(t: Target, hands: seq<Point>) {
    !t.popped && Reached(hands, t)
  }

  function PoppedTarget(t: Target): Target {
    t.(popped := true, popTimer := 0.0)
  }

  /** A target after the collision check. */
  function AfterCollision(t: Target, hands: seq<Point>): Target {
    if NewlyHit(t, hands) then PoppedTarget(t) else t
  }

  /** The target list after the collision check, target by target. */
  function Collided(ts: seq<Target>, hands: seq<Point>): (r: seq<Target>)
    ensures |r| == |ts|
    ensures forall i :: 0 <= i < |ts| ==>
      && r[i].kind == ts[i].kind && r[i].x == ts[i].x && r[i].y == ts[i].y
      && (r[i].popped <==> ts[i].popped || Reached(hands, ts[i]))
      && (NewlyHit(ts[i], hands) ==> r[i].popTimer == 0.0)
      && (!NewlyHit(ts[i], hands) ==> r[i] == ts[i])
  {
    seq(|ts|, i requires 0 <= i < |ts| => AfterCollision(ts[i], hands))
  }

  /** The collision check keeps every target sound. */
  lemma CollidedSound(ts: seq<Target>, hands: seq<Point>, width: int, height: int)
    requires forall i :: 0 <= i < |ts| ==> Sound(ts[i], width, height)
    ensures forall i :: 0 <= i < |ts| ==> Sound(Collided(ts, hands)[i], width, height)
  {
  }

  /** Points awarded by one collision check: the sum over the targets it pops. */
  function PointsGained(ts: seq<Target>, hands: seq<Point>): int
    decreases |ts|
  {
    if ts == [] then 0
    else
      var last := ts[|ts| - 1];
      PointsGained(ts[..|ts| - 1], hands) + (if NewlyHit(last, hands) then Points(last.kind) else 0)
  }

  /** How many targets of category `c` one collision check pops. */
  function PopsOf(ts: seq<Target>, hands: seq<Point>, c: Category): (r: nat)
    ensures r <= |ts|
    decreases |ts|
  {
    if ts == [] then 0
    else
      var last := ts[|ts| - 1];
      PopsOf(ts[..|ts| - 1], hands, c) + (if NewlyHit(last, hands) && last.kind == c then 1 else 0)
  }

  /** Pop counts per category. */
  type Stats = PerCategory<nat>

  const ZeroStats: Stats := PerCategory(0, 0, 0, 0)

  /** The score the pop counts are worth. */
  function StatsScore(stats: Stats): int {
    stats.bauble * Points(Bauble) + stats.elf * Points(Elf) +
    stats.santa * Points(Santa) + stats.grinch * Points(Grinch)
  }

  /** One more pop of category `c` is worth that category's points. */
  lemma StatsScoreCount(stats: Stats, c: Category)
    ensures StatsScore(stats.Set(c, stats.Get(c) + 1)) == StatsScore(stats) + Points(c)
  {
  }

  /** The pop counts after one collision check. */
  function Tallied(stats: Stats, ts: seq<Target>, hands: seq<Point>): Stats {
    PerCategory(stats.bauble + PopsOf(ts, hands, Bauble), stats.elf + PopsOf(ts, hands, Elf),
                stats.santa + PopsOf(ts, hands, Santa), stats.grinch + PopsOf(ts, hands, Grinch))
  }

  /** The points of a collision check are the points of the pops it counts. */
  lemma {:induction false} PointsGainedByCategory(ts: seq<Target>, hands: seq<Point>)
    ensures PointsGained(ts, hands) ==
      PopsOf(ts, hands, Bauble) * Points(Bauble) + PopsOf(ts, hands, Elf) * Points(Elf) +
      PopsOf(ts, hands, Santa) * Points(Santa) + PopsOf(ts, hands, Grinch) * Points(Grinch)
    decreases |ts|
  {
    if ts != [] {
      PointsGainedByCategory(ts[..|ts| - 1], hands);
    }
  }

  /** Counting the pops of a collision check adds exactly its points to the
      score the counts are worth, so a score that equals the worth of the
      counts keeps doing so. */
  lemma TalliedScore(stats: Stats, ts: seq<Target>, hands: seq<Point>)
    ensures StatsScore(Tallied(stats, ts, hands)) == StatsScore(stats) + PointsGained(ts, hands)
  {
    PointsGainedByCategory(ts, hands);
  }

  /** Each target is scored at most once: a second collision check with the
      same hands pops nothing and awards nothing. */
  lemma {:induction false} CollidedOnce(ts: seq<Target>, hands: seq<Point>)
    ensures Collided(Collided(ts, hands), hands) == Collided(ts, hands)
    ensures PointsGained(Collided(ts, hands), hands) == 0
    decreases |ts|
  {
    if ts != [] {
      var init := ts[..|ts| - 1];
      CollidedOnce(init, hands);
      assert Collided(ts, hands)[..|ts| - 1] == Collided(init, hands);
    }
  }

  /** With no hand present nothing is popped, counted or scored. */
  lemma NoHandsNoPops(ts: seq<Target>, stats: Stats)
    ensures Collided(ts, []) == ts
    ensures Tallied(stats, ts, []) == stats
    ensures PointsGained(ts, []) == 0
  {
    assert forall i :: 0 <= i < |ts| ==> !Reached([], ts[i]);
    NoHandsNoPoints(ts);
  }

  lemma {:induction false} NoHandsNoPoints(ts: seq<Target>)
    ensures PointsGained(ts, []) == 0
    ensures forall c: Category :: PopsOf(ts, [], c) == 0
    decreases |ts|
  {
    if ts != [] {
      NoHandsNoPoints(ts[..|ts| - 1]);
    }
  }

  /** One hand can pop several targets in one check: every live target it
      touches is popped. */
  lemma OneHandPopsAllItTouches(ts: seq<Target>, hand: Point)
    ensures forall i :: 0 <= i < |ts| && !ts[i].popped && Touches(hand, ts[i]) ==>
      Collided(ts, Hands([Player(Some(hand), None)]))[i].popped
  {
    var hands := Hands([Player(Some(hand), None)]);
    assert hands[0] == hand;
  }

  /** Spawn timers per category. */
  type Timers = PerCategory<real>

  const ZeroTimers: Timers := PerCategory(0.0, 0.0, 0.0, 0.0)

  /** A spawn timer is due once, grown by `dt`, it reaches its category's rate. */
  predicate Due(timers: Timers, dt: real, c: Category) {
    timers.Get(c) + dt >= SpawnRate(c)
  }

  /** The targets the spawn loop appends while visiting `cats`, in order. */
  function Spawned(cats: seq<Category>, timers: Timers, dt: real,
                   draw: Category -> SpawnDraw): (r: seq<Target>)
    ensures |r| <= |cats|
    decreases |cats|
  {
    if cats == [] then []
    else
      var c := cats[|cats| - 1];
      Spawned(cats[..|cats| - 1], timers, dt, draw) +
      (if Due(timers, dt, c) then [NewTarget(c, draw(c))] else [])
  }

  function CountKind(ts: seq<Target>, c: Category): nat
    decreases |ts|
  {
    if ts == [] then 0
    else CountKind(ts[..|ts| - 1], c) + (if ts[|ts| - 1].kind == c then 1 else 0)
  }

  lemma {:induction false} CountKindAppend(a: seq<Target>, b: seq<Target>, c: Category)
    ensures CountKind(a + b, c) == CountKind(a, c) + CountKind(b, c)
    decreases |b|
  {
    if b != [] {
      assert (a + b)[..|a + b| - 1] == a + b[..|b| - 1];
      CountKindAppend(a, b[..|b| - 1], c);
    } else {
      assert a + b == a;
    }
  }

  /** Visiting distinct categories spawns exactly one target of each due
      category among them and none of any other. */
  lemma {:induction false} SpawnedOncePerDueCategory(cats: seq<Category>, timers: Timers,
                                                     dt: real, draw: Category -> SpawnDraw, c: Category)
    requires forall i, j :: 0 <= i < j < |cats| ==> cats[i] != cats[j]
    ensures CountKind(Spawned(cats, timers, dt, draw), c) ==
      (if c in cats && Due(timers, dt, c) then 1 else 0)
    decreases |cats|
  {
    if cats != [] {
      var init, last := cats[..|cats| - 1], cats[|cats| - 1];
      SpawnedOncePerDueCategory(init, timers, dt, draw, c);
      var tail := if Due(timers, dt, last) then [NewTarget(last, draw(last))] else [];
      CountKindAppend(Spawned(init, timers, dt, draw), tail, c);
      assert c in cats <==> c in init || c == last;
      if c == last {
        assert c !in init;
      }
    }
  }

  /** Every spawned target is sound and fresh when the draws of the due
      categories are in range. */
  lemma {:induction false} SpawnedSound(cats: seq<Category>, timers: Timers, dt: real,
                                        draw: Category -> SpawnDraw, width: int, height: int)
    requires forall c :: c in cats && Due(timers, dt, c) ==> DrawInRange(c, draw(c), width, height)
    ensures forall i :: 0 <= i < |Spawned(cats, timers, dt, draw)| ==>
      && Sound(Spawned(cats, timers, dt, draw)[i], width, height)
      && !Spawned(cats, timers, dt, draw)[i].popped
      && Spawned(cats, timers, dt, draw)[i].lifetime == Lifetime(Spawned(cats, timers, dt, draw)[i].kind)
    decreases |cats|
  {
    if cats != [] {
      var last := cats[|cats| - 1];
      SpawnedSound(cats[..|cats| - 1], timers, dt, draw, width, height);
      if Due(timers, dt, last) {
        NewTargetSound(last, draw(last), width, height);
      }
    }
  }

  /** The spawn timer of `c` after the spawn loop: restarted at 0 when due,
      otherwise grown by `dt`. */
  function TimerAfter(timers: Timers, dt: real, c: Category): real {
    if Due(timers, dt, c) then 0.0 else timers.Get(c) + dt
  }

  function TimersAfter(timers: Timers, dt: real): (r: Timers)
    ensures forall c: Category :: r.Get(c) == TimerAfter(timers, dt, c)
  {
    PerCategory(TimerAfter(timers, dt, Bauble), TimerAfter(timers, dt, Elf),
                TimerAfter(timers, dt, Santa), TimerAfter(timers, dt, Grinch))
  }
}
