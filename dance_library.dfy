/** Dance moves, sequences and the built-in library of kid-friendly dances. */
module DanceLibrary {
  import opened Common

  /** A target position as fractions of the screen width and height. */
  datatype Fraction = Fraction(x: real, y: real)

  /** A two-handed pose; a hand whose target is None is not tracked for this move. */
  datatype DanceMove = DanceMove(
    name: string,
    leftHandTarget: Option<Fraction>,
    rightHandTarget: Option<Fraction>,
    duration: real,   // advisory only, never consulted by the manager
    description: string)

  datatype DanceSequence = DanceSequence(
    name: string,
    moves: seq<DanceMove>,
    tempoBpm: int,
    difficulty: int)

  const DefaultDuration: real := 2.0

  /** A move whose two hand targets are both tracked. */
  function TwoHanded(name: string, lx: real, ly: real, rx: real, ry: real, description: string): DanceMove {
    DanceMove(name, Some(Fraction(lx, ly)), Some(Fraction(rx, ry)), DefaultDuration, description)
  }

  function Ymca(): DanceSequence {
    DanceSequence("YMCA", [
      TwoHanded("Y", 0.3, 0.15, 0.7, 0.15, "Arms up in a Y shape!"),
      TwoHanded("M", 0.25, 0.4, 0.75, 0.4, "Hands on shoulders!"),
      TwoHanded("C", 0.2, 0.3, 0.5, 0.5, "Curve to the left!"),
      TwoHanded("A", 0.35, 0.2, 0.65, 0.2, "Hands together above head!")
    ], 110, 1)
  }

  function Macarena(): DanceSequence {
    DanceSequence("Macarena", [
      TwoHanded("Arms Out Right", 0.3, 0.5, 0.8, 0.5, "Right arm straight out!"),
      TwoHanded("Arms Out Left", 0.2, 0.5, 0.7, 0.5, "Left arm straight out!"),
      TwoHanded("Flip Right", 0.3, 0.45, 0.8, 0.45, "Flip right hand up!"),
      TwoHanded("Flip Left", 0.2, 0.45, 0.7, 0.45, "Flip left hand up!"),
      TwoHanded("Right to Left Shoulder", 0.4, 0.35, 0.35, 0.35, "Right hand to left shoulder!"),
      TwoHanded("Left to Right Shoulder", 0.65, 0.35, 0.6, 0.35, "Left hand to right shoulder!"),
      TwoHanded("Right to Head", 0.4, 0.35, 0.55, 0.2, "Right hand behind head!"),
      TwoHanded("Left to Head", 0.45, 0.2, 0.6, 0.35, "Left hand behind head!")
    ], 100, 2)
  }

  function BabyShark(): DanceSequence {
    DanceSequence("Baby Shark", [
      TwoHanded("Baby Chomp", 0.4, 0.5, 0.6, 0.5, "Small chomps with fingers!"),
      TwoHanded("Mommy Chomp", 0.35, 0.45, 0.65, 0.45, "Bigger chomps!"),
      TwoHanded("Daddy Chomp", 0.3, 0.4, 0.7, 0.4, "Big daddy chomps!"),
      TwoHanded("Grandma Chomp", 0.35, 0.5, 0.65, 0.5, "Gentle grandma chomps!"),
      TwoHanded("Swim Away", 0.2, 0.5, 0.8, 0.5, "Swim swim swim!")
    ], 115, 1)
  }

  function HokeyPokey(): DanceSequence {
    DanceSequence("Hokey Pokey", [
      DanceMove("Right In", None, Some(Fraction(0.6, 0.5)), DefaultDuration, "Right hand in!"),
      DanceMove("Right Out", None, Some(Fraction(0.85, 0.5)), DefaultDuration, "Right hand out!"),
      DanceMove("Right Shake", None, Some(Fraction(0.7, 0.4)), DefaultDuration, "Shake it all about!"),
      DanceMove("Left In", Some(Fraction(0.4, 0.5)), None, DefaultDuration, "Left hand in!"),
      DanceMove("Left Out", Some(Fraction(0.15, 0.5)), None, DefaultDuration, "Left hand out!"),
      DanceMove("Left Shake", Some(Fraction(0.3, 0.4)), None, DefaultDuration, "Shake it all about!"),
      TwoHanded("Both Hands Up", 0.3, 0.2, 0.7, 0.2, "Hands up high!")
    ], 120, 1)
  }

  function FreezeDance(): DanceSequence {
    DanceSequence("Freeze Dance", [
      TwoHanded("T-Pose", 0.15, 0.5, 0.85, 0.5, "Arms straight out!"),
      TwoHanded("Hands Up", 0.3, 0.15, 0.7, 0.15, "Reach for the sky!"),
      TwoHanded("Airplane", 0.1, 0.45, 0.9, 0.55, "Tilt like an airplane!"),
      TwoHanded("Robot", 0.35, 0.4, 0.65, 0.55, "Robot arms!"),
      TwoHanded("Star", 0.2, 0.25, 0.8, 0.25, "Make a star shape!"),
      TwoHanded("Low Five", 0.3, 0.7, 0.7, 0.7, "Hands down low!")
    ], 130, 2)
  }

  predicate OnScreen(f: Option<Fraction>) {
    f.Some? ==> 0.0 <= f.value.x <= 1.0 && 0.0 <= f.value.y <= 1.0
  }

  /** Every target lies on the screen and every move tracks at least one hand. */
  predicate WellFormedMove(m: DanceMove) {
    OnScreen(m.leftHandTarget) && OnScreen(m.rightHandTarget) &&
    (m.leftHandTarget.Some? || m.rightHandTarget.Some?)
  }

  /** A playable sequence: non-empty, every move well formed, difficulty in 1..3. */
  predicate WellFormedSequence(q: DanceSequence) {
    |q.moves| > 0 && 1 <= q.difficulty <= 3 &&
    forall i :: 0 <= i < |q.moves| ==> WellFormedMove(q.moves[i])
  }

  /** The five library dances, in the library's order; each one is playable. */
  function AllSequences(): (r: seq<DanceSequence>)
    ensures |r| == 5
    ensures forall i :: 0 <= i < |r| ==> WellFormedSequence(r[i])
  {
    [Ymca(), BabyShark(), HokeyPokey(), Macarena(), FreezeDance()]
  }
}
