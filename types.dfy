// Shared vocabulary of the ChronoSelect round engine: the player record, the
// round states, the game modes and the constants of chrono-select.tsx.

module Types {

  /** Largest number of simultaneous contacts (MAX_TOUCHES). */
  const MaxTouches: nat := 10

  /** Length of the countdown, in interval ticks (COUNTDOWN_SECONDS). */
  const CountdownSeconds: int := 3

  /** Initial and base diameter of a player's circle (BASE_CIRCLE_SIZE). */
  const BaseCircleSize: real := 130.345

  /** The double value of Math.PI * 2, used to scale a random phase. */
  const TwoPi: real := 6.283185307179586

  datatype Option<T> = None | Some(value: T)

  function Min(a: real, b: real): real { if a <= b then a else b }

  function Max(a: real, b: real): real { if a >= b then a else b }

  /** One Math.random() result: a real in [0, 1). */
  predicate IsSample(u: real) { 0.0 <= u < 1.0 }

  predicate AllSamples(s: seq<real>) { forall i :: 0 <= i < |s| ==> IsSample(s[i]) }

  datatype Team = A | B

  /** The record stored per contact (the object literal of chrono-select.tsx). */
  datatype Player = Player(
    id: int,
    x: real,
    y: real,
    isWinner: bool,
    isLoser: bool,
    team: Option<Team>,
    hue: real,
    saturation: real,
    opacity: real,
    size: real,
    baseSize: real,
    animationPhase: real,
    vy: real,
    rank: Option<int>)

  /** The values of the `gameState` state variable. */
  datatype GameState =
    | Idle
    | Waiting
    | Countdown
    | Result
    | RaceWaiting
    | RaceReady
    | Racing
    | RaceFinish

  /** The values of the `gameMode` state variable. */
  datatype Mode = Chooser | TeamSplit | Race

  /** The player record a new contact gets (both creation paths use it). */
  function NewPlayer(id: int, x: real, y: real, hue: real, saturation: real, phase: real): (p: Player)
    ensures p.id == id && p.x == x && p.y == y && p.hue == hue && p.saturation == saturation
    ensures !p.isWinner && !p.isLoser && p.team == None && p.rank == None
    ensures p.opacity == 1.0 && p.vy == 0.0 && p.animationPhase == phase
    ensures p.size == p.baseSize == BaseCircleSize
  {
    Player(id, x, y, false, false, None, hue, saturation, 1.0,
           BaseCircleSize, BaseCircleSize, phase, 0.0, None)
  }
}
