/** The state of one WhackABlock round as a value, and the effect on it of
    each run-to-completion block the game scene runs: a touch, a countdown
    tick, `addToScore`, `gameOver`, and the two colour changes of
    `randomSquareColor`. The class in module Scene is proved against these
    functions; module RoundProperties proves what they promise. */
module Round {

  /** The two colours a square is ever given. The scene decides "is this the
      green square" by comparing colour descriptions; with only these two
      colours in play that is equality with Green. */
  datatype Color = Red | Green

  /** What the main label shows. */
  datatype Label =
    | Prompt          // the opening instruction, "Choose the GREEN Square"
    | Seconds(n: int) // the seconds left, written by the countdown
    | GameOverText    // "Game Over"

  /** The node a touch lands on: one of the four squares, or a node that is
      not a square sprite (a label, the scene itself). */
  datatype Hit = Background | SquareAt(index: nat)

  /** One block the scene's action scheduler can run. */
  datatype Action =
    | Touch(hit: Hit)
    | CountdownTick
    | ColorGreen(selector: nat)
    | ColorRed(selector: nat)

  const SquareCount: nat := 4
  /** The countdown's starting value. */
  const StartTimer: int := 32
  /** The largest timer value the countdown writes to the main label. */
  const DisplayFrom: int := 30

  datatype RoundState = RoundState(
    score: int,
    timer: int,
    isAlive: bool,
    squares: seq<Color>,
    mainLabel: Label)

  /** The scene always holds exactly four squares once it is on screen. */
  predicate WellFormed(s: RoundState)
  {
    |s.squares| == SquareCount
  }

  /** Hit-testing only ever yields squares that exist. */
  predicate ValidHit(h: Hit)
  {
    h.SquareAt? ==> h.index < SquareCount
  }

  /** The random selector is `arc4random_uniform(4)`, so it is below four. */
  predicate ValidAction(a: Action)
  {
    match a
    case Touch(h) => ValidHit(h)
    case CountdownTick => true
    case ColorGreen(i) => i < SquareCount
    case ColorRed(i) => i < SquareCount
  }

  predicate ValidHits(hits: seq<Hit>)
  {
    forall k :: 0 <= k < |hits| ==> ValidHit(hits[k])
  }

  predicate ValidActions(actions: seq<Action>)
  {
    forall k :: 0 <= k < |actions| ==> ValidAction(actions[k])
  }

  /** The state once the scene is on screen: the field initialisers, the
      prompt in the main label and four red squares from `spawnSquares`. */
  function Initial(): (s: RoundState)
    ensures WellFormed(s)
    ensures s.score == 0 && s.timer == StartTimer && s.isAlive
    ensures forall i :: 0 <= i < |s.squares| ==> s.squares[i] == Red
  {
    RoundState(0, StartTimer, true, [Red, Red, Red, Red], Prompt)
  }

  /** `addToScore`: one more point. */
  function AddToScore(s: RoundState): (r: RoundState)
    ensures r.score == s.score + 1
    ensures r.timer == s.timer && r.isAlive == s.isAlive && r.squares == s.squares
    ensures r.mainLabel == s.mainLabel
  {
    s.(score := s.score + 1)
  }

  /** `gameOver`, its effect on the state: the round is lost, the timer is
      zeroed and the main label says so. */
  function GameOver(s: RoundState): (r: RoundState)
    ensures !r.isAlive && r.timer == 0 && r.mainLabel == GameOverText
    ensures r.score == s.score && r.squares == s.squares
  {
    s.(isAlive := false, timer := 0, mainLabel := GameOverText)
  }

  /** One iteration of the loop in `touchesBegan`. Neither branch looks at
      `isAlive`. */
  function Tap(s: RoundState, h: Hit): (r: RoundState)
    requires WellFormed(s) && ValidHit(h)
    ensures WellFormed(r)
  {
    match h
    case Background => s
    case SquareAt(i) =>
      if s.squares[i] == Green then
        AddToScore(s.(squares := s.squares[i := Green]))
      else
        GameOver(s)
  }

  /** `touchesBegan`: the touches of one event, in iteration order. */
  function TouchesBegan(s: RoundState, hits: seq<Hit>): (r: RoundState)
    requires WellFormed(s) && ValidHits(hits)
    ensures WellFormed(r)
    ensures r.score >= s.score
    ensures !s.isAlive ==> !r.isAlive
    decreases |hits|
  {
    if hits == [] then s
    else
      var before := TouchesBegan(s, hits[..|hits| - 1]);
      Tap(before, hits[|hits| - 1])
  }

  /** The block `countDownTimer` repeats once a second: decrement, show the
      number when it is in 1..30, end the round when it went below zero.
      Nothing here looks at `isAlive`. */
  function Tick(s: RoundState): (r: RoundState)
    // below zero after the decrement: the round ends and the timer reads 0
    ensures s.timer - 1 < 0 ==>
      !r.isAlive && r.timer == 0 && r.mainLabel == GameOverText
    // otherwise: exactly one second less, alive as before
    ensures s.timer - 1 >= 0 ==> r.timer == s.timer - 1 && r.isAlive == s.isAlive
    // the label shows the new value only when it is in 1..30
    ensures 0 < s.timer - 1 <= DisplayFrom ==> r.mainLabel == Seconds(s.timer - 1)
    ensures (s.timer - 1 == 0 || s.timer - 1 > DisplayFrom) ==> r.mainLabel == s.mainLabel
    ensures r.score == s.score && r.squares == s.squares
  {
    var t := s.timer - 1;
    var shown := if t <= DisplayFrom && t > 0 then Seconds(t) else s.mainLabel;
    var decremented := s.(timer := t, mainLabel := shown);
    if t < 0 then GameOver(decremented) else decremented
  }

  /** `n` countdown ticks with nothing else in between. */
  function Countdown(s: RoundState, n: nat): (r: RoundState)
    ensures r.score == s.score && r.squares == s.squares
    ensures !s.isAlive ==> !r.isAlive
  {
    if n == 0 then s else Tick(Countdown(s, n - 1))
  }

  /** The colour change blocks of `randomSquareColor`: square `i` becomes `c`. */
  function Paint(s: RoundState, i: nat, c: Color): (r: RoundState)
    requires WellFormed(s) && i < SquareCount
    ensures WellFormed(r)
  {
    s.(squares := s.squares[i := c])
  }

  /** The effect of one scheduled block. */
  function Step(s: RoundState, a: Action): (r: RoundState)
    requires WellFormed(s) && ValidAction(a)
    ensures WellFormed(r)
  {
    match a
    case Touch(h) => Tap(s, h)
    case CountdownTick => Tick(s)
    case ColorGreen(i) => Paint(s, i, Green)
    case ColorRed(i) => Paint(s, i, Red)
  }

  /** The blocks run one after another, in any order the scheduler picks. */
  function Run(s: RoundState, actions: seq<Action>): (r: RoundState)
    requires WellFormed(s) && ValidActions(actions)
    ensures WellFormed(r)
    decreases |actions|
  {
    if actions == [] then s
    else Run(Step(s, actions[0]), actions[1..])
  }
}
