/** The game scene as the object it is: fields updated in place by each block
    the action scheduler runs. Every block is proved to have exactly the
    effect the matching function of module Round gives; `SpawnSquares`, which
    only builds the initial squares, has its effect stated directly. */
module Scene {
  import Round

  class GameScene {
    var score: int
    var timer: int
    var isAlive: bool
    var squares: seq<Round.Color>
    /** The text of the main label, abstracted. */
    var mainLabel: Round.Label

    /** The fields as one value. */
    ghost function Snapshot(): Round.RoundState
      reads this
    {
      Round.RoundState(score, timer, isAlive, squares, mainLabel)
    }

    ghost predicate Valid()
      reads this
    {
      Round.WellFormed(Snapshot())
    }

    /** The field initialisers, then what `didMoveToView` does to the state:
        the prompt in the main label and the four squares. */
    constructor ()
      ensures Valid()
      ensures Snapshot() == Round.Initial()
    {
      score := 0;
      timer := Round.StartTimer;
      isAlive := true;
      squares := [];
      mainLabel := Round.Prompt;
      new;
      SpawnSquares();
    }

    /** `spawnSquares`: appends four red squares. */
    method SpawnSquares()
      modifies this
      ensures squares == old(squares) + [Round.Red, Round.Red, Round.Red, Round.Red]
      ensures score == old(score) && timer == old(timer) && isAlive == old(isAlive)
      ensures mainLabel == old(mainLabel)
    {
      squares := squares + [Round.Red];
      squares := squares + [Round.Red];
      squares := squares + [Round.Red];
      squares := squares + [Round.Red];
    }

    /** `touchesBegan`: each touch in turn; a touch on a green square scores,
        a touch on any other square ends the round, any other touch is
        ignored. */
    method TouchesBegan(touches: seq<Round.Hit>)
      requires Valid() && Round.ValidHits(touches)
      modifies this
      ensures Valid()
      ensures Snapshot() == Round.TouchesBegan(old(Snapshot()), touches)
      ensures score >= old(score)
      ensures !old(isAlive) ==> !isAlive
    {
      var k := 0;
      while k < |touches|
        invariant 0 <= k <= |touches|
        invariant Valid()
        invariant Snapshot() == Round.TouchesBegan(old(Snapshot()), touches[..k])
      {
        var touched := touches[k];
        if touched.SquareAt? {
          if squares[touched.index] == Round.Green {
            squares := squares[touched.index := Round.Green];
            AddToScore();
          } else {
            GameOver();
          }
        }
        assert touches[..k + 1][..k] == touches[..k];
        k := k + 1;
      }
      assert touches[..k] == touches;
    }

    /** The block `countDownTimer` runs once a second. */
    method CountDownTick()
      requires Valid()
      modifies this
      ensures Valid()
      ensures Snapshot() == Round.Tick(old(Snapshot()))
      ensures timer == (if old(timer) - 1 < 0 then 0 else old(timer) - 1)
      ensures isAlive == (old(isAlive) && old(timer) - 1 >= 0)
      ensures score == old(score) && squares == old(squares)
    {
      timer := timer - 1;
      if timer <= Round.DisplayFrom && timer > 0 {
        mainLabel := Round.Seconds(timer);
      }
      if timer < 0 {
        GameOver();
      }
    }

    /** `addToScore`. */
    method AddToScore()
      requires Valid()
      modifies this
      ensures Valid()
      ensures Snapshot() == Round.AddToScore(old(Snapshot()))
      ensures score == old(score) + 1
      ensures timer == old(timer) && isAlive == old(isAlive) && squares == old(squares)
      ensures mainLabel == old(mainLabel)
    {
      score := score + 1;
    }

    /** `gameOver`, its state part. */
    method GameOver()
      requires Valid()
      modifies this
      ensures Valid()
      ensures Snapshot() == Round.GameOver(old(Snapshot()))
      ensures !isAlive && timer == 0 && mainLabel == Round.GameOverText
      ensures score == old(score) && squares == old(squares)
    {
      isAlive := false;
      timer := 0;
      mainLabel := Round.GameOverText;
    }

    /** The `changeColorGreen` block of `randomSquareColor`. */
    method ChangeColorGreen(colorSelector: nat)
      requires Valid() && colorSelector < Round.SquareCount
      modifies this
      ensures Valid()
      ensures Snapshot() == Round.Paint(old(Snapshot()), colorSelector, Round.Green)
      ensures squares == old(squares)[colorSelector := Round.Green]
      ensures score == old(score) && timer == old(timer) && isAlive == old(isAlive)
      ensures mainLabel == old(mainLabel)
    {
      squares := squares[colorSelector := Round.Green];
    }

    /** The `changeColorRed` block of `randomSquareColor`. */
    method ChangeColorRed(colorSelector: nat)
      requires Valid() && colorSelector < Round.SquareCount
      modifies this
      ensures Valid()
      ensures Snapshot() == Round.Paint(old(Snapshot()), colorSelector, Round.Red)
      ensures squares == old(squares)[colorSelector := Round.Red]
      ensures score == old(score) && timer == old(timer) && isAlive == old(isAlive)
      ensures mainLabel == old(mainLabel)
    {
      squares := squares[colorSelector := Round.Red];
    }
  }

  /** A round driven the way the scheduler drives it: the scene appears,
      two seconds pass, square 2 turns green and is touched. */
  method GreenTouchScenario() returns (score: int, alive: bool)
    ensures score == 1 && alive
  {
    var scene := new GameScene();
    scene.CountDownTick();
    scene.CountDownTick();
    scene.ChangeColorGreen(2);
    scene.TouchesBegan([Round.SquareAt(2)]);
    score, alive := scene.score, scene.isAlive;
  }

  /** Square 0 turns green and square 1, still red, is touched: the round
      ends with no points. */
  method RedTouchScenario() returns (score: int, alive: bool, timer: int)
    ensures score == 0 && !alive && timer == 0
  {
    var scene := new GameScene();
    scene.ChangeColorGreen(0);
    scene.TouchesBegan([Round.SquareAt(1)]);
    score, alive, timer := scene.score, scene.isAlive, scene.timer;
  }
}
