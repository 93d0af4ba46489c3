# WhackABlock round state machine in Dafny

WhackABlock is a one-screen reaction game. Four squares start red. At fixed
intervals a randomly chosen square turns green and later turns red again. A
tap on the green square scores a point. A tap on any other square ends the round. A
countdown that starts at 32 also ends the round. All of this logic lives in
the `GameScene` class, in WhackABlock/GameScene.swift. This project models
that class's state and the blocks that change it:

- the score, the countdown `timer`, the `isAlive` flag, the four square
  colours, and the text of the main label (as the abstract `Label`);
- `touchesBegan`, which loops over the touches of one event;
- the block that `countDownTimer` repeats once a second;
- `addToScore`;
- the state part of `gameOver`;
- the two colour-change blocks of `randomSquareColor`;
- the initial state set up by the field initialisers and `didMoveToView`
  (the prompt text and `spawnSquares`).

SpriteKit runs every scheduled block to completion, one at a time. So each
block is one atomic method or function, and the caller may run them in any
order. The random square index and the node a touch hits are parameters.

There are three modules:

- `Round` (round.dfy) holds the state as a value, `RoundState`. Each block
  has a function giving its effect (`Tap`, `TouchesBegan`, `Tick`,
  `AddToScore`, `GameOver`, `Paint`). `Step` and `Run` apply any sequence of
  blocks.
- `RoundProperties` (round_properties.dfy) proves what the blocks promise
  about those functions.
- `Scene` (game_scene.dfy) holds the class `GameScene`. Its fields are
  updated in place. Each scheduled block (the touch loop, the countdown
  tick, `addToScore`, `gameOver` and the two colour changes) is proved to
  have exactly the effect of the matching `Round` function. `SpawnSquares`
  has no `Round` counterpart; its contract states its effect directly. Two
  client methods replay short rounds.

Colours are compared by their `description` strings in the source. Only red
and green are ever used, so the model compares an enum against `Green`.

The model follows the code, including these quirks:

- Taps are not gated by `isAlive`. A tap on a green square after the round
  has ended still scores (`TapGreenScores` does not require `isAlive`). A tap
  on a red square after the round has ended calls `gameOver` again.
- The countdown is not gated by `isAlive`. After `gameOver` the next tick
  takes `timer` from 0 to -1, which calls `gameOver` again and sets it back
  to 0 (`TickAfterGameOver`). Within that block the timer does change.
- The colour changes keep running after the round ends. Nothing cancels
  them, and they change the squares whatever `isAlive` says.
- "Exactly one green square at a time" holds only because of the timing of
  the scheduled actions. It is not an invariant of the blocks themselves:
  two green steps in a row give two green squares.
- Each call of `gameOver` schedules its own scene transition. Game over is
  idempotent on the state, but not on the transitions it schedules.

## Model

| member | source | states |
|---|---|---|
| `Round.Initial` | WhackABlock/GameScene.swift:22-38 | the round starts with score 0, timer 32 and alive (the field initialisers at 22-26), the prompt in the main label (set at 75 via `didMoveToView`) and four squares that are all red (appended at 94-98) |
| `Round.Tap` | WhackABlock/GameScene.swift:45-52 | one touch keeps the scene at exactly four squares |
| `Round.TouchesBegan` | WhackABlock/GameScene.swift:40-54 | a whole touch event keeps four squares, never lowers the score and never revives a lost round |
| `Round.AddToScore` | WhackABlock/GameScene.swift:152-155 | the score rises by exactly 1; timer, isAlive, squares and label are unchanged |
| `Round.GameOver` | WhackABlock/GameScene.swift:157-161 | isAlive false, timer 0, label "Game Over"; score and squares kept |
| `Round.Tick` | WhackABlock/GameScene.swift:122-132 | a tick takes one off the timer; the round ends exactly when the result is below zero, and then the timer reads 0 and the label "Game Over"; otherwise isAlive is kept; the label shows the new value only when it is in 1..30 and keeps what it showed at 0 and above 30; score and squares are untouched |
| `Round.Countdown` | WhackABlock/GameScene.swift:120-135 | any run of ticks keeps score and squares and never revives a lost round |
| `Round.Paint` | WhackABlock/GameScene.swift:179-184 | a colour change keeps four squares |
| `Round.Step` | WhackABlock/GameScene.swift:40-187 | any scheduled block keeps four squares |
| `Round.Run` | WhackABlock/GameScene.swift:40-187 | any sequence of blocks keeps four squares |
| `RoundProperties.TapGreenScores` | WhackABlock/GameScene.swift:46-48 | a tap on a green square adds exactly 1 to the score; the square stays green; timer, isAlive, label and the other squares are unchanged; isAlive is not consulted |
| `RoundProperties.TapOtherEndsRound` | WhackABlock/GameScene.swift:49-51 | a tap on a square that is not green leaves isAlive false, timer 0 and the label "Game Over", with score and colours unchanged |
| `RoundProperties.TapBackgroundIsNoOp` | WhackABlock/GameScene.swift:45 | a touch that hits no square sprite changes nothing |
| `RoundProperties.AllGreenTouchesScore` | WhackABlock/GameScene.swift:43-53 | when every touch of an event hits a square that is green, the score rises by the number of touches and nothing else changes |
| `RoundProperties.EventKeepsColours` | WhackABlock/GameScene.swift:43-53 | a touch event, whatever it hits, leaves every square's colour as it was |
| `RoundProperties.EventAliveIff` | WhackABlock/GameScene.swift:43-53 | a live round survives a touch event exactly when none of its touches lands on a square that is not green |
| `RoundProperties.EventExact` | WhackABlock/GameScene.swift:43-53 | the whole effect of any touch event: the score rises by the number of touches on green squares, even those after a touch that ended the round; the round is lost (timer 0, "Game Over") exactly when some touch hits a square that is not green, otherwise nothing but the score changes; the colours stay as they were |
| `RoundProperties.ScoreAfterLossInOneEvent` | WhackABlock/GameScene.swift:43-51 | a touch on a red square followed in the same event by a touch on the green square ends the round and still scores one point |
| `RoundProperties.GameOverIdempotent` | WhackABlock/GameScene.swift:157-159 | game over leaves isAlive false and timer 0 with score and squares kept, and a second call changes nothing more |
| `RoundProperties.TickAfterGameOver` | WhackABlock/GameScene.swift:123-131 | a tick after game over goes from 0 to -1, calls game over again, and ends in the same state |
| `RoundProperties.GameOverStableUnderCountdown` | WhackABlock/GameScene.swift:120-135 | any number of ticks after game over leave the state exactly as game over left it |
| `RoundProperties.CountdownFromStart` | WhackABlock/GameScene.swift:120-135 | from the initial state, after n ≤ 32 ticks the timer is 32 - n and the round is alive; the label keeps the prompt after the first tick, then shows 30 down to 1, and still shows 1 at 0 |
| `RoundProperties.FirstGameOverAtTick33` | WhackABlock/GameScene.swift:129-131 | with no touches the first 32 ticks keep the round alive and the 33rd ends it |
| `RoundProperties.PaintTouchesOnlySelected` | WhackABlock/GameScene.swift:176-184 | a colour change sets the selected square and leaves the other three squares, score, timer, isAlive and label unchanged |
| `RoundProperties.StepNeverRevives` | WhackABlock/GameScene.swift:157-158 | no block sets isAlive from false to true or lowers the score |
| `RoundProperties.NeverRevives` | WhackABlock/GameScene.swift:157-158 | once isAlive is false it stays false under any sequence of blocks |
| `RoundProperties.ScoreNeverDecreases` | WhackABlock/GameScene.swift:152-153 | the score never goes down under any sequence of blocks |
| `RoundProperties.StepKeepsLost` | WhackABlock/GameScene.swift:123-131 | from a lost state (not alive, timer 0, "Game Over"), every single block leaves those three facts true |
| `RoundProperties.LostStaysLost` | WhackABlock/GameScene.swift:157-161 | from a lost state, any sequence of blocks keeps isAlive false, the timer at 0 and the label at "Game Over" |
| `Scene.GameScene.constructor` | WhackABlock/GameScene.swift:22-38 | the new scene is in the initial state: score 0, timer 32, alive, prompt label, four red squares |
| `Scene.GameScene.SpawnSquares` | WhackABlock/GameScene.swift:94-99 | appends four red squares and changes nothing else |
| `Scene.GameScene.TouchesBegan` | WhackABlock/GameScene.swift:40-54 | the loop over the touches has exactly the effect of `Round.TouchesBegan` |
| `Scene.GameScene.CountDownTick` | WhackABlock/GameScene.swift:122-132 | the countdown block has exactly the effect of `Round.Tick` and keeps the four squares |
| `Scene.GameScene.AddToScore` | WhackABlock/GameScene.swift:152-155 | the score rises by exactly 1 and nothing else changes |
| `Scene.GameScene.GameOver` | WhackABlock/GameScene.swift:157-161 | isAlive false, timer 0, label "Game Over"; score and squares kept |
| `Scene.GameScene.ChangeColorGreen` | WhackABlock/GameScene.swift:179-181 | only the selected square changes, and it turns green |
| `Scene.GameScene.ChangeColorRed` | WhackABlock/GameScene.swift:182-184 | only the selected square changes, and it turns red |
| `Scene.GreenTouchScenario` | WhackABlock/GameScene.swift:43-48 | start, two ticks, square 2 turns green, a tap on it: score 1 and still alive |
| `Scene.RedTouchScenario` | WhackABlock/GameScene.swift:49-51 | start, square 0 turns green, a tap on the red square 1: score 0, not alive, timer 0 |

## Left out

- Rendering and layout are left out: label fonts and attributed strings, positions, `squareSize`, `offset`, the background colour and the `addChild` calls. They are presentation through library calls. The main label's text is kept as the abstract `Label`.
- The score label is left out: its text "Score: n" and its removal in `gameOver`. Its text always follows `score`, which is modelled.
- Action timing and scheduling are left out: `waitForDuration`, `repeatActionForever` and `sequence`. The blocks are atomic methods that run in any order the caller picks.
- `squareSpawnTimer` is left out. It reads `isAlive` once, when the scene appears, and `isAlive` is always true then.
- The 2-second transition that `gameOver` schedules to a fresh scene is left out. A fresh scene is a new `GameScene` in its initial state.
- `increaseSpeed` and the `waitTimer` and `pauseTimer` durations are left out. They are floating-point delays that affect only timing.
- `arc4random_uniform(4)` is replaced by a selector parameter below four.
- Hit-testing (`nodeAtPoint`) and the `SKSpriteNode` cast are replaced by `Hit`: a square index, or a node that is not a square sprite.
- The touches of one event are a Swift `Set`. The model takes them as a sequence in the order the loop visits them.
- Swift's `Int` traps on overflow; the model's integers are unbounded. A score or timer of that size cannot be reached in a round.
- The empty `update` method has nothing to model.
