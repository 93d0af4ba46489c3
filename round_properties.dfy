/** What the round's blocks promise, proved of the functions in module Round. */
module RoundProperties {
  import opened Round

  /** A touch on a green square scores exactly one point; the square stays
      green and nothing else changes. */
  lemma TapGreenScores(s: RoundState, i: nat)
    requires WellFormed(s) && i < SquareCount && s.squares[i] == Green
    ensures Tap(s, SquareAt(i)) == s.(score := s.score + 1)
  {
  }

  /** A touch on a square that is not green ends the round, whether or not it
      had already ended; score and colours are left as they were. */
  lemma TapOtherEndsRound(s: RoundState, i: nat)
    requires WellFormed(s) && i < SquareCount && s.squares[i] != Green
    ensures var r := Tap(s, SquareAt(i));
      !r.isAlive && r.timer == 0 && r.mainLabel == GameOverText &&
      r.score == s.score && r.squares == s.squares
  {
  }

  /** A touch on anything that is not a square sprite does nothing. */
  lemma TapBackgroundIsNoOp(s: RoundState)
    requires WellFormed(s)
    ensures Tap(s, Background) == s
  {
  }

  /** Each touch of an event in turn: when every touch lands on a square that
      is green at the start, the score rises by the number of touches and
      nothing else changes. */
  lemma {:induction false} AllGreenTouchesScore(s: RoundState, hits: seq<Hit>)
    requires WellFormed(s) && ValidHits(hits)
    requires forall k :: 0 <= k < |hits| ==> hits[k].SquareAt? && s.squares[hits[k].index] == Green
    ensures TouchesBegan(s, hits) == s.(score := s.score + |hits|)
    decreases |hits|
  {
    if hits != [] {
      var front := hits[..|hits| - 1];
      AllGreenTouchesScore(s, front);
      var before := TouchesBegan(s, front);
      TapGreenScores(before, hits[|hits| - 1].index);
    }
  }

  /** A touch event never changes a square's colour: a green tap writes
      green over green, and the other branches leave the squares alone. */
  lemma {:induction false} EventKeepsColours(s: RoundState, hits: seq<Hit>)
    requires WellFormed(s) && ValidHits(hits)
    ensures TouchesBegan(s, hits).squares == s.squares
    decreases |hits|
  {
    if hits != [] {
      var front := hits[..|hits| - 1];
      EventKeepsColours(s, front);
      var before := TouchesBegan(s, front);
      var h := hits[|hits| - 1];
      if h.SquareAt? && before.squares[h.index] == Green {
        assert before.squares[h.index := Green] == before.squares;
      }
    }
  }

  /** A live round survives a touch event exactly when no touch of the event
      lands on a square that is not green. */
  lemma {:induction false} EventAliveIff(s: RoundState, hits: seq<Hit>)
    requires WellFormed(s) && ValidHits(hits) && s.isAlive
    ensures TouchesBegan(s, hits).isAlive <==>
      forall k :: 0 <= k < |hits| ==> hits[k].SquareAt? ==> s.squares[hits[k].index] == Green
    decreases |hits|
  {
    if hits != [] {
      var front := hits[..|hits| - 1];
      EventAliveIff(s, front);
      EventKeepsColours(s, front);
      assert forall k :: 0 <= k < |front| ==> front[k] == hits[k];
    }
  }

  /** A touch on a square that is green in `s`. */
  predicate IsGreenTouch(s: RoundState, h: Hit)
    requires WellFormed(s) && ValidHit(h)
  {
    h.SquareAt? && s.squares[h.index] == Green
  }

  /** A touch on a square that is not green in `s`. */
  predicate IsRedTouch(s: RoundState, h: Hit)
    requires WellFormed(s) && ValidHit(h)
  {
    h.SquareAt? && s.squares[h.index] != Green
  }

  /** Some touch of the event lands on a square that is not green in `s`. */
  predicate AnyRed(s: RoundState, hits: seq<Hit>)
    requires WellFormed(s) && ValidHits(hits)
  {
    exists k :: 0 <= k < |hits| && IsRedTouch(s, hits[k])
  }

  /** The number of touches of the event that land on a square green in `s`. */
  function GreenTouches(s: RoundState, hits: seq<Hit>): nat
    requires WellFormed(s) && ValidHits(hits)
    decreases |hits|
  {
    if hits == [] then 0
    else GreenTouches(s, hits[..|hits| - 1]) + (if IsGreenTouch(s, hits[|hits| - 1]) then 1 else 0)
  }

  /** The whole effect of a touch event, whatever it hits: every touch on a
      green square scores, even one after a touch on a red square has ended
      the round, since the loop goes on over the remaining touches; the round
      is lost exactly when some touch hits a square that is not green. */
  lemma {:induction false} EventExact(s: RoundState, hits: seq<Hit>)
    requires WellFormed(s) && ValidHits(hits)
    ensures TouchesBegan(s, hits) ==
      (if AnyRed(s, hits) then GameOver(s) else s).(score := s.score + GreenTouches(s, hits))
    decreases |hits|
  {
    if hits != [] {
      var front := hits[..|hits| - 1];
      var h := hits[|hits| - 1];
      EventExact(s, front);
      EventKeepsColours(s, front);
      assert forall k :: 0 <= k < |front| ==> front[k] == hits[k];
      assert AnyRed(s, hits) <==> AnyRed(s, front) || IsRedTouch(s, h) by {
        if IsRedTouch(s, h) {
          assert IsRedTouch(s, hits[|hits| - 1]);
        }
        if AnyRed(s, hits) && !IsRedTouch(s, h) {
          var k :| 0 <= k < |hits| && IsRedTouch(s, hits[k]);
          assert k < |front|;
        }
      }
      var before := TouchesBegan(s, front);
      if IsGreenTouch(s, h) {
        assert before.squares[h.index := Green] == before.squares;
      }
    }
  }

  /** Taps are not gated by `isAlive`: in one event, a touch on a red square
      ends the round and a later touch on the green square still scores. */
  lemma ScoreAfterLossInOneEvent(s: RoundState)
    requires s.squares == [Green, Red, Red, Red]
    ensures var r := TouchesBegan(s, [SquareAt(1), SquareAt(0)]);
      !r.isAlive && r.timer == 0 && r.mainLabel == GameOverText &&
      r.score == s.score + 1 && r.squares == s.squares
  {
    var hits := [SquareAt(1), SquareAt(0)];
    assert hits[..1] == [SquareAt(1)] && hits[..1][..0] == [];
  }

  /** `gameOver` leaves the round lost with the timer at zero, and a second
      call changes nothing more. */
  lemma GameOverIdempotent(s: RoundState)
    ensures !GameOver(s).isAlive && GameOver(s).timer == 0
    ensures GameOver(s).score == s.score && GameOver(s).squares == s.squares
    ensures GameOver(GameOver(s)) == GameOver(s)
  {
  }

  /** A tick after `gameOver` takes the timer to -1, which calls `gameOver`
      again and brings it back to 0. */
  lemma TickAfterGameOver(s: RoundState)
    ensures Tick(GameOver(s)) == GameOver(s)
  {
  }

  /** Game over is stable under any number of further ticks. */
  lemma {:induction false} GameOverStableUnderCountdown(s: RoundState, n: nat)
    ensures Countdown(GameOver(s), n) == GameOver(s)
  {
    if n > 0 {
      GameOverStableUnderCountdown(s, n - 1);
      TickAfterGameOver(s);
    }
  }

  /** From the start of a round, the first 32 ticks count the timer down to
      zero and keep the round alive. The label keeps the prompt after the
      first tick (31 is not shown), then shows 30 down to 1, and still shows
      1 when the timer reaches 0. */
  lemma {:induction false} CountdownFromStart(n: nat)
    requires n <= StartTimer
    ensures Countdown(Initial(), n) == Initial().(
      timer := StartTimer - n,
      mainLabel := if n <= 1 then Prompt else if n == StartTimer then Seconds(1) else Seconds(StartTimer - n))
  {
    if n > 0 {
      CountdownFromStart(n - 1);
    }
  }

  /** With no touches, the 33rd tick is the first that ends the round. */
  lemma FirstGameOverAtTick33()
    ensures forall n: nat :: n <= StartTimer ==> Countdown(Initial(), n).isAlive
    ensures !Countdown(Initial(), StartTimer + 1).isAlive
    ensures Countdown(Initial(), StartTimer + 1) == GameOver(Initial())
  {
    forall n: nat | n <= StartTimer
      ensures Countdown(Initial(), n).isAlive
    {
      CountdownFromStart(n);
    }
    CountdownFromStart(StartTimer);
  }

  /** The colour change blocks touch only the selected square. */
  lemma PaintTouchesOnlySelected(s: RoundState, i: nat, c: Color)
    requires WellFormed(s) && i < SquareCount
    ensures var r := Paint(s, i, c);
      r.squares[i] == c &&
      (forall j :: 0 <= j < SquareCount && j != i ==> r.squares[j] == s.squares[j]) &&
      r.score == s.score && r.timer == s.timer && r.isAlive == s.isAlive &&
      r.mainLabel == s.mainLabel
  {
  }

  /** No block ever sets `isAlive` back to true. */
  lemma StepNeverRevives(s: RoundState, a: Action)
    requires WellFormed(s) && ValidAction(a)
    ensures Step(s, a).isAlive ==> s.isAlive
    ensures Step(s, a).score >= s.score
  {
  }

  /** Once the round is lost it stays lost, whatever blocks run after. */
  lemma {:induction false} NeverRevives(s: RoundState, actions: seq<Action>)
    requires WellFormed(s) && ValidActions(actions)
    ensures Run(s, actions).isAlive ==> s.isAlive
    decreases |actions|
  {
    if actions != [] {
      StepNeverRevives(s, actions[0]);
      NeverRevives(Step(s, actions[0]), actions[1..]);
    }
  }

  /** The score never goes down. */
  lemma {:induction false} ScoreNeverDecreases(s: RoundState, actions: seq<Action>)
    requires WellFormed(s) && ValidActions(actions)
    ensures Run(s, actions).score >= s.score
    decreases |actions|
  {
    if actions != [] {
      StepNeverRevives(s, actions[0]);
      ScoreNeverDecreases(Step(s, actions[0]), actions[1..]);
    }
  }

  /** A lost round with the timer at zero stays exactly that under any single
      block: a tick goes to -1 and back to 0, a tap on a red square calls
      `gameOver` again, a green tap and a colour change leave the timer alone. */
  lemma StepKeepsLost(s: RoundState, a: Action)
    requires WellFormed(s) && ValidAction(a)
    requires !s.isAlive && s.timer == 0 && s.mainLabel == GameOverText
    ensures var r := Step(s, a);
      !r.isAlive && r.timer == 0 && r.mainLabel == GameOverText
  {
  }

  /** Once lost, the round keeps isAlive false, the timer at 0 and the label
      at "Game Over", whatever blocks run after. */
  lemma {:induction false} LostStaysLost(s: RoundState, actions: seq<Action>)
    requires WellFormed(s) && ValidActions(actions)
    requires !s.isAlive && s.timer == 0 && s.mainLabel == GameOverText
    ensures var r := Run(s, actions);
      !r.isAlive && r.timer == 0 && r.mainLabel == GameOverText
    decreases |actions|
  {
    if actions != [] {
      StepKeepsLost(s, actions[0]);
      LostStaysLost(Step(s, actions[0]), actions[1..]);
    }
  }
}
