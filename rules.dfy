/** The game's arithmetic, free of any heap: its constants, the word the
    keystroke handler picks, the misses of one tick, the counters a round
    keeps and what starting and ending a round does to them, and the
    accuracy and winner shown on the result screens.

    Positions and speeds are in hundredths of a pixel, so the source's
    0.5 and 0.05 are the integers 50 and 5. */
module Rules {

  datatype Option<T> = None | Some(value: T)

  /** The ten words spawnText picks from. */
  const Words: seq<string> := ["java", "code", "typing", "game", "fun", "random", "fast", "react", "keyboard", "rain"]

  /** Health at the start of every round. */
  const StartHealth: int := 5

  /** Fall per tick at the start of a round: 0.5 pixels. */
  const StartSpeed: int := 50

  /** Extra fall per tick for every completed word: 0.05 pixels. */
  const SpeedStep: int := 5

  /** Math.max. */
  function Max(a: int, b: int): (m: int)
    ensures m >= a && m >= b && (m == a || m == b)
  {
    if a >= b then a else b
  }

  // ---------------------------------------------------------------------
  // Keystrokes

  /** The position the keystroke handler's scan settles on: the first text,
      in list order, that starts with what was typed; |texts| when none does. */
  function FirstMatch(texts: seq<string>, typed: string): (k: nat)
    ensures k <= |texts|
    ensures k < |texts| ==> typed <= texts[k]
    ensures forall j :: 0 <= j < k ==> !(typed <= texts[j])
  {
    if texts == [] then 0
    else if typed <= texts[0] then 0
    else 1 + FirstMatch(texts[1..], typed)
  }

  // ---------------------------------------------------------------------
  // Ticks

  /** A word at height y has fallen past the play area after this tick. */
  predicate Crosses(y: int, speed: int, height: int) {
    y + speed > height
  }

  /** How many of the first n words, at heights ys, fall past the play area
      on a tick. */
  function Misses(ys: seq<int>, speed: int, height: int, n: nat): (m: nat)
    requires n <= |ys|
    ensures m <= n
  {
    if n == 0 then 0
    else Misses(ys, speed, height, n - 1) + if Crosses(ys[n - 1], speed, height) then 1 else 0
  }

  /** A tick costs no health exactly when no word falls out. */
  lemma {:induction false} NoMisses(ys: seq<int>, speed: int, height: int, n: nat)
    requires n <= |ys|
    ensures Misses(ys, speed, height, n) == 0 <==> forall i :: 0 <= i < n ==> !Crosses(ys[i], speed, height)
  {
    if n > 0 {
      NoMisses(ys, speed, height, n - 1);
    }
  }

  /** The tick loop returns at word i: the word crosses, and with the misses
      of the words before it, health has reached 0 or below. */
  predicate StopsAt(ys: seq<int>, speed: int, height: int, health: int, i: int) {
    && 0 <= i < |ys|
    && Crosses(ys[i], speed, height)
    && health - Misses(ys, speed, height, i + 1) <= 0
  }

  /** The word among the first n at which a tick ends the round, if any:
      the first one at which the loop stops. */
  function FirstStop(ys: seq<int>, speed: int, height: int, health: int, n: nat): (r: Option<nat>)
    requires n <= |ys|
    ensures r.Some? ==> r.value < n
  {
    if n == 0 then None
    else
      var r := FirstStop(ys, speed, height, health, n - 1);
      if r.Some? then r
      else if StopsAt(ys, speed, height, health, n - 1) then Some(n - 1)
      else None
  }

  /** FirstStop finds the first word at which the loop stops, and nothing
      before it stops the loop. */
  lemma {:induction false} FirstStopIsFirst(ys: seq<int>, speed: int, height: int, health: int, n: nat)
    requires n <= |ys|
    ensures var r := FirstStop(ys, speed, height, health, n);
            && (r.Some? ==> StopsAt(ys, speed, height, health, r.value))
            && (forall j :: 0 <= j < n && (r.None? || j < r.value) ==> !StopsAt(ys, speed, height, health, j))
  {
    if n > 0 {
      FirstStopIsFirst(ys, speed, height, health, n - 1);
    }
  }

  /** How many words a tick moves: every word, or the words up to and
      including the one at which it stops. */
  function Moved(ys: seq<int>, speed: int, height: int, health: int): nat {
    match FirstStop(ys, speed, height, health, |ys|)
    case Some(k) => k + 1
    case None => |ys|
  }

  /** The tick loop's own account of where it stopped agrees with
      FirstStop: it checked the words before moved without stopping, and
      either stopped at the last of them or checked every word. */
  lemma RunFindsFirstStop(ys: seq<int>, speed: int, height: int, health: int, moved: nat, stop: bool)
    requires 0 < moved <= |ys| || (moved == 0 && !stop)
    requires stop ==> FirstStop(ys, speed, height, health, moved) == Some(moved - 1)
    requires !stop ==> moved == |ys| && FirstStop(ys, speed, height, health, moved) == None
    ensures stop == FirstStop(ys, speed, height, health, |ys|).Some?
    ensures moved == Moved(ys, speed, height, health)
  {
    if stop {
      FirstStopExtends(ys, speed, height, health, moved, |ys|);
    }
  }

  /** Once the loop has stopped within the first m words, looking at more
      words does not move the stop. */
  lemma {:induction false} FirstStopExtends(ys: seq<int>, speed: int, height: int, health: int, m: nat, n: nat)
    requires m <= n <= |ys|
    requires FirstStop(ys, speed, height, health, m).Some?
    ensures FirstStop(ys, speed, height, health, n) == FirstStop(ys, speed, height, health, m)
    decreases n
  {
    if n > m {
      FirstStopExtends(ys, speed, height, health, m, n - 1);
    }
  }

  /** A tick that runs to the end of the list leaves a live round alive:
      health stays above 0 after paying for every miss. */
  lemma {:induction false} NoStopKeepsRoundAlive(ys: seq<int>, speed: int, height: int, health: int, n: nat)
    requires n <= |ys| && health > 0
    requires forall j :: 0 <= j < n ==> !StopsAt(ys, speed, height, health, j)
    ensures health - Misses(ys, speed, height, n) > 0
  {
    if n > 0 {
      if Crosses(ys[n - 1], speed, height) {
        assert !StopsAt(ys, speed, height, health, n - 1);
      } else {
        NoStopKeepsRoundAlive(ys, speed, height, health, n - 1);
      }
    }
  }

  // ---------------------------------------------------------------------
  // The counters of a round and of a match

  /** The game's scalar fields, as one value. */
  datatype Tally = Tally(
    score: int,
    health: int,
    fallingSpeed: int,
    correctLetters: int,
    totalTypedLetters: int,
    highestScore: int,
    isMultiplayer: bool,
    currentPlayer: int,
    player1Score: int,
    player2Score: int)

  /** What every reachable state of the counters satisfies: correct letters
      never outnumber typed ones, the speed is the start speed plus one step
      per point scored, health never exceeds its start value, and there are
      only players 1 and 2. */
  predicate Sound(t: Tally) {
    SoundCounters(t.score, t.health, t.fallingSpeed, t.correctLetters, t.totalTypedLetters,
                  t.highestScore, t.currentPlayer, t.player1Score, t.player2Score)
  }

  /** Sound, on the counters one by one. */
  predicate SoundCounters(score: int, health: int, fallingSpeed: int, correctLetters: int, totalTypedLetters: int,
                          highestScore: int, currentPlayer: int, player1Score: int, player2Score: int) {
    && 0 <= correctLetters <= totalTypedLetters
    && 0 <= score
    && fallingSpeed == StartSpeed + SpeedStep * score
    && health <= StartHealth
    && 0 <= highestScore
    && (currentPlayer == 1 || currentPlayer == 2)
    && 0 <= player1Score && 0 <= player2Score
  }

  /** startGame's resets: a fresh round, with nothing typed and nothing
      scored yet; the match-level fields (the best score, the current player
      and both players' scores) carry over. */
  function StartRound(t: Tally, multiplayer: bool): (r: Tally)
    ensures r.isMultiplayer == multiplayer
    ensures r.score == 0 && r.health == StartHealth && r.fallingSpeed == StartSpeed
    ensures r.correctLetters == 0 && r.totalTypedLetters == 0
    ensures r.highestScore == t.highestScore && r.currentPlayer == t.currentPlayer
    ensures r.player1Score == t.player1Score && r.player2Score == t.player2Score
    ensures Sound(t) ==> Sound(r)
  {
    t.(isMultiplayer := multiplayer, score := 0, health := StartHealth, fallingSpeed := StartSpeed,
       correctLetters := 0, totalTypedLetters := 0)
  }

  /** endGame's bookkeeping. The best score becomes the larger of itself and
      the round's score. In a two-player game, the round of player 1 stores
      the score as player 1's, hands the turn to player 2 and starts a fresh
      round; any other round stores it as player 2's. Nothing ever hands the
      turn back to player 1. */
  function EndRound(t: Tally): (r: Tally)
    ensures r.highestScore >= t.highestScore && r.highestScore >= t.score
    ensures r.highestScore == t.highestScore || r.highestScore == t.score
    ensures r.isMultiplayer == t.isMultiplayer
    ensures r.currentPlayer == if t.isMultiplayer && t.currentPlayer == 1 then 2 else t.currentPlayer
    ensures r.player1Score == if t.isMultiplayer && t.currentPlayer == 1 then t.score else t.player1Score
    ensures r.player2Score == if t.isMultiplayer && t.currentPlayer != 1 then t.score else t.player2Score
    ensures t.isMultiplayer && t.currentPlayer == 1 ==>
              && r.score == 0 && r.health == StartHealth && r.fallingSpeed == StartSpeed
              && r.correctLetters == 0 && r.totalTypedLetters == 0
    ensures !(t.isMultiplayer && t.currentPlayer == 1) ==>
              && r.score == t.score && r.health == t.health && r.fallingSpeed == t.fallingSpeed
              && r.correctLetters == t.correctLetters && r.totalTypedLetters == t.totalTypedLetters
    ensures Sound(t) ==> Sound(r)
  {
    var best := t.(highestScore := Max(t.highestScore, t.score));
    if t.isMultiplayer then
      if t.currentPlayer == 1 then
        StartRound(best.(player1Score := t.score, currentPlayer := 2), true)
      else
        best.(player2Score := t.score)
    else
      best
  }

  // ---------------------------------------------------------------------
  // Result screens

  /** The game-over screen's accuracy: correct letters as a percentage of
      typed letters, and 0 before anything is typed. */
  function Accuracy(correct: int, total: int): (r: real)
    ensures total == 0 ==> r == 0.0
    ensures 0 <= correct <= total ==> 0.0 <= r <= 100.0
    ensures total > 0 ==> (r == 100.0 <==> correct == total)
    ensures total > 0 ==> (r == 0.0 <==> correct == 0)
  {
    if total == 0 then 0.0
    else
      var r := (correct as real / total as real) * 100.0;
      assert correct as real == r * (total as real) / 100.0;
      r
  }

  datatype Verdict = Player1Wins | Player2Wins | Tie

  /** The two-player results screen's verdict. */
  function Winner(player1Score: int, player2Score: int): (v: Verdict)
    ensures v == Player1Wins <==> player1Score > player2Score
    ensures v == Player2Wins <==> player2Score > player1Score
    ensures v == Tie <==> player1Score == player2Score
  {
    if player1Score > player2Score then Player1Wins
    else if player2Score > player1Score then Player2Wins
    else Tie
  }
}
