/** The game state of BrandNewTypingGame with its widgets stripped away:
    the falling words, the focused word, and the counters of the round and
    of the match, changed in place by keystrokes, ticks, spawns and the
    round's start, restart and end. */
module TypingGame {

  import opened Rules
  import opened Strings
  import opened Lists

  /** A falling word: the source's Label, reduced to what the game reads
      from it, the remaining text and the vertical position. */
  class Word {
    var text: string
    var y: int

    constructor (text: string)
      ensures this.text == text && y == 0
    {
      this.text := text;
      y := 0;
    }
  }

  /** The remaining texts of ws, in list order. */
  ghost function TextsOf(ws: seq<Word>): (r: seq<string>)
    reads ws
    ensures |r| == |ws| && forall i :: 0 <= i < |ws| ==> r[i] == ws[i].text
  {
    if ws == [] then [] else TextsOf(ws[..|ws| - 1]) + [ws[|ws| - 1].text]
  }

  /** The vertical positions of ws, in list order. */
  ghost function YsOf(ws: seq<Word>): (r: seq<int>)
    reads ws
    ensures |r| == |ws| && forall i :: 0 <= i < |ws| ==> r[i] == ws[i].y
  {
    if ws == [] then [] else YsOf(ws[..|ws| - 1]) + [ws[|ws| - 1].y]
  }

  /** The word a keystroke advances, given the word list, the focused word
      and the focus flag. With a focused word: that word, when its text
      starts with what was typed. With none: the first word in list order
      whose text starts with it, unless the flag still says a word is
      focused. Nothing for a blank keystroke. */
  ghost function TargetOf(ws: seq<Word>, focus: Word?, focusFlag: bool, typed: string): Word?
    reads ws, focus
  {
    if typed == [] then null
    else if focus != null then
      if typed <= focus.text then focus else null
    else if focusFlag then null
    else
      var k := FirstMatch(TextsOf(ws), typed);
      if k < |ws| then ws[k] else null
  }

  /** A keystroke advances a word only when it is not blank and the word's
      text starts with it: the focused word if there is one (and then
      exactly when its text starts with the keystroke), and otherwise
      the first such word in list order, unless the flag still says a word
      is focused. A keystroke that finds no word while the focus is free
      matches no word in the list. */
  lemma TargetOfIsFirst(ws: seq<Word>, focus: Word?, focusFlag: bool, typed: string)
    ensures var w := TargetOf(ws, focus, focusFlag, typed);
            && (w != null ==> typed != [] && typed <= w.text)
            && (w != null && focus != null ==> w == focus)
            && (typed != [] && focus != null && typed <= focus.text ==> w == focus)
            && (w != null && focus == null ==>
                  && !focusFlag
                  && exists k :: 0 <= k < |ws| && ws[k] == w && forall j :: 0 <= j < k ==> !(typed <= ws[j].text))
            && (w == null && typed != [] && focus == null && !focusFlag ==>
                  forall v :: v in ws ==> !(typed <= v.text))
  {
    if typed != [] && focus == null && !focusFlag {
      var texts := TextsOf(ws);
      var k := FirstMatch(texts, typed);
      if k < |ws| {
        assert ws[k] == TargetOf(ws, focus, focusFlag, typed);
      }
    }
  }

  /** The first n words of ws whose positions ys cross the play area after
      a fall of speed, in list order: the words the tick collects for
      removal. */
  function Crossing(ws: seq<Word>, ys: seq<int>, speed: int, height: int, n: nat): (r: seq<Word>)
    requires n <= |ws| == |ys|
    ensures |r| <= n
  {
    if n == 0 then []
    else Crossing(ws, ys, speed, height, n - 1) + if Crosses(ys[n - 1], speed, height) then [ws[n - 1]] else []
  }

  /** On a list without duplicates, a word is collected exactly when its
      position crosses, and only words among the first n are collected. */
  lemma {:induction false} CrossingMembers(ws: seq<Word>, ys: seq<int>, speed: int, height: int, n: nat)
    requires n <= |ws| == |ys| && Distinct(ws)
    ensures forall k :: 0 <= k < n ==> (ws[k] in Crossing(ws, ys, speed, height, n) <==> Crosses(ys[k], speed, height))
    ensures forall w :: w in Crossing(ws, ys, speed, height, n) ==> w in ws[..n]
  {
    if n > 0 {
      CrossingMembers(ws, ys, speed, height, n - 1);
      assert ws[..n] == ws[..n - 1] + [ws[n - 1]];
      forall k | 0 <= k < n - 1
        ensures ws[k] != ws[n - 1]
      {
        DistinctApart(ws, k, n - 1);
      }
    }
  }

  /** A tick charges one health per collected word: the misses among the
      first n words are as many as the words collected among them. */
  lemma {:induction false} MissesAreCollected(ws: seq<Word>, ys: seq<int>, speed: int, height: int, n: nat)
    requires n <= |ws| == |ys|
    ensures Misses(ys, speed, height, n) == |Crossing(ws, ys, speed, height, n)|
  {
    if n > 0 {
      MissesAreCollected(ws, ys, speed, height, n - 1);
    }
  }

  /** The words of ws that have fallen below height. */
  ghost function Fallen(ws: seq<Word>, height: int): set<Word>
    reads ws
  {
    set w | w in ws && w.y > height
  }

  /** What the tick's first loop amounts to. Its own account (it moved the
      first moved words by speed, and either stopped at the last of them or
      moved them all and collected the crossing ones in toRemove) agrees with
      FirstStop and Moved; when it did not stop, toRemove holds exactly the
      words that have now fallen below height, and a live round is still
      alive. */
  lemma TickOutcome(ws: seq<Word>, ys: seq<int>, speed: int, height: int, health: int,
                    moved: nat, stop: bool, toRemove: seq<Word>)
    requires |ws| == |ys| && Distinct(ws)
    requires forall i :: 0 <= i < |ys| ==> ws[i].y == ys[i] + if i < moved then speed else 0
    requires stop ==> 0 < moved <= |ys| && FirstStop(ys, speed, height, health, moved) == Some(moved - 1)
    requires !stop ==> moved == |ys| && FirstStop(ys, speed, height, health, moved) == None
    requires !stop ==> toRemove == Crossing(ws, ys, speed, height, |ys|)
    ensures stop == FirstStop(ys, speed, height, health, |ys|).Some?
    ensures moved == Moved(ys, speed, height, health)
    ensures !stop ==> forall x :: x in toRemove <==> x in Fallen(ws, height)
    ensures !stop && health > 0 ==> health - Misses(ys, speed, height, moved) > 0
  {
    RunFindsFirstStop(ys, speed, height, health, moved, stop);
    if !stop {
      if health > 0 {
        FirstStopIsFirst(ys, speed, height, health, |ys|);
        NoStopKeepsRoundAlive(ys, speed, height, health, |ys|);
      }
      CrossingMembers(ws, ys, speed, height, |ws|);
      assert ws[..|ws|] == ws;
    }
  }

  class Game {
    var fallingTexts: seq<Word>
    /** May point at a word that has already left fallingTexts. */
    var focusedText: Word?
    var isWordFocused: bool
    var score: int
    var health: int
    /** Fall per tick, in hundredths of a pixel. */
    var fallingSpeed: int
    var correctLetters: int
    var totalTypedLetters: int
    var highestScore: int
    var isMultiplayer: bool
    var currentPlayer: int
    var player1Score: int
    var player2Score: int

    /** The scalar fields as one value. */
    ghost function Counters(): Tally
      reads this`score, this`health, this`fallingSpeed, this`correctLetters, this`totalTypedLetters
      reads this`highestScore, this`isMultiplayer, this`currentPlayer, this`player1Score, this`player2Score
    {
      Tally(score, health, fallingSpeed, correctLetters, totalTypedLetters,
            highestScore, isMultiplayer, currentPlayer, player1Score, player2Score)
    }

    /** What every operation keeps of the words: no word twice in the list,
        no listed or focused word with an empty text, and a focused word only
        while the focus flag is set. */
    ghost predicate WordsValid()
      reads this`fallingTexts, this`focusedText, this`isWordFocused, fallingTexts`text, {focusedText}`text
    {
      && Distinct(fallingTexts)
      && (forall w :: w in fallingTexts ==> w.text != [])
      && (focusedText != null ==> focusedText.text != [] && isWordFocused)
    }

    /** What every operation keeps: sound counters and valid words. */
    ghost predicate Valid()
      reads this`score, this`health, this`fallingSpeed, this`correctLetters, this`totalTypedLetters
      reads this`highestScore, this`isMultiplayer, this`currentPlayer, this`player1Score, this`player2Score
      reads this`fallingTexts, this`focusedText, this`isWordFocused, fallingTexts`text, {focusedText}`text
    {
      && SoundCounters(score, health, fallingSpeed, correctLetters, totalTypedLetters,
                       highestScore, currentPlayer, player1Score, player2Score)
      && WordsValid()
    }

    /** The flag says a word is focused but none is. Then no keystroke can
        focus a word again until a restart clears the flag. */
    ghost predicate FocusLocked()
      reads this`isWordFocused, this`focusedText
    {
      isWordFocused && focusedText == null
    }

    /** The field initialisers. */
    constructor ()
      ensures Valid() && !FocusLocked()
      ensures fallingTexts == [] && focusedText == null && !isWordFocused
      ensures Counters() == Tally(0, StartHealth, StartSpeed, 0, 0, 0, false, 1, 0, 0)
    {
      fallingTexts := [];
      focusedText := null;
      isWordFocused := false;
      score := 0;
      health := StartHealth;
      fallingSpeed := StartSpeed;
      correctLetters := 0;
      totalTypedLetters := 0;
      highestScore := 0;
      isMultiplayer := false;
      currentPlayer := 1;
      player1Score := 0;
      player2Score := 0;
    }

    // -------------------------------------------------------------------
    // Keystrokes

    /** What a keystroke does to the words, the focus, the flag, the score
        and the speed, given the list ws and the focused word focus before
        it and the word w it advances (null for none). Without a target
        nothing here changes. The target loses exactly its first character
        and no other text changes; once empty, the target
        leaves the list, the focus and its flag are cleared and the round
        scores; otherwise the target is the focused word. */
    twostate predicate Advanced(ws: seq<Word>, focus: Word?, w: Word?)
      reads this, ws, focus, w
    {
      && (w == null ==>
            && fallingTexts == ws && focusedText == focus && isWordFocused == old(isWordFocused)
            && score == old(score) && fallingSpeed == old(fallingSpeed)
            && (forall v :: v in ws ==> v.text == old(v.text))
            && (focus != null ==> focus.text == old(focus.text)))
      && (w != null ==>
            && old(w.text) != [] && w.text == old(w.text)[1..]
            && (forall v :: v in ws && v != w ==> v.text == old(v.text))
            && (w.text == [] ==>
                  && fallingTexts == RemoveFirst<Word>(ws, w) && focusedText == null && !isWordFocused
                  && score == old(score) + 1 && fallingSpeed == old(fallingSpeed) + SpeedStep)
            && (w.text != [] ==>
                  && fallingTexts == ws && focusedText == w && isWordFocused
                  && score == old(score) && fallingSpeed == old(fallingSpeed)))
    }

    /** handleTyping: one keystroke, given as the raw character string. */
    method HandleTyping(character: string)
      requires Valid()
      modifies this`totalTypedLetters, this`correctLetters, this`fallingTexts, this`focusedText, this`isWordFocused, this`score, this`fallingSpeed
      modifies fallingTexts`text, {focusedText}`text
      ensures Valid()
      ensures FocusLocked() == old(FocusLocked())
      // Every keystroke that is not blank is counted once. It is counted as
      // correct only when a word was already focused and starts with it.
      ensures totalTypedLetters == old(totalTypedLetters) + if Trim(character) == [] then 0 else 1
      ensures correctLetters == old(correctLetters) +
                if Trim(character) != [] && old(focusedText) != null && Trim(character) <= old(focusedText.text)
                then 1 else 0
      ensures health == old(health) && highestScore == old(highestScore) && isMultiplayer == old(isMultiplayer)
      ensures currentPlayer == old(currentPlayer) && player1Score == old(player1Score) && player2Score == old(player2Score)
      ensures Advanced(old(fallingTexts), old(focusedText),
                       old(TargetOf(fallingTexts, focusedText, isWordFocused, Trim(character))))
    {
      var typed := Trim(character);
      if typed != [] {
        if focusedText != null {
          TypeIntoFocused(typed);
        } else {
          FocusFirstMatch(typed);
        }
      }
    }

    /** handleTyping for a keystroke that is not blank, with a focused word
        (which may already have left the list): the keystroke is counted, and
        counted as correct when the focused text starts with it; then it
        strips the first character, and completes the word once the text is
        empty; any other keystroke changes nothing more. */
    method TypeIntoFocused(typed: string)
      requires Valid() && focusedText != null && typed != []
      modifies this`totalTypedLetters, this`correctLetters, this`fallingTexts, this`focusedText, this`isWordFocused, this`score, this`fallingSpeed
      modifies focusedText`text
      ensures Valid()
      ensures Advanced(old(fallingTexts), old(focusedText), old(TargetOf(fallingTexts, focusedText, isWordFocused, typed)))
      ensures totalTypedLetters == old(totalTypedLetters) + 1
      ensures correctLetters == old(correctLetters) + if typed <= old(focusedText.text) then 1 else 0
      ensures health == old(health) && highestScore == old(highestScore) && isMultiplayer == old(isMultiplayer)
      ensures currentPlayer == old(currentPlayer) && player1Score == old(player1Score) && player2Score == old(player2Score)
    {
      totalTypedLetters := totalTypedLetters + 1;
      if focusedText != null && typed <= focusedText.text {
        correctLetters := correctLetters + 1;
      }
      var currentWord := focusedText.text;
      if typed <= currentWord {
        focusedText.text := currentWord[1..];
        if focusedText.text == [] {
          CompleteFocusedWord();
        }
      }
    }

    /** handleTyping for a keystroke that is not blank, without a focused
        word: the keystroke is counted (never as correct), then the scan over
        the list in order. Unless the flag still says a word is focused, the
        first word whose text starts with the keystroke becomes the focused
        word. */
    method FocusFirstMatch(typed: string)
      requires Valid() && focusedText == null && typed != []
      modifies this`totalTypedLetters, this`correctLetters, this`fallingTexts, this`focusedText, this`isWordFocused, this`score, this`fallingSpeed
      modifies fallingTexts`text
      ensures Valid()
      ensures Advanced(old(fallingTexts), null, old(TargetOf(fallingTexts, focusedText, isWordFocused, typed)))
      ensures totalTypedLetters == old(totalTypedLetters) + 1 && correctLetters == old(correctLetters)
    {
      ghost var target := TargetOf(fallingTexts, focusedText, isWordFocused, typed);
      ghost var texts := TextsOf(fallingTexts);
      totalTypedLetters := totalTypedLetters + 1;
      label Scan:
      var i := 0;
      while i < |fallingTexts|
        invariant 0 <= i <= |fallingTexts| == |texts|
        invariant unchanged@Scan(this) && unchanged@Scan(fallingTexts)
        invariant !isWordFocused ==> forall j :: 0 <= j < i ==> !(typed <= texts[j])
      {
        var text := fallingTexts[i];
        if typed <= text.text && !isWordFocused {
          assert FirstMatch(texts, typed) == i;
          FocusOn(text);
          return;
        }
        i := i + 1;
      }
    }

    /** The block the scan runs on the word it settles on: the word becomes
        the focused word and loses its first character at once, and a
        one-letter word completes on the spot. */
    method FocusOn(w: Word)
      requires Valid() && focusedText == null && !isWordFocused && w in fallingTexts
      modifies this`fallingTexts, this`focusedText, this`isWordFocused, this`score, this`fallingSpeed, w`text
      ensures Valid()
      ensures Advanced(old(fallingTexts), null, w)
    {
      focusedText := w;
      w.text := w.text[1..];
      isWordFocused := true;
      if focusedText.text == [] {
        CompleteFocusedWord();
      }
    }

    /** The block both branches of handleTyping run when the word they just
        shortened is empty: the word leaves the list (a no-op when a miss
        already took it out), the focus and its flag are cleared, the score
        rises by one and the speed by one step. */
    method CompleteFocusedWord()
      requires focusedText != null && focusedText.text == []
      requires Sound(Counters()) && Distinct(fallingTexts)
      requires forall w :: w in fallingTexts && w != focusedText ==> w.text != []
      modifies this`fallingTexts, this`focusedText, this`isWordFocused, this`score, this`fallingSpeed
      ensures Valid() && !FocusLocked()
      ensures fallingTexts == RemoveFirst<Word>(old(fallingTexts), old(focusedText))
      ensures focusedText == null && !isWordFocused
      ensures Counters() == old(Counters()).(score := old(score) + 1, fallingSpeed := old(fallingSpeed) + SpeedStep)
    {
      var w: Word := focusedText;
      RemoveFirstDistinct(fallingTexts, w);
      WithoutDistinct(fallingTexts, {w});
      fallingTexts := RemoveFirst(fallingTexts, w);
      focusedText := null;
      score := score + 1;
      fallingSpeed := fallingSpeed + SpeedStep;
      isWordFocused := false;
    }

    // -------------------------------------------------------------------
    // Ticks

    /** updateFallingTexts: every word falls by the speed, in list order;
        a word below the play area costs one health; the tick ends the round
        and returns the moment health reaches 0 or below, and otherwise drops
        every word that fell out. height is the play area's height. The
        result says whether the round ended. */
    method UpdateFallingTexts(height: int) returns (ended: bool)
      requires Valid()
      modifies this`fallingTexts, this`score, this`health, this`fallingSpeed, this`correctLetters, this`totalTypedLetters,
               this`highestScore, this`isMultiplayer, this`currentPlayer, this`player1Score, this`player2Score
      modifies fallingTexts`y
      ensures Valid()
      ensures var ys := old(YsOf(fallingTexts));
              var n := Moved(ys, old(fallingSpeed), height, old(health));
              var tick := old(Counters()).(health := old(health) - Misses(ys, old(fallingSpeed), height, n));
              && ended == FirstStop(ys, old(fallingSpeed), height, old(health), |ys|).Some?
              && (forall i :: 0 <= i < |ys| ==>
                    old(fallingTexts)[i].y == ys[i] + if i < n then old(fallingSpeed) else 0)
              && Counters() == if ended then EndRound(tick) else tick
      // A miss never takes the focus away.
      ensures focusedText == old(focusedText) && isWordFocused == old(isWordFocused)
      ensures ended ==> fallingTexts == old(fallingTexts)
      ensures !ended ==> fallingTexts == Without(old(fallingTexts), Fallen(old(fallingTexts), height))
      ensures !ended && old(health) > 0 ==> health > 0
    {
      var toRemove;
      ended, toRemove := FallAll(height);
      if ended {
        EndGame();
        return;
      }
      RemoveEach(toRemove, Fallen(old(fallingTexts), height));
    }

    /** The tick's first loop with its outcome stated against the state
        before it: which words moved, what health is left, whether the loop
        stopped, and, when it did not, that toRemove holds exactly the words
        that have fallen out. */
    method FallAll(height: int) returns (stop: bool, toRemove: seq<Word>)
      requires Valid()
      modifies this`health, fallingTexts`y
      ensures Valid()
      ensures var ys := old(YsOf(fallingTexts));
              var n := Moved(ys, old(fallingSpeed), height, old(health));
              && stop == FirstStop(ys, old(fallingSpeed), height, old(health), |ys|).Some?
              && (forall i :: 0 <= i < |ys| ==> old(fallingTexts)[i].y == ys[i] + if i < n then old(fallingSpeed) else 0)
              && Counters() == old(Counters()).(health := old(health) - Misses(ys, old(fallingSpeed), height, n))
      ensures !stop ==> forall x :: x in toRemove <==> x in Fallen(fallingTexts, height)
      ensures !stop && old(health) > 0 ==> health > 0
    {
      ghost var ys := YsOf(fallingTexts);
      ghost var moved;
      stop, toRemove, moved := MoveWords(height, ys);
      TickOutcome(fallingTexts, ys, fallingSpeed, height, old(health), moved, stop, toRemove);
    }

    /** The tick's first loop: moves the words down one by one and charges
        one health for each that falls out, collecting those in toRemove,
        and stops right after the word at which health reaches 0 or below.
        moved counts the words it moved. */
    method MoveWords(height: int, ghost ys: seq<int>) returns (stop: bool, toRemove: seq<Word>, ghost moved: nat)
      requires Distinct(fallingTexts)
      requires |ys| == |fallingTexts| && forall i :: 0 <= i < |ys| ==> fallingTexts[i].y == ys[i]
      modifies this`health, fallingTexts`y
      ensures moved <= |ys|
      ensures forall i :: 0 <= i < |ys| ==> fallingTexts[i].y == ys[i] + if i < moved then fallingSpeed else 0
      ensures health == old(health) - Misses(ys, fallingSpeed, height, moved)
      ensures stop ==> 0 < moved && FirstStop(ys, fallingSpeed, height, old(health), moved) == Some(moved - 1)
      ensures !stop ==> moved == |ys| && FirstStop(ys, fallingSpeed, height, old(health), moved) == None
      ensures !stop ==> toRemove == Crossing(fallingTexts, ys, fallingSpeed, height, |ys|)
    {
      ghost var h0 := health;
      var ws := fallingTexts;
      var speed := fallingSpeed;
      toRemove := [];
      stop := false;
      var i := 0;
      while i < |ws| && !stop
        invariant 0 <= i <= |ws| == |ys|
        invariant forall j :: 0 <= j < |ys| ==> ws[j].y == ys[j] + if j < i then speed else 0
        invariant health == h0 - Misses(ys, speed, height, i)
        invariant !stop ==> FirstStop(ys, speed, height, h0, i) == None
        invariant stop ==> 0 < i && FirstStop(ys, speed, height, h0, i) == Some(i - 1)
        invariant !stop ==> toRemove == Crossing(ws, ys, speed, height, i)
      {
        DistinctAt(ws, i);
        var text := ws[i];
        text.y := text.y + speed;
        if text.y > height {
          toRemove := toRemove + [text];
          health := health - 1;
          stop := health <= 0;
        }
        i := i + 1;
      }
      moved := i;
    }

    /** The tick's second loop: List.remove of each collected word in turn,
        which on a list without duplicates drops exactly those words. */
    method RemoveEach(toRemove: seq<Word>, ghost removed: set<Word>)
      requires WordsValid()
      requires forall x :: x in removed <==> x in toRemove
      modifies this`fallingTexts
      ensures WordsValid()
      ensures fallingTexts == Without(old(fallingTexts), removed)
    {
      WithoutElems(fallingTexts, toRemove, removed);
      WithoutDistinct(fallingTexts, removed);
      RemoveInTurn(toRemove);
    }

    /** List.remove of each word of toRemove in turn. */
    method RemoveInTurn(toRemove: seq<Word>)
      requires Distinct(fallingTexts)
      modifies this`fallingTexts
      ensures fallingTexts == Without(old(fallingTexts), Elems(toRemove))
    {
      ghost var s0 := fallingTexts;
      WithoutNone(s0, {});
      var j := 0;
      while j < |toRemove|
        invariant 0 <= j <= |toRemove|
        invariant fallingTexts == Without(s0, Elems(toRemove[..j]))
      {
        RemoveOneMore(s0, Elems(toRemove[..j]), toRemove[j]);
        ElemsPrefix(toRemove, j);
        fallingTexts := RemoveFirst(fallingTexts, toRemove[j]);
        j := j + 1;
      }
      assert toRemove[..j] == toRemove;
    }

    // -------------------------------------------------------------------
    // Spawning

    /** spawnText: appends a fresh word at the top of the play area. pick
        stands for the random index into the word list. */
    method SpawnText(pick: int)
      requires Valid()
      requires 0 <= pick < |Words|
      modifies this`fallingTexts
      ensures Valid()
      ensures |fallingTexts| == |old(fallingTexts)| + 1 && fallingTexts[..|old(fallingTexts)|] == old(fallingTexts)
      ensures var w := fallingTexts[|fallingTexts| - 1]; fresh(w) && w.text == Words[pick] && w.y == 0
    {
      var text := new Word(Words[pick]);
      DistinctSnoc(fallingTexts, text);
      fallingTexts := fallingTexts + [text];
    }

    // -------------------------------------------------------------------
    // Starting and ending rounds

    /** startGame's bookkeeping: a fresh round's counters. The word list and
        the focus are left as they are. */
    method StartGame(multiplayer: bool)
      requires Valid()
      modifies this`isMultiplayer, this`score, this`health, this`fallingSpeed, this`correctLetters, this`totalTypedLetters
      ensures Valid()
      ensures Counters() == StartRound(old(Counters()), multiplayer)
      ensures fallingTexts == old(fallingTexts) && focusedText == old(focusedText) && isWordFocused == old(isWordFocused)
    {
      isMultiplayer := multiplayer;
      score := 0;
      health := StartHealth;
      fallingSpeed := StartSpeed;
      correctLetters := 0;
      totalTypedLetters := 0;
    }

    /** restartGame: empties the list, clears the focus and its flag, resets
        the round's counters and starts a round in the same mode. */
    method RestartGame()
      requires Valid()
      modifies this`fallingTexts, this`focusedText, this`isWordFocused
      modifies this`isMultiplayer, this`score, this`health, this`fallingSpeed, this`correctLetters, this`totalTypedLetters
      ensures Valid() && !FocusLocked()
      ensures fallingTexts == [] && focusedText == null && !isWordFocused
      ensures Counters() == StartRound(old(Counters()), old(isMultiplayer))
    {
      fallingTexts := [];
      focusedText := null;
      isWordFocused := false;
      score := 0;
      health := StartHealth;
      fallingSpeed := StartSpeed;
      correctLetters := 0;
      totalTypedLetters := 0;
      StartGame(isMultiplayer);
    }

    /** clearGameElements: empties the list and clears the focus and its flag. */
    method ClearGameElements()
      requires Valid()
      modifies this`fallingTexts, this`focusedText, this`isWordFocused
      ensures Valid() && !FocusLocked()
      ensures fallingTexts == [] && focusedText == null && !isWordFocused
    {
      fallingTexts := [];
      focusedText := null;
      isWordFocused := false;
    }

    /** The pause menu's "Main Menu" button: empties the list and clears the
        focus, but leaves the focus flag set if it was. */
    method ReturnToMainMenu()
      requires Valid()
      modifies this`fallingTexts, this`focusedText
      ensures Valid()
      ensures fallingTexts == [] && focusedText == null && isWordFocused == old(isWordFocused)
      ensures FocusLocked() == old(isWordFocused)
    {
      fallingTexts := [];
      focusedText := null;
    }

    /** endGame: the round's bookkeeping, then the game-over screen, the
        hand-off to player 2, or the two-player results. */
    method EndGame()
      requires Valid()
      modifies this`highestScore, this`currentPlayer, this`player1Score, this`player2Score
      modifies this`isMultiplayer, this`score, this`health, this`fallingSpeed, this`correctLetters, this`totalTypedLetters
      ensures Valid()
      ensures Counters() == EndRound(old(Counters()))
      ensures fallingTexts == old(fallingTexts) && focusedText == old(focusedText) && isWordFocused == old(isWordFocused)
    {
      highestScore := Max(highestScore, score);
      if isMultiplayer {
        if currentPlayer == 1 {
          player1Score := score;
          currentPlayer := 2;
          StartGame(true);
        } else {
          player2Score := score;
          var _, _, _ := ShowMultiplayerResults();
        }
      } else {
        var _, _, _ := ShowGameOverScreen();
      }
    }

    /** What the game-over screen records and shows: it raises the best
        score to the round's score once more, and shows the score, the best
        score and the accuracy. */
    method ShowGameOverScreen() returns (finalScore: int, best: int, accuracy: real)
      requires Valid()
      modifies this`highestScore
      ensures Valid()
      ensures Counters() == old(Counters()).(highestScore := Max(old(highestScore), old(score)))
      ensures fallingTexts == old(fallingTexts) && focusedText == old(focusedText) && isWordFocused == old(isWordFocused)
      ensures finalScore == score && best == highestScore
      ensures accuracy == Accuracy(correctLetters, totalTypedLetters) && 0.0 <= accuracy <= 100.0
    {
      finalScore := score;
      highestScore := Max(highestScore, score);
      best := highestScore;
      accuracy := Accuracy(correctLetters, totalTypedLetters);
    }

    /** What the two-player results screen shows: both scores and the verdict. */
    method ShowMultiplayerResults() returns (p1: int, p2: int, winner: Verdict)
      ensures p1 == player1Score && p2 == player2Score
      ensures winner == Winner(player1Score, player2Score)
    {
      p1 := player1Score;
      p2 := player2Score;
      winner := Winner(p1, p2);
    }
  }
}
