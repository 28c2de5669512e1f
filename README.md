# BrandNewTypingGame: the game state, modelled in Dafny

BrandNewTypingGame is a JavaFX typing game. Words fall down a play area. The
player types them letter by letter: the first keystroke focuses a word that
starts with it and strips its first letter; each later matching keystroke
strips one more, and an emptied word leaves the screen, scores a point and makes words fall faster.
A word that falls past the bottom costs one health. At zero health the round
ends. In a two-player game, player 1's round hands the turn to player 2, and
player 2's round ends on a results screen with a winner.

This project models the state behind that game and the operations that change
it, with the JavaFX widgets stripped away:

- `rules.dfy` (module `Rules`) holds the heap-free arithmetic:
  - the constants: the word list, start health 5, start speed and speed step;
  - the word a keystroke settles on;
  - the misses of one tick and where a tick stops;
  - the counters of a round, and what starting and ending a round does to them;
  - the accuracy and the winner shown on the result screens.
- `strings.dfy` (module `Strings`) is Java's `String.trim`, applied to every
  keystroke.
- `lists.dfy` (module `Lists`) holds `List.remove(Object)` and the filter that
  a batch of removals amounts to on a list without duplicates.
- `game.dfy` (module `TypingGame`) holds the game object, as the class
  `Game`, and the falling words, as the class `Word`:
  - `Game` has the source's fields: the word list, the focused word, the focus
    flag, the score, the health, the speed, the letter counters and the
    two-player fields.
  - `Word` keeps the two things the game reads from a label: its text and its
    vertical position.
  - The operations change these fields in place, as the source does:
    keystrokes, ticks, spawns, starting, restarting and ending a round,
    clearing the board and the pause menu's "Main Menu" button.

Positions and speeds are integers in hundredths of a pixel. The start speed
0.5 is `StartSpeed = 50`, and the step 0.05 is `SpeedStep = 5`. The play
area's height is a parameter of the tick, in the same unit. The random word
choice of `spawnText` is a parameter: the index into the ten-word list.

Every operation keeps the invariant `Game.Valid`:

- the counters are sound: correct letters never outnumber typed ones, the
  speed is the start speed plus one step per point, health never exceeds 5,
  and the current player is 1 or 2;
- no word is in the list twice, and no listed or focused word has an empty
  text;
- a focused word exists only while the focus flag is set.

These behaviours of the code are worth knowing. The model follows the code in
each of them:

- A word that falls out while it is focused leaves the list but stays focused.
  Typing can still complete it, and completing it scores; removing it from the
  list again does nothing.
- `startGame` resets the counters but neither clears the word list nor the
  focus. `restartGame` and `clearGameElements` clear the list, the focused
  word and the flag; the pause menu's "Main Menu" button clears the list and
  the focused word only.
- Because that button leaves the focus flag set, no keystroke can focus a
  word again after it until `restartGame` or `clearGameElements` (reached
  from the two-player results screen) clears the flag
  (`Game.FocusLocked`). `HandleTyping` keeps `FocusLocked` unchanged, and
  `ReturnToMainMenu` sets it to the old flag.

## Model

| member | source | states |
|---|---|---|
| Strings.Trim | OOP/UAP/src/brandnewtypinggame/BrandNewTypingGame.java:269 | the trimmed keystroke is the infix of the raw one left after dropping its leading and trailing blanks (characters up to U+0020); everything dropped is blank, and what is kept neither starts nor ends with a blank |
| Strings.TrimEmpty | OOP/UAP/src/brandnewtypinggame/BrandNewTypingGame.java:269-271 | a keystroke is ignored exactly when it consists of blanks only |
| Lists.RemoveFirst | OOP/UAP/src/brandnewtypinggame/BrandNewTypingGame.java:248 | List.remove(Object) leaves a list without the element unchanged; otherwise it cuts out the first occurrence, keeping everything before and after it in order, so the list is one element shorter |
| Lists.RemoveFirstDistinct | OOP/UAP/src/brandnewtypinggame/BrandNewTypingGame.java:282 | on a list without duplicates, removing an element equals filtering that element out |
| Lists.WithoutOne | OOP/UAP/src/brandnewtypinggame/BrandNewTypingGame.java:282 | on a list without duplicates, filtering out the element at position k cuts out exactly position k and keeps the rest in order |
| Lists.WithoutDistinct | OOP/UAP/src/brandnewtypinggame/BrandNewTypingGame.java:247-250 | removing words never creates a duplicate in the word list |
| Lists.WithoutKeeps | OOP/UAP/src/brandnewtypinggame/BrandNewTypingGame.java:247-250 | removing words keeps every word that was not removed |
| Lists.WithoutTwice | OOP/UAP/src/brandnewtypinggame/BrandNewTypingGame.java:247-250 | two rounds of removal in a row equal one removal of the union |
| Lists.RemoveOneMore | OOP/UAP/src/brandnewtypinggame/BrandNewTypingGame.java:247-248 | on a list without duplicates, removing one more word after a batch equals removing the batch plus that word |
| Lists.WithoutSame | OOP/UAP/src/brandnewtypinggame/BrandNewTypingGame.java:247-250 | what removal leaves depends only on which of the list's elements are removed |
| Lists.WithoutElems | OOP/UAP/src/brandnewtypinggame/BrandNewTypingGame.java:247-250 | removing the elements of the collected list equals removing any set with the same members |
| Lists.ElemsMembers | OOP/UAP/src/brandnewtypinggame/BrandNewTypingGame.java:247 | the set of collected words has exactly the members of the collected list |
| Rules.FirstMatch | OOP/UAP/src/brandnewtypinggame/BrandNewTypingGame.java:292-293 | the scan settles on the first text in list order that starts with the keystroke; no earlier text does; it runs off the end when no text does |
| Rules.Max | OOP/UAP/src/brandnewtypinggame/BrandNewTypingGame.java:343 | Math.max is one of its arguments and at least both |
| Rules.Misses | OOP/UAP/src/brandnewtypinggame/BrandNewTypingGame.java:237-239 | a tick over n words costs at most n health |
| Rules.NoMisses | OOP/UAP/src/brandnewtypinggame/BrandNewTypingGame.java:237-239 | a tick costs no health exactly when no word falls past the play area |
| Rules.FirstStop | OOP/UAP/src/brandnewtypinggame/BrandNewTypingGame.java:241-243 | the word at which a tick ends the round lies among the words it looked at |
| Rules.FirstStopIsFirst | OOP/UAP/src/brandnewtypinggame/BrandNewTypingGame.java:235-244 | the tick ends the round at a word that falls out with health at 0 or below, and at no earlier word |
| Rules.FirstStopExtends | OOP/UAP/src/brandnewtypinggame/BrandNewTypingGame.java:241-243 | once the tick has stopped, the words after the stop do not change where it stopped |
| Rules.RunFindsFirstStop | OOP/UAP/src/brandnewtypinggame/BrandNewTypingGame.java:235-246 | the loop's own account of where it returned agrees with FirstStop, and the number of words it moved is Moved |
| Rules.NoStopKeepsRoundAlive | OOP/UAP/src/brandnewtypinggame/BrandNewTypingGame.java:239-244 | a tick that runs to the end of the list leaves a live round with health above 0 |
| Rules.StartRound | OOP/UAP/src/brandnewtypinggame/BrandNewTypingGame.java:87-94 | starting a round sets the mode, score 0, health 5, start speed and zero letter counters, keeps the best score, the current player and both players' scores, and keeps the counters sound |
| Rules.EndRound | OOP/UAP/src/brandnewtypinggame/BrandNewTypingGame.java:340-360 | ending a round raises the best score to the round's score; player 1's round in a two-player game stores player 1's score, hands the turn to player 2 and starts a fresh round (score 0, health 5, start speed, zero letter counters); any other round stores player 2's score in two-player mode and leaves the round's counters alone; the counters stay sound |
| Rules.Accuracy | OOP/UAP/src/brandnewtypinggame/BrandNewTypingGame.java:442 | accuracy is 0 before anything is typed, lies in 0..100, is 100 exactly when every typed letter was correct and 0 exactly when none was |
| Rules.Winner | OOP/UAP/src/brandnewtypinggame/BrandNewTypingGame.java:395 | player 1 wins exactly with the higher score, player 2 exactly with the higher score, and a tie exactly on equal scores |
| TypingGame.TargetOfIsFirst | OOP/UAP/src/brandnewtypinggame/BrandNewTypingGame.java:271-310 | a keystroke advances a word only if it is not blank and the word starts with it: the focused word if there is one, and then exactly when the focused text starts with the keystroke; otherwise the first such word in list order unless the flag still says a word is focused; with the focus free and nothing found, no word in the list starts with it |
| TypingGame.CrossingMembers | OOP/UAP/src/brandnewtypinggame/BrandNewTypingGame.java:235-238 | on a list without duplicates, a word is collected for removal exactly when its new position is below the play area, and only looked-at words are collected |
| TypingGame.MissesAreCollected | OOP/UAP/src/brandnewtypinggame/BrandNewTypingGame.java:237-239 | a tick charges exactly one health per word it collects for removal |
| TypingGame.TickOutcome | OOP/UAP/src/brandnewtypinggame/BrandNewTypingGame.java:233-251 | the first loop's outcome agrees with FirstStop and Moved; when the loop runs to the end, the collected words are exactly the words now below the play area, and a live round stays alive |
| TypingGame.Word.constructor | OOP/UAP/src/brandnewtypinggame/BrandNewTypingGame.java:186-190 | a new word holds its text and starts at the top |
| TypingGame.Game.constructor | OOP/UAP/src/brandnewtypinggame/BrandNewTypingGame.java:24-41 | the field initialisers: no words, no focus, score 0, health 5, start speed, player 1, zero scores; the state is valid |
| TypingGame.Game.HandleTyping | OOP/UAP/src/brandnewtypinggame/BrandNewTypingGame.java:268-313 | a keystroke that is not blank is counted once, and counted as correct only when a word was focused and starts with it; the word it advances loses its first letter and no other text changes; an emptied word leaves the list, clears the focus and its flag and scores one point at one step more speed; health and the two-player fields never change; validity and the focus lock are kept |
| TypingGame.Game.TypeIntoFocused | OOP/UAP/src/brandnewtypinggame/BrandNewTypingGame.java:272-290 | with a focused word: the keystroke is counted, and counted as correct when the focused text starts with it; the focused word then advances, and nothing changes otherwise |
| TypingGame.Game.FocusFirstMatch | OOP/UAP/src/brandnewtypinggame/BrandNewTypingGame.java:291-311 | without a focused word: the keystroke is counted but never as correct; the scan advances the first word in list order that starts with the keystroke, unless the focus flag is set |
| TypingGame.Game.FocusOn | OOP/UAP/src/brandnewtypinggame/BrandNewTypingGame.java:293-308 | the word the scan settles on becomes focused and loses its first letter; a one-letter word completes on the spot |
| TypingGame.Game.CompleteFocusedWord | OOP/UAP/src/brandnewtypinggame/BrandNewTypingGame.java:281-289 | an emptied focused word is removed from the list (a no-op when it already left), the focus and its flag are cleared, and score and speed rise by one point and one step; the state is valid |
| TypingGame.Game.UpdateFallingTexts | OOP/UAP/src/brandnewtypinggame/BrandNewTypingGame.java:233-251 | the words move in list order, each by the speed, up to the word at which health reaches 0; each word that falls out costs one health; the round ends exactly when FirstStop finds a stop, and then EndRound is applied and the list is left as it was; otherwise exactly the words below the play area leave the list and a live round stays alive; a miss never takes the focus away |
| TypingGame.Game.FallAll | OOP/UAP/src/brandnewtypinggame/BrandNewTypingGame.java:235-246 | the first loop against the state before it: the moved words, the health left, whether it stopped, and the collected words when it did not |
| TypingGame.Game.MoveWords | OOP/UAP/src/brandnewtypinggame/BrandNewTypingGame.java:235-246 | the first loop moves the first `moved` words by the speed and no other, charges one health per miss, stops right after the word at which health reaches 0 or below, and otherwise collects the crossing words in list order |
| TypingGame.Game.RemoveEach | OOP/UAP/src/brandnewtypinggame/BrandNewTypingGame.java:247-250 | removing the collected words one by one leaves the list filtered by exactly those words, and keeps the words valid |
| TypingGame.Game.RemoveInTurn | OOP/UAP/src/brandnewtypinggame/BrandNewTypingGame.java:247-248 | List.remove of each collected word in turn filters the list by the collected words |
| TypingGame.Game.SpawnText | OOP/UAP/src/brandnewtypinggame/BrandNewTypingGame.java:183-193 | a new word from the ten-word list is appended at the top of the play area, and the words before it stay as they were |
| TypingGame.Game.StartGame | OOP/UAP/src/brandnewtypinggame/BrandNewTypingGame.java:87-94 | the counters become StartRound of the old counters; the word list, the focus and the flag are untouched |
| TypingGame.Game.RestartGame | OOP/UAP/src/brandnewtypinggame/BrandNewTypingGame.java:211-230 | the list is emptied, the focus and its flag are cleared, and a round starts in the same mode |
| TypingGame.Game.ClearGameElements | OOP/UAP/src/brandnewtypinggame/BrandNewTypingGame.java:331-337 | the list is emptied and the focus and its flag are cleared |
| TypingGame.Game.ReturnToMainMenu | OOP/UAP/src/brandnewtypinggame/BrandNewTypingGame.java:155-161 | the list is emptied and the focus cleared, but the flag stays; the focus is locked exactly when the flag was set |
| TypingGame.Game.EndGame | OOP/UAP/src/brandnewtypinggame/BrandNewTypingGame.java:340-360 | the counters become EndRound of the old counters; the words and the focus are untouched |
| TypingGame.Game.ShowGameOverScreen | OOP/UAP/src/brandnewtypinggame/BrandNewTypingGame.java:429-442 | the screen raises the best score to the round's score and shows the score, the best score and an accuracy between 0 and 100 |
| TypingGame.Game.ShowMultiplayerResults | OOP/UAP/src/brandnewtypinggame/BrandNewTypingGame.java:383-395 | the screen shows both players' scores and the verdict of Winner |

## Left out

- The JavaFX scene: panes, labels, buttons, colours, fonts, the horizontal placement of words, the score and health labels, and `updateScoreLabel`, `showMainMenu`, `resetScene`, `setupPauseMenu` and `adjustLayout`. None of them changes the game state modelled here.
- The timelines: the spawn and fall timers, `pauseGame`, `resumeGame`, `stopAllTimelines` and the ESC key handler. Time is not modelled; ticks and spawns are operations that a caller invokes, and nothing stops a caller from ticking after a round has ended. In the source, the fall timer keeps running after a round ends: `endGame` (lines 341-342) stops the spawn timer but overwrites the field holding the fall timer without stopping it, so neither `endGame` nor a later `stopAllTimelines` (lines 254-262) can reach it again. A tick that a caller makes after the round has ended behaves as in the source: with the stopping word still below the play area, it ends the round again. What the model leaves out is that the running timer makes those ticks without being asked, with these consequences: in single-player mode the word that ended the round is never removed (the tick returns at line 243, before the removal loop at 247-250), so every later tick ends the round again and rebuilds the game-over screen; in two-player mode `startGame(true)` at line 350 starts a second fall timer, so player 2's round runs on two timers; and once `stopAllTimelines` has set the spawn timer to null, such a leftover tick's `endGame` dereferences null at line 341. That null dereference is dropped: `EndGame` has no error path for it.
- `java.util.Random`: the word choice is the parameter `pick`, and the random horizontal position is dropped.
- Doubles: positions and speeds are integers in hundredths of a pixel. The source adds 0.05 to a double, so its speed can drift by rounding error after many words; the model's speed is exact. The accuracy is a Dafny `real`, not a double, and its formatting to two decimals is not modelled.
- `System.out.println`, `Platform.exit` and `System.exit`.
- The play area's height is the parameter `height`, standing for `root.getHeight()`.
- Rules.Misses: its own contract states only the bound; what it counts is stated by Rules.NoMisses and TypingGame.MissesAreCollected (one health per collected word).
