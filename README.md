# Meteoroid Dodge: the tick rules and voice-command rules

A model of the game logic of a small pygame dodging game. The player's
rectangle sits on the bottom edge of a 1000x800 field. Obstacles ("stars",
drawn as meteors) fall from the top. The player moves by arrow keys and by
spoken commands that a background speech recognizer turns into a shared
voice direction. A collision ends the session and may raise the stored high
score.

The model covers:

- the movement step: two independent guarded keyboard moves of 5 and one
  guarded voice move of 3 (an `if/elif`), each applied only when the new x
  stays strictly inside `(0, 940)`;
- the spawn scheduler: a millisecond accumulator `star_count` against a
  threshold `star_add_increment` (starting at 2000). Passing the threshold
  appends three 30x40 obstacles at y = -40, lowers the threshold to
  `max(200, t - 50)` and resets the accumulator;
- the obstacle scan: each obstacle moves down 2 in list order, one past the
  bottom edge is removed from the list (by value, as Python's `list.remove`
  does), and the first kept obstacle that overlaps the player is a hit that
  ends the scan;
- the high-score update on a hit, and its effect across sessions;
- the keyword classifiers: the in-game finalized-transcript rule
  (close > left > right > stop), the in-game partial-transcript rule
  (left > right > stop, never touching `run`), the start screen
  (start > close) and the game-over screen ("start again" > close).

Layout:

- `text.dfy` (module `Text`) holds substring containment, matching Python's
  `kw in text`, and the first-match search an `if/elif` chain of such tests
  makes.
- `voice.dfy` (module `Voice`) holds the in-game classifiers over the shared
  state `(run, voice_direction)`.
- `screens.dfy` (module `Screens`) holds the start-screen and game-over
  classifiers over their local flags.
- `rules.dfy` (module `Rules`) holds the constants, rectangles, and each tick
  rule as a function, with the lemmas that state what the rules guarantee.
- `game.dfy` (module `Game`) holds class `Session`. Its fields are `player.x`,
  `stars`, `star_count`, `star_add_increment` and `high_score`. Its methods
  perform the tick steps in place (guarded `-=`/`+=`, an append loop, and the
  scan loop with its early `break`). Each method is proved against the
  function in `Rules`, and each preserves the invariant `Valid()`. A ghost
  field counts the batches spawned, and `Valid()` ties the threshold to
  `Rules.IncrementAfter` of that count.

At the bottom edge the code keeps an obstacle until its top is strictly
past `HEIGHT` (main.py:259-261): one at y = 795 moves to 797 and stays, and
one at 799 moves to 801 and is removed (`Rules.BottomEdgeScenario`). The three
x positions of a batch are drawn independently, so they need not be distinct.

Python's `stars.remove(star)` removes the first rectangle equal in value,
which need not be the visited object. The model removes by value
(`Rules.RemoveFirst`). The scan loop proves that the element removed is the
visited one: every earlier element still in the list has `y <= 800`, and the
removed one does not.

## Model

| member | source | states |
|---|---|---|
| `Text.Contains` | main.py:73-89 | Python's `kw in text`: the keyword is a prefix of some suffix of the transcript; `Text.ContainsIffOccurs` proves this is occurrence at a position |
| `Text.ContainsIffOccurs` | main.py:73 | the recursive substring test holds exactly when the keyword occurs at some position of the transcript |
| `Text.ContainsTransitive` | main.py:118 | a transcript containing a phrase contains every substring of that phrase (so "start again" contains "start") |
| `Text.LongerNotContained` | main.py:177 | a keyword longer than the transcript is never contained in it |
| `Text.FirstMatch` | main.py:73-80 | the result is the position of the first keyword the transcript contains, or the list length when it contains none; no earlier keyword is contained |
| `Voice.HearFull` | main.py:72-80 | a finalized utterance never raises `run`, and changes at most one of `run` and the direction |
| `Voice.HearPartial` | main.py:83-89 | a partial utterance never changes `run` |
| `Voice.FullPriority` | main.py:73-80 | the first of close > left > right > stop decides: close clears `run` and keeps the direction; left, right and stop set Left, Right and Neutral; no keyword changes nothing |
| `Voice.PartialPriority` | main.py:84-89 | the first of left > right > stop decides, as for a finalized utterance without close |
| `Voice.FullAgreesWithPartial` | main.py:73-89 | without "close" the two in-game rules give the same state |
| `Voice.StopClearsDirection` | main.py:79-89 | "stop" with no left, right or close sets the direction to Neutral, whatever it was |
| `Voice.DirectionOverwritten` | main.py:84-89 | once a direction keyword is heard, the new direction does not depend on the old one |
| `Voice.HearingIsIdempotent` | main.py:73-89 | hearing the same utterance twice equals hearing it once |
| `Screens.HearOnStart` | main.py:118-121 | flags are only raised, never cleared, and one utterance raises at most one of them |
| `Screens.HearOnGameOver` | main.py:177-181 | flags are only raised, and restart is never chosen without a choice being made |
| `Screens.StartPriority` | main.py:118-121 | "start" sets started; otherwise "close" sets closed; otherwise nothing changes |
| `Screens.GameOverPriority` | main.py:177-181 | "start again" sets both choice and restart; otherwise "close" sets the choice only; otherwise nothing changes |
| `Screens.StartAgainStartsTheGame` | main.py:118-119 | "start again" on the start screen starts the game |
| `Screens.BareStartIgnoredOnGameOver` | main.py:177-181 | the transcript "start" changes nothing on the game-over screen |
| `Screens.RestartNeedsStart` | main.py:177-179 | restart is chosen by voice only if the transcript contains "start" |
| `Rules.Overlaps` | main.py:262 | `colliderect` on positive-size rectangles: a positive overlap on both axes, touching edges excluded; `Rules.ScanHitIff` states when the scan finds one |
| `Rules.KeyboardStep` | main.py:247-250 | the left arrow move, then the right arrow move guarded on the position after it; `Rules.KeyboardStepSpec` gives the net move |
| `Rules.VoiceStep` | main.py:253-256 | the voice move of the `if/elif`; `Rules.VoiceStepSpec` gives its effect |
| `Rules.MoveStep` | main.py:246-256 | the keyboard moves, then the voice move; `Rules.MoveStepKeepsBounds` proves it keeps the player in bounds |
| `Rules.KeyboardStepSpec` | main.py:247-250 | each arrow move applies exactly when its guard holds, moves by 5, and lands strictly inside (0, 940); both may apply in one tick; no key held means no move |
| `Rules.VoiceStepSpec` | main.py:253-256 | the voice move is 3 toward the spoken side exactly when its guard holds, and lands strictly inside (0, 940); at most one move; Neutral never moves |
| `Rules.MoveStepKeepsBounds` | main.py:247-256 | `0 <= x <= 940` and `0 < x < 940` are each preserved by a full movement step |
| `Rules.NextIncrement` | main.py:239 | the lowered threshold is never below 200, strictly lower than a threshold above 200, and 200 from a threshold at or below 200 |
| `Rules.IncrementAfter` | main.py:221-239 | the threshold after n batches of a session, starting from 2000; `Rules.IncrementAfterClosedForm` gives its closed form and `Game.Session.Spawn` keeps the session's threshold equal to it |
| `Rules.IncrementAfterClosedForm` | main.py:239 | after n batches the threshold is `max(200, 2000 - 50n)` |
| `Rules.IncrementNonIncreasing` | main.py:239 | the threshold never increases, stays between 200 and 2000, and is 200 after 36 batches |
| `Rules.Batch` | main.py:235-238 | the obstacles spawned from the drawn x positions, in draw order; `Rules.BatchSpec` states their number, size and position |
| `Rules.BatchSpec` | main.py:235-238 | a batch holds exactly three obstacles, each 30x40 at y = -40 with its drawn x in `[0, 970]` |
| `Rules.KeepOnScreenAllOnScreen` | main.py:260-261 | every obstacle kept by the filter has `y <= 800` |
| `Rules.Scan` | main.py:258-264 | the obstacle scan in list order as a function of the list and the player; `Rules.ScanWithoutHit`, `Rules.ScanFirstHit` and `Rules.ScanHitIff` characterize it |
| `Rules.ScanWithoutHit` | main.py:258-262 | with no hit, the list becomes the advanced old list filtered by `y <= 800`, in the original order |
| `Rules.ScanFirstHit` | main.py:258-264 | at the first hit, earlier obstacles are advanced and filtered, the hit one is advanced and kept, and later ones are unmoved |
| `Rules.ScanHitIff` | main.py:258-264 | a hit is reported exactly when some obstacle, once moved, is on screen and overlaps the player; a removed obstacle is never a hit |
| `Rules.ScanShrinks` | main.py:258-261 | the scan never adds obstacles |
| `Rules.RemoveFirst` | main.py:261 | `list.remove` by value: one element shorter when the value is present, unchanged otherwise; `Rules.RemoveFirstAt` says which element goes |
| `Rules.RemoveFirstAt` | main.py:261 | removing by value drops position j when no earlier element equals the value |
| `Rules.KeepOnScreenAppend` | main.py:258-261 | filtering the list by `y <= 800` distributes over concatenation, so the scan loop can extend its kept prefix one obstacle at a time |
| `Game.RemoveVisited` | main.py:261 | `stars.remove(star)` on a visited obstacle past the bottom edge removes exactly that obstacle, since every earlier element still in the list is on screen |
| `Rules.BottomEdgeScenario` | main.py:259-261 | an obstacle at y = 795 is kept at 797 after one tick; one at 799 is removed |
| `Rules.HighScoreAfterHit` | main.py:267-269 | the new high score is the maximum of the old one and the score, and it is saved exactly when the score beats the old one |
| `Rules.HighScoreAcross` | main.py:267-271 | the stored high score after consecutive sessions that each end in a collision with the given scores; `Rules.HighScoreAcrossIsMax` proves it is their maximum with the start value |
| `Rules.HighScoreAcrossIsMax` | main.py:267-271 | across sessions ending in collisions, the stored high score is the maximum of its starting value and every final score |
| `Game.Session.constructor` | main.py:217-227 | a session starts with the player at x = 500, no obstacles, accumulator 0, threshold 2000 and the stored high score |
| `Game.Session.Spawn` | main.py:230-240 | the accumulator grows by the elapsed time; a batch fires exactly when it exceeds the threshold, and then three obstacles are appended after the unchanged old ones, the threshold is lowered, the accumulator reset and the batch counted, so the threshold stays `Rules.IncrementAfter` of the batch count; otherwise nothing else changes |
| `Game.Session.Move` | main.py:246-256 | the player's new x is the keyboard-then-voice movement step of the old x, within bounds |
| `Game.Session.VisitStar` | main.py:259-264 | one iteration of the scan: a hit is reported exactly when the moved obstacle is on screen and overlaps the player; otherwise the visited obstacle is moved and kept, or removed, and the list is the filtered moved prefix followed by the unvisited rest |
| `Game.Session.AdvanceAndCollide` | main.py:258-264 | the list and the hit flag are those of the scan of the old list against the player, and the invariant is kept; the loop, one `Game.Session.VisitStar` per obstacle, is proved against the filtered-prefix characterization of `Rules.ScanWithoutHit` and `Rules.ScanFirstHit` |
| `Game.Session.RecordHit` | main.py:266-269 | the high score becomes the maximum of the old one and the score; a save happens exactly when the score beats it; the invariant is kept |
| `Game.Session.Tick` | main.py:229-269 | one loop iteration is spawn, then move, then scan against the moved player, then the high-score update on a hit; the invariant is kept |

## Left out

- Rendering, fonts, images and the window (`draw` and the screen blits): user interface only.
- The pygame event pump on all three screens: window-close, ENTER and ESC, and the in-game QUIT that clears `run`. It is a foreign library's event source, so only the voice side of each screen is modelled.
- The Vosk model and recognizer, the `sounddevice` streams and JSON decoding of recognizer output: foreign library calls and audio I/O. The classifiers take the already-extracted transcript text.
- Threads, daemon flags, `voice_lock` and the polling `while ...: sd.sleep(...)` loops: concurrency. The voice direction is an input to each tick and the voice state an input and output of each classifier. Interleaving of writers and readers is not modelled.
- `get_high_score`/`save_high_score`: file I/O and float parsing. The high score is a `real`, and a saved value is assumed to read back unchanged.
- Timing: `clock.tick(60)` is the `elapsedMs` input of a tick, and the wall-clock score is the `score` input. Floating-point behaviour of the score is not modelled.
- `random.randint(0, WIDTH - 30)`: the three drawn x positions are an input constrained to `[0, 970]`.
- The recursive restart `main()` after the game-over screen: session control flow. It appears only as the sequence of sessions in `Rules.HighScoreAcross`.
- `Rules.Overlaps` is pygame's `colliderect` for rectangles of positive size only. pygame treats zero-size rectangles as never colliding and normalises negative sizes, but every rectangle in this game has positive size.
- `Rules.RemoveFirst` returns the list unchanged when the value is absent, where Python raises `ValueError`. The scan only removes the obstacle it is visiting, which is present (`Game.RemoveVisited`), so that case does not arise.
- Object identity: obstacles are values in a sequence. A visited obstacle is updated at its current position in the list, which stands in for mutating the object shared by the copied list and the live list.
