// The voice callbacks of the two waiting screens. Each raises one of two
// screen-local flags that the screen's wait loop polls.
module Screens {
  import opened Text

  /** The start screen's `started` and `closed` flags. */
  datatype StartFlags = StartFlags(started: bool, closed: bool)

  /** The game-over screen's `choice_made` and `start_again` flags. */
  datatype GameOverFlags = GameOverFlags(choiceMade: bool, startAgain: bool)

  const StartKeywords: seq<string> := ["start", "close"]
  const GameOverKeywords: seq<string> := ["start again", "close"]

  /** A finalized utterance on the start screen: "start" begins the game,
      otherwise "close" ends it. A flag, once raised, stays raised, and one
      utterance raises at most one flag. */
  function HearOnStart(text: string, f: StartFlags): (r: StartFlags)
    ensures f.started ==> r.started
    ensures f.closed ==> r.closed
    ensures r.started == f.started || r.closed == f.closed
  {
    if Contains(text, "start") then f.(started := true)
    else if Contains(text, "close") then f.(closed := true)
    else f
  }

  /** A finalized utterance on the game-over screen: "start again" makes the
      choice to restart, otherwise "close" makes the choice not to. A flag,
      once raised, stays raised, and restarting is never chosen without a
      choice being made. */
  function HearOnGameOver(text: string, f: GameOverFlags): (r: GameOverFlags)
    ensures f.choiceMade ==> r.choiceMade
    ensures f.startAgain ==> r.startAgain
    ensures r.startAgain != f.startAgain ==> r.choiceMade
  {
    if Contains(text, "start again") then f.(startAgain := true, choiceMade := true)
    else if Contains(text, "close") then f.(choiceMade := true)
    else f
  }

  /** The start screen decides by the first of start > close in the text. */
  lemma StartPriority(text: string, f: StartFlags)
    ensures var k := FirstMatch(text, StartKeywords);
            var r := HearOnStart(text, f);
            (k == 0 ==> r == StartFlags(true, f.closed)) &&
            (k == 1 ==> r == StartFlags(f.started, true)) &&
            (k == 2 ==> r == f)
  {
    var k := FirstMatch(text, StartKeywords);
    assert StartKeywords[0] == "start" && StartKeywords[1] == "close";
    assert k > 0 ==> !Contains(text, StartKeywords[0]);
    assert k > 1 ==> !Contains(text, StartKeywords[1]);
  }

  /** The game-over screen decides by the first of "start again" > "close". */
  lemma GameOverPriority(text: string, f: GameOverFlags)
    ensures var k := FirstMatch(text, GameOverKeywords);
            var r := HearOnGameOver(text, f);
            (k == 0 ==> r == GameOverFlags(true, true)) &&
            (k == 1 ==> r == GameOverFlags(true, f.startAgain)) &&
            (k == 2 ==> r == f)
  {
    var k := FirstMatch(text, GameOverKeywords);
    assert GameOverKeywords[0] == "start again" && GameOverKeywords[1] == "close";
    assert k > 0 ==> !Contains(text, GameOverKeywords[0]);
    assert k > 1 ==> !Contains(text, GameOverKeywords[1]);
  }

  /** Saying "start again" on the start screen starts the game too, since the
      phrase contains "start". */
  lemma StartAgainStartsTheGame(text: string, f: StartFlags)
    requires Contains(text, "start again")
    ensures HearOnStart(text, f).started
  {
    assert "start" <= "start again";
    ContainsTransitive(text, "start again", "start");
  }

  /** A bare "start" changes nothing on the game-over screen. */
  lemma BareStartIgnoredOnGameOver(f: GameOverFlags)
    ensures HearOnGameOver("start", f) == f
  {
    LongerNotContained("start", "start again");
    assert "start"[0] != "close"[0];
    assert "start"[1..] == "tart";
    LongerNotContained("tart", "close");
  }

  /** Restarting is chosen by voice only if the utterance contains "start". */
  lemma RestartNeedsStart(text: string, f: GameOverFlags)
    requires !f.startAgain && HearOnGameOver(text, f).startAgain
    ensures Contains(text, "start")
  {
    assert "start" <= "start again";
    ContainsTransitive(text, "start again", "start");
  }
}
