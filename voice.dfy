// The in-game voice listener's interpretation of transcripts: a finalized
// utterance may quit the game or set the voice direction, a partial one may
// only set the direction. The direction and the run flag are the state the
// listener shares with the game loop.
module Voice {
  import opened Text

  /** The shared voice direction: Python's `None`, "left" or "right". */
  datatype Direction = Neutral | Left | Right

  /** The two globals the listener writes: `run` and `voice_direction`. */
  datatype VoiceState = VoiceState(run: bool, direction: Direction)

  /** The keywords of a finalized utterance, in the order they are tested. */
  const FullKeywords: seq<string> := ["close", "left", "right", "stop"]

  /** The keywords of a partial utterance, in the order they are tested. */
  const PartialKeywords: seq<string> := ["left", "right", "stop"]

  /** A finalized utterance: "close" quits, otherwise "left", "right" or "stop"
      set the direction. At most one of the two globals changes, and the run
      flag is never raised. */
  function HearFull(text: string, s: VoiceState): (r: VoiceState)
    ensures r.run ==> s.run
    ensures r.run == s.run || r.direction == s.direction
  {
    if Contains(text, "close") then s.(run := false)
    else if Contains(text, "left") then s.(direction := Left)
    else if Contains(text, "right") then s.(direction := Right)
    else if Contains(text, "stop") then s.(direction := Neutral)
    else s
  }

  /** A partial utterance: "left", "right" or "stop" set the direction; the
      run flag is left alone. */
  function HearPartial(text: string, s: VoiceState): (r: VoiceState)
    ensures r.run == s.run
  {
    if Contains(text, "left") then s.(direction := Left)
    else if Contains(text, "right") then s.(direction := Right)
    else if Contains(text, "stop") then s.(direction := Neutral)
    else s
  }

  /** The first keyword of close > left > right > stop found in the text
      decides the outcome of a finalized utterance; later ones are ignored. */
  lemma FullPriority(text: string, s: VoiceState)
    ensures var k := FirstMatch(text, FullKeywords);
            var r := HearFull(text, s);
            (k == 0 ==> r == VoiceState(false, s.direction)) &&
            (k == 1 ==> r == VoiceState(s.run, Left)) &&
            (k == 2 ==> r == VoiceState(s.run, Right)) &&
            (k == 3 ==> r == VoiceState(s.run, Neutral)) &&
            (k == 4 ==> r == s)
  {
    var k := FirstMatch(text, FullKeywords);
    assert FullKeywords[0] == "close" && FullKeywords[1] == "left";
    assert FullKeywords[2] == "right" && FullKeywords[3] == "stop";
    assert k > 0 ==> !Contains(text, FullKeywords[0]);
    assert k > 1 ==> !Contains(text, FullKeywords[1]);
    assert k > 2 ==> !Contains(text, FullKeywords[2]);
    assert k > 3 ==> !Contains(text, FullKeywords[3]);
  }

  /** The first keyword of left > right > stop found in the text decides the
      outcome of a partial utterance. */
  lemma PartialPriority(text: string, s: VoiceState)
    ensures var k := FirstMatch(text, PartialKeywords);
            var r := HearPartial(text, s);
            (k == 0 ==> r == VoiceState(s.run, Left)) &&
            (k == 1 ==> r == VoiceState(s.run, Right)) &&
            (k == 2 ==> r == VoiceState(s.run, Neutral)) &&
            (k == 3 ==> r == s)
  {
    var k := FirstMatch(text, PartialKeywords);
    assert PartialKeywords[0] == "left" && PartialKeywords[1] == "right";
    assert PartialKeywords[2] == "stop";
    assert k > 0 ==> !Contains(text, PartialKeywords[0]);
    assert k > 1 ==> !Contains(text, PartialKeywords[1]);
    assert k > 2 ==> !Contains(text, PartialKeywords[2]);
  }

  /** Without "close" a finalized utterance acts exactly as a partial one. */
  lemma FullAgreesWithPartial(text: string, s: VoiceState)
    requires !Contains(text, "close")
    ensures HearFull(text, s) == HearPartial(text, s)
  {
  }

  /** "stop", with no higher-priority keyword, clears any previous direction. */
  lemma StopClearsDirection(text: string, s: VoiceState)
    requires Contains(text, "stop")
    requires !Contains(text, "left") && !Contains(text, "right")
    ensures HearPartial(text, s).direction == Neutral
    ensures !Contains(text, "close") ==> HearFull(text, s).direction == Neutral
  {
  }

  /** No debouncing: once a direction keyword is heard, the new direction does
      not depend on the previous one. */
  lemma DirectionOverwritten(text: string, s1: VoiceState, s2: VoiceState)
    requires FirstMatch(text, PartialKeywords) < |PartialKeywords|
    ensures HearPartial(text, s1).direction == HearPartial(text, s2).direction
    ensures !Contains(text, "close") ==> HearFull(text, s1).direction == HearFull(text, s2).direction
  {
    var k := FirstMatch(text, PartialKeywords);
    assert Contains(text, PartialKeywords[k]);
  }

  /** Hearing the same utterance twice has the effect of hearing it once. */
  lemma HearingIsIdempotent(text: string, s: VoiceState)
    ensures HearFull(text, HearFull(text, s)) == HearFull(text, s)
    ensures HearPartial(text, HearPartial(text, s)) == HearPartial(text, s)
  {
  }
}
