// Substring search over transcripts: the only test the game's voice
// classifiers apply to the text a speech recognizer hands them.
module Text {

  /** Python's `kw in text` on strings: `kw` occurs somewhere in `text`.
      The empty keyword occurs in every text, as in Python. */
  predicate Contains(text: string, kw: string)
    decreases |text|
  {
    kw <= text || (text != [] && Contains(text[1..], kw))
  }

  /** `kw` occurs in `text` starting at position `i`. */
  ghost predicate OccursAt(text: string, kw: string, i: int)
  {
    0 <= i && i + |kw| <= |text| && text[i..i + |kw|] == kw
  }

  /** The recursive search agrees with the positional definition of "occurs". */
  lemma {:induction false} ContainsIffOccurs(text: string, kw: string)
    ensures Contains(text, kw) <==> exists i :: OccursAt(text, kw, i)
    decreases |text|
  {
    if kw <= text {
      assert text[0..|kw|] == kw;
      assert OccursAt(text, kw, 0);
    } else if text == [] {
      assert |kw| > 0;
      forall i ensures !OccursAt(text, kw, i) {
      }
    } else {
      ContainsIffOccurs(text[1..], kw);
      if Contains(text[1..], kw) {
        var i :| OccursAt(text[1..], kw, i);
        assert text[1..][i..i + |kw|] == text[i + 1..i + 1 + |kw|];
        assert OccursAt(text, kw, i + 1);
      }
      if exists i :: OccursAt(text, kw, i) {
        var i :| OccursAt(text, kw, i);
        assert i != 0 by {
          assert text[..|kw|] == text[0..|kw|];
        }
        assert text[1..][i - 1..i - 1 + |kw|] == text[i..i + |kw|];
        assert OccursAt(text[1..], kw, i - 1);
      }
    }
  }

  /** A keyword longer than the text never occurs in it. */
  lemma {:induction false} LongerNotContained(text: string, kw: string)
    requires |kw| > |text|
    ensures !Contains(text, kw)
    decreases |text|
  {
    if text != [] {
      LongerNotContained(text[1..], kw);
    }
  }

  /** Containment is transitive: a text holding a phrase holds every part of it. */
  lemma ContainsTransitive(text: string, phrase: string, kw: string)
    requires Contains(text, phrase) && Contains(phrase, kw)
    ensures Contains(text, kw)
  {
    ContainsIffOccurs(text, phrase);
    ContainsIffOccurs(phrase, kw);
    var i :| OccursAt(text, phrase, i);
    var j :| OccursAt(phrase, kw, j);
    forall m | 0 <= m < |kw| ensures text[i + j + m] == kw[m] {
      assert kw[m] == phrase[j + m] == text[i..i + |phrase|][j + m];
    }
    assert text[i + j..i + j + |kw|] == kw;
    assert OccursAt(text, kw, i + j);
    ContainsIffOccurs(text, kw);
  }

  /** Position of the first keyword of `keywords` that `text` contains, or
      `|keywords|` when it contains none: the decision an if/elif chain of
      `in` tests makes. */
  function FirstMatch(text: string, keywords: seq<string>): (k: nat)
    ensures k <= |keywords|
    ensures k < |keywords| ==> Contains(text, keywords[k])
    ensures forall j :: 0 <= j < k ==> !Contains(text, keywords[j])
  {
    if keywords == [] then 0
    else if Contains(text, keywords[0]) then 0
    else 1 + FirstMatch(text, keywords[1..])
  }
}
