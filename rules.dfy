// The per-tick rules of the game loop as functions of the state they read:
// the guarded player moves, the obstacle-spawn threshold, the advance and
// collision scan over the obstacle list, and the high-score update. The
// class in game.dfy runs these steps imperatively and is proved against them.
module Rules {
  import opened Voice

  const WIDTH := 1000
  const HEIGHT := 800
  const PLAYER_WIDTH := 60
  const PLAYER_HEIGHT := 80
  const KEYBOARD_VEL := 5
  const VOICE_VEL := 3
  const STAR_VEL := 2
  const STAR_WIDTH := 30
  const STAR_HEIGHT := 40
  const BATCH_SIZE := 3
  const INITIAL_INCREMENT := 2000
  const INCREMENT_STEP := 50
  const INCREMENT_FLOOR := 200

  /** The player's rectangle starts at `WIDTH // 2` on the bottom edge and only
      ever moves horizontally. */
  const PLAYER_START_X := WIDTH / 2
  const PLAYER_Y := HEIGHT - PLAYER_HEIGHT

  function Max(a: int, b: int): int { if a >= b then a else b }

  /** A pygame rectangle: left edge, top edge, width, height. */
  datatype Rect = Rect(x: int, y: int, w: int, h: int)

  /** pygame's `colliderect` on rectangles of positive size: the two overlap
      by a positive amount along both axes; touching edges do not collide. */
  predicate Overlaps(a: Rect, b: Rect)
  {
    a.x < b.x + b.w && b.x < a.x + a.w && a.y < b.y + b.h && b.y < a.y + a.h
  }

  function PlayerRect(x: int): Rect
  {
    Rect(x, PLAYER_Y, PLAYER_WIDTH, PLAYER_HEIGHT)
  }

  // ---------------------------------------------------------------------
  // Player movement

  /** The player lies within the playfield horizontally. */
  predicate InBounds(x: int) { 0 <= x <= WIDTH - PLAYER_WIDTH }

  /** The open interval every applied move lands in. */
  predicate StrictlyInside(x: int) { 0 < x < WIDTH - PLAYER_WIDTH }

  /** The two independent arrow-key moves; the right-hand guard sees the
      position the left-hand move left behind. */
  function KeyboardStep(x: int, leftHeld: bool, rightHeld: bool): int
  {
    var afterLeft := if leftHeld && x - KEYBOARD_VEL > 0 then x - KEYBOARD_VEL else x;
    if rightHeld && afterLeft + KEYBOARD_VEL < WIDTH - PLAYER_WIDTH then afterLeft + KEYBOARD_VEL
    else afterLeft
  }

  /** The voice move: one `if/elif`, so at most one displacement. */
  function VoiceStep(x: int, d: Direction): int
  {
    if d == Left && x - VOICE_VEL > 0 then x - VOICE_VEL
    else if d == Right && x + VOICE_VEL < WIDTH - PLAYER_WIDTH then x + VOICE_VEL
    else x
  }

  /** One tick's horizontal movement: the keyboard moves, then the voice move. */
  function MoveStep(x: int, leftHeld: bool, rightHeld: bool, d: Direction): int
  {
    VoiceStep(KeyboardStep(x, leftHeld, rightHeld), d)
  }

  /** Each keyboard move is applied exactly when its guard holds, moves by
      `KEYBOARD_VEL`, and from a position within bounds lands strictly inside;
      both moves may apply in one tick. */
  lemma KeyboardStepSpec(x: int, leftHeld: bool, rightHeld: bool)
    requires InBounds(x)
    ensures var r := KeyboardStep(x, leftHeld, rightHeld);
            (r == x || StrictlyInside(r)) &&
            (r - x == -KEYBOARD_VEL <==> leftHeld && x > KEYBOARD_VEL && !(rightHeld && x < WIDTH - PLAYER_WIDTH)) &&
            (r - x == KEYBOARD_VEL <==> rightHeld && !(leftHeld && x > KEYBOARD_VEL) && x + KEYBOARD_VEL < WIDTH - PLAYER_WIDTH) &&
            (r - x == -KEYBOARD_VEL || r == x || r - x == KEYBOARD_VEL)
    ensures !leftHeld && !rightHeld ==> KeyboardStep(x, leftHeld, rightHeld) == x
  {
  }

  /** The voice move is `VOICE_VEL` in the spoken direction exactly when its
      guard holds, none at all for `Neutral`, and lands strictly inside. */
  lemma VoiceStepSpec(x: int, d: Direction)
    requires InBounds(x)
    ensures var r := VoiceStep(x, d);
            (r == x || StrictlyInside(r)) &&
            (r == x - VOICE_VEL <==> d == Left && x > VOICE_VEL) &&
            (r == x + VOICE_VEL <==> d == Right && x + VOICE_VEL < WIDTH - PLAYER_WIDTH) &&
            (r == x - VOICE_VEL || r == x || r == x + VOICE_VEL)
    ensures d == Neutral ==> VoiceStep(x, d) == x
  {
  }

  /** The horizontal bound is an invariant of the movement step, and so is the
      open interval the player starts in. */
  lemma MoveStepKeepsBounds(x: int, leftHeld: bool, rightHeld: bool, d: Direction)
    ensures InBounds(x) ==> InBounds(MoveStep(x, leftHeld, rightHeld, d))
    ensures StrictlyInside(x) ==> StrictlyInside(MoveStep(x, leftHeld, rightHeld, d))
  {
    if InBounds(x) {
      KeyboardStepSpec(x, leftHeld, rightHeld);
      VoiceStepSpec(KeyboardStep(x, leftHeld, rightHeld), d);
    }
  }

  // ---------------------------------------------------------------------
  // Obstacle spawning

  /** The spawn threshold after one batch: 50 lower, but never below 200.
      Above the floor it strictly decreases; at the floor it stays there. */
  function NextIncrement(t: int): (r: int)
    ensures r >= INCREMENT_FLOOR
    ensures t > INCREMENT_FLOOR ==> r < t
    ensures t <= INCREMENT_FLOOR ==> r == INCREMENT_FLOOR
  {
    Max(INCREMENT_FLOOR, t - INCREMENT_STEP)
  }

  /** The spawn threshold after `n` batches of a session. */
  function IncrementAfter(n: nat): int
  {
    if n == 0 then INITIAL_INCREMENT else NextIncrement(IncrementAfter(n - 1))
  }

  lemma {:induction false} IncrementAfterClosedForm(n: nat)
    ensures IncrementAfter(n) == Max(INCREMENT_FLOOR, INITIAL_INCREMENT - INCREMENT_STEP * n)
  {
    if n > 0 {
      IncrementAfterClosedForm(n - 1);
    }
  }

  /** The threshold never increases and never drops below the floor; it
      reaches the floor after 36 batches. */
  lemma IncrementNonIncreasing(m: nat, n: nat)
    requires m <= n
    ensures INCREMENT_FLOOR <= IncrementAfter(n) <= IncrementAfter(m) <= INITIAL_INCREMENT
    ensures n >= 36 ==> IncrementAfter(n) == INCREMENT_FLOOR
  {
    IncrementAfterClosedForm(m);
    IncrementAfterClosedForm(n);
  }

  /** A freshly spawned obstacle: 30 by 40, just above the top edge. */
  function Meteor(x: int): Rect
  {
    Rect(x, -STAR_HEIGHT, STAR_WIDTH, STAR_HEIGHT)
  }

  /** The batch spawned from the batch's random x positions, in draw order. */
  function Batch(xs: seq<int>): seq<Rect>
  {
    seq(|xs|, k requires 0 <= k < |xs| => Meteor(xs[k]))
  }

  /** `random.randint(0, WIDTH - 30)` draws x positions in this range. */
  predicate ValidDraws(xs: seq<int>)
  {
    |xs| == BATCH_SIZE && forall k :: 0 <= k < |xs| ==> 0 <= xs[k] <= WIDTH - STAR_WIDTH
  }

  /** An obstacle as the game keeps it: the spawned size and x range, never
      above its spawn height and never below the bottom edge. */
  predicate IsLiveMeteor(r: Rect)
  {
    r.w == STAR_WIDTH && r.h == STAR_HEIGHT && 0 <= r.x <= WIDTH - STAR_WIDTH &&
    -STAR_HEIGHT <= r.y <= HEIGHT
  }

  /** A batch holds exactly three obstacles, each 30x40 at y = -40 with the
      drawn x. */
  lemma BatchSpec(xs: seq<int>)
    requires ValidDraws(xs)
    ensures |Batch(xs)| == 3
    ensures forall k :: 0 <= k < 3 ==>
      Batch(xs)[k] == Rect(xs[k], -40, 30, 40) && IsLiveMeteor(Batch(xs)[k])
  {
  }

  // ---------------------------------------------------------------------
  // Obstacle advance and collision scan

  predicate OnScreen(r: Rect) { r.y <= HEIGHT }

  /** An obstacle after one tick's fall. */
  function Fall(r: Rect): Rect { r.(y := r.y + STAR_VEL) }

  /** The visited obstacle, once moved, is kept and collides with the player. */
  predicate Hits(star: Rect, player: Rect)
  {
    OnScreen(Fall(star)) && Overlaps(Fall(star), player)
  }

  datatype ScanOutcome = ScanOutcome(remaining: seq<Rect>, hit: bool)

  /** The scan in list order: each visited obstacle falls; one that has left
      the bottom edge is dropped; the first kept one that overlaps the player
      is a hit and ends the scan, leaving the rest unvisited and unmoved. */
  function Scan(stars: seq<Rect>, player: Rect): ScanOutcome
  {
    if stars == [] then ScanOutcome([], false)
    else
      var star := Fall(stars[0]);
      if !OnScreen(star) then Scan(stars[1..], player)
      else if Overlaps(star, player) then ScanOutcome([star] + stars[1..], true)
      else
        var rest := Scan(stars[1..], player);
        ScanOutcome([star] + rest.remaining, rest.hit)
  }

  /** Every obstacle moved down one tick, in order. */
  function AdvanceAll(stars: seq<Rect>): seq<Rect>
  {
    seq(|stars|, k requires 0 <= k < |stars| => Fall(stars[k]))
  }

  /** The obstacles still on screen, in order. */
  function KeepOnScreen(stars: seq<Rect>): seq<Rect>
  {
    if stars == [] then []
    else if OnScreen(stars[0]) then [stars[0]] + KeepOnScreen(stars[1..])
    else KeepOnScreen(stars[1..])
  }

  /** Filtering distributes over concatenation. */
  lemma {:induction false} KeepOnScreenAppend(a: seq<Rect>, b: seq<Rect>)
    ensures KeepOnScreen(a + b) == KeepOnScreen(a) + KeepOnScreen(b)
  {
    if a != [] {
      assert (a + b)[1..] == a[1..] + b;
      KeepOnScreenAppend(a[1..], b);
    } else {
      assert a + b == b;
    }
  }

  lemma {:induction false} KeepOnScreenAllOnScreen(stars: seq<Rect>)
    ensures forall k :: 0 <= k < |KeepOnScreen(stars)| ==> OnScreen(KeepOnScreen(stars)[k])
  {
    if stars != [] {
      KeepOnScreenAllOnScreen(stars[1..]);
    }
  }

  /** With no hit, the scan leaves exactly the advanced list filtered by
      `y <= HEIGHT`, in the original order. */
  lemma {:induction false} ScanWithoutHit(stars: seq<Rect>, player: Rect)
    requires forall k :: 0 <= k < |stars| ==> !Hits(stars[k], player)
    ensures Scan(stars, player) == ScanOutcome(KeepOnScreen(AdvanceAll(stars)), false)
    ensures forall k :: 0 <= k < |Scan(stars, player).remaining| ==> OnScreen(Scan(stars, player).remaining[k])
  {
    if stars != [] {
      assert !Hits(stars[0], player);
      ScanWithoutHit(stars[1..], player);
      assert AdvanceAll(stars)[1..] == AdvanceAll(stars[1..]);
    }
    KeepOnScreenAllOnScreen(AdvanceAll(stars));
  }

  /** With a first hit at position `k`, the obstacles before it are advanced
      and filtered, the hit one is advanced and kept, and those after it are
      untouched. */
  lemma {:induction false} ScanFirstHit(stars: seq<Rect>, player: Rect, k: nat)
    requires k < |stars| && Hits(stars[k], player)
    requires forall j :: 0 <= j < k ==> !Hits(stars[j], player)
    ensures Scan(stars, player) ==
      ScanOutcome(KeepOnScreen(AdvanceAll(stars[..k])) + [Fall(stars[k])] + stars[k + 1..], true)
  {
    if k == 0 {
      assert stars[..0] == [];
    } else {
      assert !Hits(stars[0], player);
      ScanFirstHit(stars[1..], player, k - 1);
      assert stars[1..][..k - 1] == stars[..k][1..];
      assert stars[1..][k - 1 + 1..] == stars[k + 1..];
      assert AdvanceAll(stars[..k])[1..] == AdvanceAll(stars[..k][1..]);
    }
  }

  /** The scan reports a hit exactly when some obstacle, once moved, is still
      on screen and overlaps the player; an obstacle that falls off the bottom
      is never reported. */
  lemma {:induction false} ScanHitIff(stars: seq<Rect>, player: Rect)
    ensures Scan(stars, player).hit <==> exists k :: 0 <= k < |stars| && Hits(stars[k], player)
  {
    if stars != [] {
      ScanHitIff(stars[1..], player);
      if exists k :: 0 <= k < |stars[1..]| && Hits(stars[1..][k], player) {
        var k :| 0 <= k < |stars[1..]| && Hits(stars[1..][k], player);
        assert Hits(stars[k + 1], player);
      }
      if exists k :: 0 <= k < |stars| && Hits(stars[k], player) {
        var k :| 0 <= k < |stars| && Hits(stars[k], player);
        if k > 0 {
          assert Hits(stars[1..][k - 1], player);
        }
      }
    }
  }

  /** The scan never adds obstacles. */
  lemma {:induction false} ScanShrinks(stars: seq<Rect>, player: Rect)
    ensures |Scan(stars, player).remaining| <= |stars|
  {
    if stars != [] {
      ScanShrinks(stars[1..], player);
    }
  }

  /** Python's `list.remove`: drop the first element equal to `x`. Exactly
      one element goes when `x` is present; otherwise nothing changes. */
  function RemoveFirst(s: seq<Rect>, x: Rect): (r: seq<Rect>)
    ensures x in s ==> |r| == |s| - 1
    ensures x !in s ==> r == s
  {
    if s == [] then []
    else if s[0] == x then s[1..]
    else [s[0]] + RemoveFirst(s[1..], x)
  }

  /** Removing by value drops position `j` when no earlier element is equal. */
  lemma {:induction false} RemoveFirstAt(s: seq<Rect>, x: Rect, j: nat)
    requires j < |s| && s[j] == x
    requires forall i :: 0 <= i < j ==> s[i] != x
    ensures RemoveFirst(s, x) == s[..j] + s[j + 1..]
  {
    if j > 0 {
      assert s[0] != x;
      RemoveFirstAt(s[1..], x, j - 1);
      assert s[1..][..j - 1] == s[1..j];
      assert s[1..][j - 1 + 1..] == s[j + 1..];
      assert s[..j] == [s[0]] + s[1..j];
    }
  }

  /** The obstacle at y = 795 stays after one tick on an 800-high field: it is
      at 797, not past the bottom edge. One at 799 is dropped. */
  lemma BottomEdgeScenario()
    ensures Scan([Rect(0, 795, 30, 40)], PlayerRect(PLAYER_START_X)) ==
            ScanOutcome([Rect(0, 797, 30, 40)], false)
    ensures Scan([Rect(0, 799, 30, 40)], PlayerRect(PLAYER_START_X)) == ScanOutcome([], false)
  {
    assert [Rect(0, 795, 30, 40)][1..] == [];
    assert [Rect(0, 799, 30, 40)][1..] == [];
  }

  // ---------------------------------------------------------------------
  // High score

  /** What a collision does to the high score: `saved` is whether the score is
      written to the high-score file. */
  datatype HighScoreUpdate = HighScoreUpdate(high: real, saved: bool)

  /** On a hit the high score becomes the larger of itself and the score, and
      it is saved only when the score beats it. */
  function HighScoreAfterHit(score: real, high: real): (u: HighScoreUpdate)
    ensures u.high >= high && u.high >= score
    ensures u.high == high || u.high == score
    ensures u.saved <==> score > high
    ensures u.saved ==> u.high == score
  {
    if score > high then HighScoreUpdate(score, true) else HighScoreUpdate(high, false)
  }

  /** The high score across consecutive sessions that each ended in a
      collision with the given final scores, starting from the stored one. */
  function HighScoreAcross(stored: real, finals: seq<real>): real
    decreases |finals|
  {
    if finals == [] then stored
    else HighScoreAcross(HighScoreAfterHit(finals[0], stored).high, finals[1..])
  }

  /** The stored high score ends as the maximum of its starting value and
      every final score. */
  lemma {:induction false} HighScoreAcrossIsMax(stored: real, finals: seq<real>)
    ensures HighScoreAcross(stored, finals) >= stored
    ensures forall k :: 0 <= k < |finals| ==> HighScoreAcross(stored, finals) >= finals[k]
    ensures HighScoreAcross(stored, finals) == stored ||
            exists k :: 0 <= k < |finals| && HighScoreAcross(stored, finals) == finals[k]
    decreases |finals|
  {
    if finals != [] {
      var next := HighScoreAfterHit(finals[0], stored).high;
      HighScoreAcrossIsMax(next, finals[1..]);
      var h := HighScoreAcross(stored, finals);
      assert h == HighScoreAcross(next, finals[1..]);
      forall k | 0 <= k < |finals| ensures h >= finals[k] {
        if k > 0 {
          assert finals[1..][k - 1] == finals[k];
        }
      }
      if h != next {
        var k :| 0 <= k < |finals[1..]| && h == finals[1..][k];
        assert h == finals[k + 1];
      } else if next != stored {
        assert h == finals[0];
      }
    }
  }
}
