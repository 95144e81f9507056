// One session of the game loop in `main()`: the player rectangle, the
// obstacle list, the spawn accumulator and threshold, and the high score,
// updated in place tick by tick. Each step is proved against the rule it
// follows in the Rules module.
module Game {
  import opened Voice
  import opened Rules

  /** Every obstacle in the list is live. */
  ghost predicate AllLive(s: seq<Rect>)
  {
    forall k :: 0 <= k < |s| ==> IsLiveMeteor(s[k])
  }

  lemma AllLiveConcat(a: seq<Rect>, b: seq<Rect>, c: seq<Rect>)
    requires AllLive(a) && AllLive(b) && AllLive(c)
    ensures AllLive(a + b + c)
  {
  }

  /** What the scan loop has left of the first `i` visited obstacles when
      none of them was a hit: those still on screen, moved. */
  ghost function KeptOf(s: seq<Rect>, i: nat): seq<Rect>
    requires i <= |s|
  {
    KeepOnScreen(AdvanceAll(s[..i]))
  }

  /** Visiting an obstacle past the bottom edge: moving it in place and then
      removing it by value leaves the list without it. */
  lemma DropStep(list: seq<Rect>, kept: seq<Rect>, s: seq<Rect>, i: nat)
    requires i < |s| && list == kept + s[i..] && kept == KeptOf(s, i)
    requires AllLive(kept) && !OnScreen(Fall(s[i]))
    ensures var star := Fall(s[i]);
            RemoveFirst(list[|kept| := star], star) == kept + s[i + 1..] &&
            kept == KeptOf(s, i + 1)
  {
    var star := Fall(s[i]);
    var rest := s[i + 1..];
    assert s[i..] == [s[i]] + rest;
    assert list[|kept| := star] == kept + [star] + rest;
    RemoveVisited(kept, star, rest);
    KeptOfStep(s, i);
  }

  /** Visiting an obstacle that stays on screen clear of the player: it is
      moved in place and kept. */
  lemma KeepStep(list: seq<Rect>, kept: seq<Rect>, s: seq<Rect>, i: nat)
    requires i < |s| && list == kept + s[i..] && kept == KeptOf(s, i)
    requires AllLive(kept) && AllLive(s) && OnScreen(Fall(s[i]))
    ensures var star := Fall(s[i]);
            list[|kept| := star] == (kept + [star]) + s[i + 1..] &&
            kept + [star] == KeptOf(s, i + 1) &&
            AllLive(kept + [star])
  {
    var star := Fall(s[i]);
    assert s[i..] == [s[i]] + s[i + 1..];
    assert list[|kept| := star] == (kept + [star]) + s[i + 1..];
    assert IsLiveMeteor(s[i]);
    KeptOfStep(s, i);
  }

  /** Visiting an obstacle that stays on screen and overlaps the player: it
      is moved in place and every obstacle in the list is still live. */
  lemma HitStep(list: seq<Rect>, kept: seq<Rect>, s: seq<Rect>, i: nat)
    requires i < |s| && list == kept + s[i..]
    requires AllLive(kept) && AllLive(s) && OnScreen(Fall(s[i]))
    ensures var star := Fall(s[i]);
            list[|kept| := star] == kept + [star] + s[i + 1..] &&
            AllLive(list[|kept| := star])
  {
    var star := Fall(s[i]);
    assert s[i..] == [s[i]] + s[i + 1..];
    assert list[|kept| := star] == kept + [star] + s[i + 1..];
    assert IsLiveMeteor(s[i]);
  }

  /** One more visited obstacle extends the kept prefix by that obstacle,
      moved, when it is still on screen. */
  lemma KeptOfStep(s: seq<Rect>, i: nat)
    requires i < |s|
    ensures KeptOf(s, i + 1) ==
            KeptOf(s, i) + (if OnScreen(Fall(s[i])) then [Fall(s[i])] else [])
  {
    assert AdvanceAll(s[..i + 1]) == AdvanceAll(s[..i]) + [Fall(s[i])];
    KeepOnScreenAppend(AdvanceAll(s[..i]), [Fall(s[i])]);
    assert [Fall(s[i])][1..] == [];
  }

  /** `list.remove` of a visited obstacle past the bottom edge removes that
      obstacle: every element before it is still on screen. */
  lemma RemoveVisited(kept: seq<Rect>, star: Rect, rest: seq<Rect>)
    requires AllLive(kept) && star.y > HEIGHT
    ensures RemoveFirst(kept + [star] + rest, star) == kept + rest
  {
    var s := kept + [star] + rest;
    RemoveFirstAt(s, star, |kept|);
    assert s[..|kept|] == kept;
    assert s[|kept| + 1..] == rest;
  }

  class Session {
    /** `player.x`; the player's y, width and height never change. */
    var playerX: int
    /** `stars`, the obstacle list, in list order. */
    var stars: seq<Rect>
    /** `star_count`: milliseconds accumulated since the last batch. */
    var starCount: int
    /** `star_add_increment`: the accumulator's spawn threshold. */
    var starAddIncrement: int
    /** `high_score`, as loaded at session start and raised on a collision. */
    var highScore: real
    /** How many batches this session has spawned so far. */
    ghost var batches: nat

    /** The state every tick preserves: the player within the horizontal
        bounds, the threshold between its floor and its start value, the
        accumulator at most the threshold, and every obstacle the spawned size
        within the x range and between its spawn height and the bottom edge.
        The threshold is the one reached after the batches spawned so far. */
    ghost predicate Valid()
      reads this
    {
      InBounds(playerX) &&
      INCREMENT_FLOOR <= starAddIncrement <= INITIAL_INCREMENT &&
      starAddIncrement == IncrementAfter(batches) &&
      0 <= starCount <= starAddIncrement &&
      AllLive(stars)
    }

    function Player(): Rect
      reads this
    {
      PlayerRect(playerX)
    }

    constructor (storedHighScore: real)
      ensures Valid()
      ensures playerX == PLAYER_START_X && StrictlyInside(playerX)
      ensures stars == [] && starCount == 0 && starAddIncrement == INITIAL_INCREMENT
      ensures highScore == storedHighScore && batches == 0
    {
      playerX := PLAYER_START_X;
      stars := [];
      starCount := 0;
      starAddIncrement := INITIAL_INCREMENT;
      highScore := storedHighScore;
      batches := 0;
    }

    /** Adds the tick's elapsed milliseconds to the accumulator; when it passes
        the threshold, appends one batch built from the drawn x positions,
        lowers the threshold and resets the accumulator. Obstacles already in
        the list are left as they were. */
    method Spawn(elapsedMs: nat, xs: seq<int>) returns (spawned: bool)
      requires Valid() && ValidDraws(xs)
      modifies this`stars, this`starCount, this`starAddIncrement, this`batches
      ensures Valid()
      ensures spawned <==> old(starCount) + elapsedMs > old(starAddIncrement)
      ensures stars == if spawned then old(stars) + Batch(xs) else old(stars)
      ensures starAddIncrement == if spawned then NextIncrement(old(starAddIncrement)) else old(starAddIncrement)
      ensures starCount == if spawned then 0 else old(starCount) + elapsedMs
      ensures batches == if spawned then old(batches) + 1 else old(batches)
    {
      starCount := starCount + elapsedMs;
      spawned := starCount > starAddIncrement;
      if spawned {
        for j := 0 to BATCH_SIZE
          invariant stars == old(stars) + Batch(xs[..j])
          invariant starAddIncrement == old(starAddIncrement)
          invariant batches == old(batches)
        {
          var star := Meteor(xs[j]);
          assert Batch(xs[..j + 1]) == Batch(xs[..j]) + [star];
          stars := stars + [star];
        }
        assert xs[..BATCH_SIZE] == xs;
        starAddIncrement := Max(INCREMENT_FLOOR, starAddIncrement - INCREMENT_STEP);
        starCount := 0;
        batches := batches + 1;
        IncrementNonIncreasing(0, batches);
        BatchSpec(xs);
        AllLiveConcat(old(stars), Batch(xs), []);
      }
    }

    /** The keyboard moves and then the voice move of one tick. */
    method Move(leftHeld: bool, rightHeld: bool, direction: Direction)
      requires Valid()
      modifies this`playerX
      ensures Valid()
      ensures playerX == MoveStep(old(playerX), leftHeld, rightHeld, direction)
    {
      if leftHeld && playerX - KEYBOARD_VEL > 0 {
        playerX := playerX - KEYBOARD_VEL;
      }
      if rightHeld && playerX + KEYBOARD_VEL < WIDTH - PLAYER_WIDTH {
        playerX := playerX + KEYBOARD_VEL;
      }
      if direction == Left && playerX - VOICE_VEL > 0 {
        playerX := playerX - VOICE_VEL;
      } else if direction == Right && playerX + VOICE_VEL < WIDTH - PLAYER_WIDTH {
        playerX := playerX + VOICE_VEL;
      }
      MoveStepKeepsBounds(old(playerX), leftHeld, rightHeld, direction);
    }

    /** One iteration of the scan: moves the visited obstacle `snapshot[i]`,
        which sits at position `j` of the list, and then removes it, reports
        it as a hit, or keeps it. `kept` is what the list holds before `j`. */
    method VisitStar(snapshot: seq<Rect>, player: Rect, i: nat, j: nat, ghost kept: seq<Rect>)
      returns (hit: bool, j': nat, ghost kept': seq<Rect>)
      requires i < |snapshot| && AllLive(snapshot)
      requires j == |kept| && stars == kept + snapshot[i..]
      requires kept == KeptOf(snapshot, i) && AllLive(kept)
      modifies this`stars
      ensures hit <==> Hits(snapshot[i], player)
      ensures hit ==> stars == kept + [Fall(snapshot[i])] + snapshot[i + 1..] && AllLive(stars)
      ensures !hit ==> j' == |kept'| && stars == kept' + snapshot[i + 1..] &&
                       kept' == KeptOf(snapshot, i + 1) && AllLive(kept')
    {
      var star := Fall(snapshot[i]);
      ghost var list := stars;
      stars := stars[j := star];
      hit, j', kept' := false, j, kept;
      if star.y > HEIGHT {
        DropStep(list, kept, snapshot, i);
        stars := RemoveFirst(stars, star);
      } else if Overlaps(star, player) {
        hit := true;
        HitStep(list, kept, snapshot, i);
      } else {
        KeepStep(list, kept, snapshot, i);
        kept' := kept + [star];
        j' := j + 1;
      }
    }

    /** Walks a copy of the obstacle list: moves each visited obstacle down,
        removes it from the list once it is past the bottom edge, and stops
        at the first one that collides with the player. */
    method AdvanceAndCollide() returns (hit: bool)
      requires Valid()
      modifies this`stars
      ensures Valid()
      ensures stars == Scan(old(stars), Player()).remaining
      ensures hit == Scan(old(stars), Player()).hit
    {
      var snapshot := stars;
      var player := Player();
      ghost var kept: seq<Rect> := [];
      hit := false;
      // `star` in the source is an object shared by the copy and the list;
      // `j` is where that object currently sits in the list.
      var i, j := 0, 0;
      while i < |snapshot|
        invariant 0 <= i <= |snapshot|
        invariant j == |kept|
        invariant stars == kept + snapshot[i..]
        invariant kept == KeptOf(snapshot, i) && AllLive(kept)
        invariant forall k :: 0 <= k < i ==> !Hits(snapshot[k], player)
        invariant !hit
      {
        hit, j, kept := VisitStar(snapshot, player, i, j, kept);
        if hit {
          ScanFirstHit(snapshot, player, i);
          break;
        }
        i := i + 1;
      }
      if !hit {
        assert snapshot[..i] == snapshot;
        ScanWithoutHit(snapshot, player);
      }
    }

    /** On a collision: the high score becomes the larger of itself and the
        score, and `saved` says whether it was written out. */
    method RecordHit(score: real) returns (saved: bool)
      requires Valid()
      modifies this`highScore
      ensures Valid()
      ensures saved <==> score > old(highScore)
      ensures highScore == HighScoreAfterHit(score, old(highScore)).high
    {
      saved := false;
      if score > highScore {
        saved := true;
        highScore := score;
      }
    }

    /** One iteration of the game loop: spawn, move, advance and collide, and
        on a collision update the high score. */
    method Tick(elapsedMs: nat, xs: seq<int>, leftHeld: bool, rightHeld: bool,
                direction: Direction, score: real) returns (hit: bool, saved: bool)
      requires Valid() && ValidDraws(xs)
      modifies this
      ensures Valid()
      ensures var spawned := old(starCount) + elapsedMs > old(starAddIncrement);
              var before := if spawned then old(stars) + Batch(xs) else old(stars);
              var x := MoveStep(old(playerX), leftHeld, rightHeld, direction);
              var outcome := Scan(before, PlayerRect(x));
              playerX == x && stars == outcome.remaining && hit == outcome.hit &&
              starCount == (if spawned then 0 else old(starCount) + elapsedMs) &&
              starAddIncrement == (if spawned then NextIncrement(old(starAddIncrement)) else old(starAddIncrement)) &&
              batches == (if spawned then old(batches) + 1 else old(batches))
      ensures highScore == if hit then HighScoreAfterHit(score, old(highScore)).high else old(highScore)
      ensures saved <==> hit && score > old(highScore)
    {
      var _ := Spawn(elapsedMs, xs);
      Move(leftHeld, rightHeld, direction);
      hit := AdvanceAndCollide();
      saved := false;
      if hit {
        saved := RecordHit(score);
      }
    }
  }
}
