/** The round engine's rules on values: what one tick does to one slot and to
    the player's record, and what a whole tick does to the pool. The class in
    module Engine is proved to do exactly this. */
module Rules {
  import opened Geometry
  import opened Hud

  const CanvasWidth: int := 640
  const CanvasHeight: int := 360
  const InitialLives: int := 10

  /** One collectible slot of the pool: its visibility flag and its position. */
  datatype Slot = Slot(renderable: bool, x: real, y: int)

  /** The player's record (lives, points, speed) with the round flag and the
      HUD label, as one value. */
  datatype Round = Round(lives: int, points: nat, speed: int, inGame: bool, text: string)

  /** What happens to one slot during one tick. */
  datatype Outcome =
    | Idle      // dormant, lost the spawn draw
    | Spawned   // dormant, won the spawn draw
    | Advanced  // falling, moved down by one and was neither caught nor missed
    | Caught    // falling, overlapped the player after moving
    | Missed    // falling, moved past the bottom edge

  /** The fall step of `UpdateCollectibleItemsPositions`. */
  function NextPosition(pos: int): int { pos + 1 }

  /** The bounds check of `CheckCollectibleItemsPosition`: false only past the bottom edge. */
  predicate InBounds(pos: int) { !(pos > CanvasHeight) }

  /** The invariant every slot keeps: dormant slots sit at the top, falling
      slots lie inside the canvas. */
  predicate SlotOk(s: Slot)
  {
    (!s.renderable ==> s.y == 0) && (s.renderable ==> 0 <= s.y <= CanvasHeight)
  }

  predicate PoolOk(slots: seq<Slot>) { forall i :: 0 <= i < |slots| ==> SlotOk(slots[i]) }

  /** `CollectibleItemsDisable`: hide the slot and put it back at the top; x is kept. */
  function Disabled(s: Slot): Slot { s.(renderable := false, y := 0) }

  /** `SpawnCollectibleItems`: show the slot at the drawn horizontal position; y is kept. */
  function SpawnedAt(s: Slot, x: real): Slot { s.(renderable := true, x := x) }

  /** Whether slot i, once moved down by one, overlaps the player's bounds. */
  predicate Hit(i: nat, s: Slot, player: Rect, bounds: (nat, real, int) -> Rect)
  {
    Overlaps(bounds(i, s.x, NextPosition(s.y)), player)
  }

  /** The branch `UpdateCollectibleItems` takes for a slot, given the spawn
      draw and whether the moved slot overlaps the player. */
  function Classify(s: Slot, spawn: bool, hit: bool): Outcome
  {
    if s.renderable then
      if InBounds(NextPosition(s.y)) then (if hit then Caught else Advanced) else Missed
    else if spawn then Spawned else Idle
  }

  /** The slot after its outcome. */
  function StepSlot(s: Slot, o: Outcome, spawnX: real): Slot
  {
    match o
    case Idle => s
    case Spawned => SpawnedAt(s, spawnX)
    case Advanced => s.(y := NextPosition(s.y))
    case Caught => Disabled(s)
    case Missed => Disabled(s)
  }

  /** The points increment and label update of a catch. */
  function Collect(r: Round): Round
  {
    r.(points := r.points + 1, text := PointsText(r.points + 1))
  }

  /** `CheckGameEnd`: lose a life; below zero the round ends with a summary label. */
  function GameEnd(r: Round): Round
  {
    var lost := r.(lives := r.lives - 1);
    if lost.lives < 0 then lost.(inGame := false, text := EndGameText(lost.points)) else lost
  }

  /** The player's record after one slot's outcome. */
  function StepRound(r: Round, o: Outcome): Round
  {
    match o
    case Caught => Collect(r)
    case Missed => GameEnd(r)
    case _ => r
  }

  /** `ResetPlayerData`. */
  function Reset(r: Round): Round { r.(lives := InitialLives, points := 0, speed := 1) }

  /** `StartGame` on the player's record: the label is written before the reset. */
  function Start(r: Round): Round { Reset(r.(inGame := true, text := PointsText(r.points))) }

  /** The outcome of every slot of the pool in one tick. */
  function Outcomes(slots: seq<Slot>, spawn: seq<bool>, player: Rect, bounds: (nat, real, int) -> Rect): (os: seq<Outcome>)
    requires |spawn| == |slots|
    ensures |os| == |slots|
  {
    seq(|slots|, i requires 0 <= i < |slots| => Classify(slots[i], spawn[i], Hit(i, slots[i], player, bounds)))
  }

  /** The pool after one tick, slot by slot. */
  function StepSlots(slots: seq<Slot>, os: seq<Outcome>, spawnX: seq<real>): (r: seq<Slot>)
    requires |os| == |slots| == |spawnX|
    ensures |r| == |slots|
  {
    seq(|slots|, i requires 0 <= i < |slots| => StepSlot(slots[i], os[i], spawnX[i]))
  }

  /** The player's record after the outcomes, applied in pool order. */
  function RoundAfter(r: Round, os: seq<Outcome>): Round
  {
    if os == [] then r else StepRound(RoundAfter(r, os[..|os| - 1]), os[|os| - 1])
  }

  /** How many of the outcomes are o. */
  function Count(os: seq<Outcome>, o: Outcome): nat
  {
    if os == [] then 0 else Count(os[..|os| - 1], o) + (if os[|os| - 1] == o then 1 else 0)
  }

  function Repeat(o: Outcome, k: nat): (os: seq<Outcome>)
    ensures |os| == k && forall i :: 0 <= i < k ==> os[i] == o
  {
    seq(k, _ => o)
  }

  // ---------------------------------------------------------------------
  // The step and the bounds check

  /** Any position steps to exactly one more, and is in bounds exactly when it
      is at most 360: y == 360 is still in bounds and y == 361 is a miss. So a
      falling slot inside the canvas leaves it exactly when it was at the
      bottom edge. */
  lemma StepAndBounds(p: int)
    ensures NextPosition(p) - p == 1
    ensures InBounds(p) <==> p <= CanvasHeight
    ensures InBounds(CanvasHeight) && !InBounds(CanvasHeight + 1)
    ensures 0 <= p <= CanvasHeight ==> (InBounds(NextPosition(p)) <==> p < CanvasHeight)
  {
  }

  // ---------------------------------------------------------------------
  // One slot, one tick

  /** Each slot does exactly one thing per tick. A falling slot advances by one
      with nothing else changed, or is caught (hidden, one more point, label
      updated), or is missed (hidden, one life less; only when that leaves the
      lives below zero does the round end with the summary label). It is
      missed exactly at the bottom edge and caught exactly inside it on
      overlap, so never both.
      A dormant slot touches nothing but itself: it spawns at the drawn x with
      y still 0, or stays as it is. */
  lemma SlotTick(s: Slot, r: Round, spawn: bool, hit: bool, spawnX: real)
    requires SlotOk(s)
    ensures var o := Classify(s, spawn, hit);
            var s' := StepSlot(s, o, spawnX);
            var r' := StepRound(r, o);
            && (o == Missed <==> s.renderable && s.y == CanvasHeight)
            && (o == Caught <==> s.renderable && s.y < CanvasHeight && hit)
            && (o == Advanced <==> s.renderable && s.y < CanvasHeight && !hit)
            && (o == Spawned <==> !s.renderable && spawn)
            && (o == Advanced ==> s' == s.(y := s.y + 1) && r' == r)
            && (o == Caught ==> !s'.renderable && s'.y == 0 && s'.x == s.x &&
                                r'.points == r.points + 1 && r'.lives == r.lives &&
                                r'.speed == r.speed &&
                                r'.text == PointsText(r'.points) && r'.inGame == r.inGame)
            && (o == Missed ==> !s'.renderable && s'.y == 0 && s'.x == s.x &&
                                r'.points == r.points && r'.lives == r.lives - 1 &&
                                r'.speed == r.speed &&
                                (r.lives >= 1 ==> r'.inGame == r.inGame && r'.text == r.text) &&
                                (r.lives < 1 ==> !r'.inGame && r'.text == EndGameText(r.points)))
            && (o == Spawned ==> s'.renderable && s'.x == spawnX && s'.y == 0 && r' == r)
            && (o == Idle ==> s' == s && r' == r)
  {
  }

  /** The slot invariant survives one tick. */
  lemma StepSlotOk(s: Slot, spawn: bool, hit: bool, spawnX: real)
    requires SlotOk(s)
    ensures SlotOk(StepSlot(s, Classify(s, spawn, hit), spawnX))
  {
  }

  /** The pool invariant survives one tick, and the pool keeps its length. */
  lemma StepSlotsOk(slots: seq<Slot>, spawn: seq<bool>, spawnX: seq<real>, player: Rect, bounds: (nat, real, int) -> Rect)
    requires |spawn| == |slots| == |spawnX|
    requires PoolOk(slots)
    ensures var after := StepSlots(slots, Outcomes(slots, spawn, player, bounds), spawnX);
            |after| == |slots| && PoolOk(after)
  {
    var os := Outcomes(slots, spawn, player, bounds);
    forall i | 0 <= i < |slots|
      ensures SlotOk(StepSlots(slots, os, spawnX)[i])
    {
      StepSlotOk(slots[i], spawn[i], Hit(i, slots[i], player, bounds), spawnX[i]);
    }
  }

  // ---------------------------------------------------------------------
  // A whole tick on the player's record

  /** Over a tick, the points gained are the catches and the lives lost are
      the misses; speed never changes. */
  lemma {:induction false} RoundAfterCounts(r: Round, os: seq<Outcome>)
    ensures RoundAfter(r, os).points == r.points + Count(os, Caught)
    ensures RoundAfter(r, os).lives == r.lives - Count(os, Missed)
    ensures RoundAfter(r, os).speed == r.speed
  {
    if os != [] {
      RoundAfterCounts(r, os[..|os| - 1]);
    }
  }

  /** The round is still on after a sequence of outcomes exactly when it was on
      before and either nothing was missed or the lives did not drop below zero. */
  lemma {:induction false} RoundAfterInGame(r: Round, os: seq<Outcome>)
    ensures RoundAfter(r, os).inGame <==>
            r.inGame && (Count(os, Missed) == 0 || r.lives - Count(os, Missed) >= 0)
  {
    if os != [] {
      var init := os[..|os| - 1];
      RoundAfterInGame(r, init);
      RoundAfterCounts(r, init);
    }
  }

  /** The label shows the running total after a catch. */
  lemma LastCatchShowsPoints(r: Round, os: seq<Outcome>)
    requires os != [] && os[|os| - 1] == Caught
    ensures RoundAfter(r, os).text == PointsText(RoundAfter(r, os).points)
  {
  }

  /** A miss that leaves the lives below zero shows the end-of-round summary. */
  lemma LastMissShowsSummary(r: Round, os: seq<Outcome>)
    requires os != [] && os[|os| - 1] == Missed && RoundAfter(r, os).lives < 0
    ensures RoundAfter(r, os).text == EndGameText(RoundAfter(r, os).points)
    ensures !RoundAfter(r, os).inGame
  {
  }

  lemma {:induction false} CountRepeat(o: Outcome, p: Outcome, k: nat)
    ensures Count(Repeat(o, k), p) == if o == p then k else 0
  {
    if k > 0 {
      assert Repeat(o, k)[..k - 1] == Repeat(o, k - 1);
      CountRepeat(o, p, k - 1);
    }
  }

  /** From a fresh round (10 lives), consecutive misses take the lives down
      one at a time, and the round ends exactly with the 11th miss. */
  lemma MissesEndRoundOnEleventh(r: Round, k: nat)
    requires r.inGame && r.lives == InitialLives
    ensures RoundAfter(r, Repeat(Missed, k)).lives == InitialLives - k
    ensures RoundAfter(r, Repeat(Missed, k)).points == r.points
    ensures RoundAfter(r, Repeat(Missed, k)).inGame <==> k <= 10
  {
    CountRepeat(Missed, Missed, k);
    CountRepeat(Missed, Caught, k);
    RoundAfterCounts(r, Repeat(Missed, k));
    RoundAfterInGame(r, Repeat(Missed, k));
  }

  /** The loop over the pool does not stop when the round ends: a second miss
      in the same tick takes the lives to -2, and a later catch in that tick
      still scores and overwrites the summary with `Points: N`. */
  lemma SameTickAfterEnd(r: Round)
    requires r.inGame && r.lives == 0
    ensures RoundAfter(r, [Missed, Missed]).lives == -2
    ensures !RoundAfter(r, [Missed, Missed]).inGame
    ensures RoundAfter(r, [Missed, Caught]).lives == -1
    ensures !RoundAfter(r, [Missed, Caught]).inGame
    ensures RoundAfter(r, [Missed, Caught]).text == PointsText(r.points + 1)
  {
    assert [Missed, Missed][..1] == [Missed];
    assert [Missed, Caught][..1] == [Missed];
    assert [Missed][..0] == [];
    assert RoundAfter(r, [Missed][..0]) == r;
    var ended := RoundAfter(r, [Missed]);
    assert ended == GameEnd(r);
    assert RoundAfter(r, [Missed, Missed]) == GameEnd(ended);
    assert RoundAfter(r, [Missed, Caught]) == Collect(ended);
  }

  // ---------------------------------------------------------------------
  // Reset and start

  /** `ResetPlayerData` gives lives 10, points 0, speed 1 and is idempotent. */
  lemma ResetIdempotent(r: Round)
    ensures Reset(r).lives == InitialLives && Reset(r).points == 0 && Reset(r).speed == 1
    ensures Reset(r).inGame == r.inGame && Reset(r).text == r.text
    ensures Reset(Reset(r)) == Reset(r)
  {
  }

  /** Starting a round turns it on with a reset record; the label shows the
      points from before the reset. */
  lemma StartRound(r: Round)
    ensures Start(r).inGame
    ensures Start(r).lives == InitialLives && Start(r).points == 0 && Start(r).speed == 1
    ensures Start(r).text == PointsText(r.points)
    ensures r.points != 0 ==> Start(r).text != PointsText(Start(r).points)
  {
    PointsTextInjective(r.points, 0);
  }
}
