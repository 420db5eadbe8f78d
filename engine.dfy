/** The round engine as the program runs it: module-level state updated in
    place by the ticker callback and the two pointer handlers. */
module Engine {
  import opened Geometry
  import opened Hud
  import opened Rules

  /** The player sprite's fixed vertical position: screen height minus 100. */
  const PlayerY: real := 260.0

  class RoundEngine {
    /** The fixed pool of collectible slots, one per loaded item asset. */
    const items: array<Slot>
    /** The renderer's bounds of slot i drawn at (x, y). */
    const itemBounds: (nat, real, int) -> Rect
    /** The renderer's bounds of the player sprite drawn at (x, y). */
    const playerBounds: (real, real) -> Rect

    var playerX: real
    var lives: int
    var points: nat
    var speed: int
    var inGame: bool
    var text: string

    /** Every slot of the pool keeps the slot invariant. */
    ghost predicate Valid()
      reads this, items
    {
      PoolOk(items[..])
    }

    /** The player's record, round flag and label as one value. */
    function State(): Round
      reads this
    {
      Round(lives, points, speed, inGame, text)
    }

    function PlayerRect(): Rect
      reads this
    {
      playerBounds(playerX, PlayerY)
    }

    /** Whether slot i, where it is drawn now, overlaps the player. */
    predicate HitNow(i: nat)
      requires i < items.Length
      reads this, items
    {
      Overlaps(itemBounds(i, items[i].x, items[i].y), PlayerRect())
    }

    /** The state once the item assets and the player sprite have loaded:
        every slot hidden at y = 0, the player centred, the record reset by
        `initGame` and the start prompt on the label. */
    constructor (poolSize: nat, itemBounds: (nat, real, int) -> Rect, playerBounds: (real, real) -> Rect)
      ensures Valid() && fresh(items)
      ensures items.Length == poolSize
      ensures forall i :: 0 <= i < poolSize ==> items[i] == Slot(false, 0.0, 0)
      ensures this.itemBounds == itemBounds && this.playerBounds == playerBounds
      ensures State() == Round(InitialLives, 0, 1, false, StartPrompt)
      ensures playerX == CanvasWidth as real / 2.0
    {
      items := new Slot[poolSize](_ => Slot(false, 0.0, 0));
      this.itemBounds := itemBounds;
      this.playerBounds := playerBounds;
      playerX := CanvasWidth as real / 2.0;
      lives, points, speed := InitialLives, 0, 1;
      inGame := false;
      text := StartPrompt;
    }

    /** `ResetPlayerData`. */
    method ResetPlayerData()
      modifies this`lives, this`points, this`speed
      ensures State() == Reset(old(State()))
    {
      lives := InitialLives;
      points := 0;
      speed := 1;
    }

    /** `CollectibleItemsDisable`. */
    method Disable(i: nat)
      requires i < items.Length
      modifies items
      ensures items[..] == old(items[..])[i := Disabled(old(items[i]))]
    {
      items[i] := Disabled(items[i]);
    }

    /** `SpawnCollectibleItems`, with the drawn horizontal position passed in. */
    method Spawn(i: nat, x: real)
      requires i < items.Length
      modifies items
      ensures items[..] == old(items[..])[i := SpawnedAt(old(items[i]), x)]
    {
      items[i] := SpawnedAt(items[i], x);
    }

    /** `CheckGameEnd`. */
    method CheckGameEnd()
      modifies this`lives, this`inGame, this`text
      ensures State() == GameEnd(old(State()))
    {
      lives := lives - 1;
      if lives < 0 {
        inGame := false;
        text := EndGameText(points);
      }
    }

    /** `CheckCollectibleItemsCollection`: on overlap, hide the slot and score. */
    method CheckCollection(i: nat)
      requires i < items.Length
      modifies items, this`points, this`text
      ensures old(HitNow(i)) ==> items[..] == old(items[..])[i := Disabled(old(items[i]))] &&
                                 State() == Collect(old(State()))
      ensures !old(HitNow(i)) ==> items[..] == old(items[..]) && State() == old(State())
    {
      if HitNow(i) {
        Disable(i);
        points := points + 1;
        text := PointsText(points);
      }
    }

    /** The body of the `forEach` callback of `UpdateCollectibleItems` for
        slot i: a falling slot moves down and is then caught or missed; a
        dormant one spawns when it wins the draw. */
    method UpdateSlot(i: nat, spawn: bool, spawnX: real)
      requires i < items.Length
      modifies items, this`lives, this`points, this`inGame, this`text
      ensures var o := Classify(old(items[i]), spawn, Hit(i, old(items[i]), PlayerRect(), itemBounds));
              && items[..] == old(items[..])[i := StepSlot(old(items[i]), o, spawnX)]
              && State() == StepRound(old(State()), o)
    {
      var s := items[i];
      if s.renderable {
        items[i] := s.(y := NextPosition(s.y));
        if InBounds(items[i].y) {
          CheckCollection(i);
        } else {
          Disable(i);
          CheckGameEnd();
        }
      } else if spawn {
        Spawn(i, spawnX);
      }
    }

    /** `UpdateCollectibleItems`: every slot in pool order moves, is caught,
        is missed, spawns or idles; the pool and the record end up as the
        value-level rules say, and the slot invariant is kept. */
    method UpdateCollectibleItems(spawn: seq<bool>, spawnX: seq<real>)
      requires Valid()
      requires |spawn| == items.Length && |spawnX| == items.Length
      modifies items, this`lives, this`points, this`inGame, this`text
      ensures Valid()
      ensures var os := Outcomes(old(items[..]), spawn, PlayerRect(), itemBounds);
              && items[..] == StepSlots(old(items[..]), os, spawnX)
              && State() == RoundAfter(old(State()), os)
    {
      ghost var slots := items[..];
      ghost var start := State();
      ghost var os := Outcomes(slots, spawn, PlayerRect(), itemBounds);
      var i := 0;
      while i < items.Length
        invariant 0 <= i <= items.Length
        invariant forall j :: 0 <= j < i ==> items[j] == StepSlot(slots[j], os[j], spawnX[j])
        invariant forall j :: i <= j < items.Length ==> items[j] == slots[j]
        invariant State() == RoundAfter(start, os[..i])
      {
        UpdateSlot(i, spawn[i], spawnX[i]);
        assert os[..i + 1][..i] == os[..i];
        i := i + 1;
      }
      assert os[..items.Length] == os;
      assert items[..] == StepSlots(slots, os, spawnX);
      StepSlotsOk(slots, spawn, spawnX, PlayerRect(), itemBounds);
    }

    /** The ticker callback: one update while a round is on, nothing otherwise.
        The frame delta is ignored. */
    method Tick(spawn: seq<bool>, spawnX: seq<real>)
      requires Valid()
      requires |spawn| == items.Length && |spawnX| == items.Length
      modifies items, this`lives, this`points, this`inGame, this`text
      ensures Valid()
      ensures old(inGame) ==>
                var os := Outcomes(old(items[..]), spawn, PlayerRect(), itemBounds);
                && items[..] == StepSlots(old(items[..]), os, spawnX)
                && State() == RoundAfter(old(State()), os)
      ensures !old(inGame) ==> items[..] == old(items[..]) && State() == old(State())
    {
      if inGame {
        UpdateCollectibleItems(spawn, spawnX);
      }
    }

    /** `StartGame`: turn the round on, show the points from before the reset,
        reset the record and hide every slot. */
    method StartGame()
      modifies items, this`lives, this`points, this`speed, this`inGame, this`text
      ensures Valid()
      ensures State() == Start(old(State()))
      ensures forall i :: 0 <= i < items.Length ==> items[i] == Disabled(old(items[i]))
    {
      inGame := true;
      text := PointsText(points);
      ResetPlayerData();
      var i := 0;
      while i < items.Length
        invariant 0 <= i <= items.Length
        invariant forall j :: 0 <= j < i ==> items[j] == Disabled(old(items[j]))
        invariant forall j :: i <= j < items.Length ==> items[j] == old(items[j])
        invariant State() == Start(old(State()))
      {
        Disable(i);
        i := i + 1;
      }
    }

    /** `onPointerMove`: while a round is on, the player follows the pointer,
        unclamped to the canvas. */
    method PointerMove(clientX: real)
      modifies this`playerX
      ensures playerX == if old(inGame) then clientX else old(playerX)
    {
      if inGame {
        playerX := clientX;
      }
    }

    /** `onPointerDown`: start a round unless one is on. */
    method PointerDown()
      modifies items, this`lives, this`points, this`speed, this`inGame, this`text
      ensures old(inGame) ==> items[..] == old(items[..]) && State() == old(State())
      ensures !old(inGame) ==> Valid() && State() == Start(old(State())) &&
                               forall i :: 0 <= i < items.Length ==> items[i] == Disabled(old(items[i]))
    {
      if !inGame {
        StartGame();
      }
    }
  }

  /** A client of the engine: before the first pointer-down a tick changes
      nothing; a pointer-down starts a round with 10 lives; a won spawn draw
      shows the slot at the drawn x and y = 0; a pointer-move then moves the
      player to the pointer. */
  method FirstRound(itemBounds: (nat, real, int) -> Rect, playerBounds: (real, real) -> Rect)
  {
    var e := new RoundEngine(1, itemBounds, playerBounds);
    e.Tick([true], [5.0]);
    assert e.items[0] == Slot(false, 0.0, 0) && !e.inGame && e.text == StartPrompt;
    e.PointerDown();
    assert e.inGame && e.lives == InitialLives && e.points == 0;
    assert e.text == PointsText(0);
    e.Tick([true], [5.0]);
    assert e.items[0] == Slot(true, 5.0, 0);
    assert e.State() == Round(InitialLives, 0, 1, true, PointsText(0));
    e.PointerMove(-40.0);
    assert e.playerX == -40.0;
  }
}
