// Sprite-sheet animation (src/ecs/animation.rs): a frame counter that moves
// one frame on whenever more than one frame's time has accumulated, and the
// source rectangle on the sheet that the current frame selects.

module Animations {
  import opened Components
  import opened Ecs
  import opened Arithmetic

  datatype Animation = Animation(
    timePerFrame: real,
    sheetColumns: nat,
    sheetRows: nat,
    internalCounter: real,
    internalIndex: nat)
  {
    /** `Animation::new`: `fps` frames per second over a sheet of
        `sheetColumns` by `sheetRows` frames, starting on frame 0. */
    static function New(fps: nat, sheetColumns: nat, sheetRows: nat): Animation
      requires fps > 0
    {
      Animation(1.0 / (fps as real), sheetColumns, sheetRows, 0.0, 0)
    }

    /** Number of frames on the sheet. */
    function FrameCount(): nat {
      sheetColumns * sheetRows
    }

    /** Whether an update by `deltaTime` moves on to another frame. */
    predicate Advances(deltaTime: real) {
      internalCounter + deltaTime > timePerFrame
    }
  }

  /** The rectangle of frame `index` on the sheet: the column picks x, the
      row picks y. As in the source, the column is scaled by the rectangle's
      height and the row by its width (the sheets in use are square). */
  function FrameRect(src: Rect, index: nat, columns: nat): Rect
    requires columns > 0
  {
    src.(x := (index % columns) * src.height, y := (index / columns) * src.width)
  }

  /** The effect of one `Animation::update` on the animation and on the
      sprite's source rectangle. */
  function Step(a: Animation, deltaTime: real, src: Rect): (Animation, Rect)
    requires a.Advances(deltaTime) ==> a.sheetColumns > 0
  {
    var counter := a.internalCounter + deltaTime;
    if counter > a.timePerFrame then
      var index := if a.internalIndex + 1 > a.FrameCount() then 0 else a.internalIndex + 1;
      (a.(internalCounter := counter - a.timePerFrame, internalIndex := index),
       FrameRect(src, index, a.sheetColumns))
    else
      (a.(internalCounter := counter), src)
  }

  /** `Animation::update`, step by step as in the source. The animation and
      the sprite's rectangle are passed in and their new values returned. */
  method Update(a: Animation, deltaTime: real, src: Rect) returns (r: Animation, rect: Rect)
    requires a.Advances(deltaTime) ==> a.sheetColumns > 0
    ensures (r, rect) == Step(a, deltaTime, src)
  {
    r, rect := a, src;
    r := r.(internalCounter := r.internalCounter + deltaTime);
    if r.internalCounter > r.timePerFrame {
      r := r.(internalCounter := r.internalCounter - r.timePerFrame);
      r := r.(internalIndex := r.internalIndex + 1);
      if r.internalIndex > r.sheetColumns * r.sheetRows {
        r := r.(internalIndex := 0);
      }
      var column := r.internalIndex % r.sheetColumns;
      var row := r.internalIndex / r.sheetColumns;
      rect := rect.(x := column * rect.height);
      rect := rect.(y := row * rect.width);
    }
  }

  /** One update adds `deltaTime` to the counter; when that exceeds one
      frame's time, the counter gives back exactly one frame's time and the
      index moves on by one, counting modulo FrameCount() + 1 (the wrap test
      is `>`, so the index FrameCount() itself is used). Otherwise index and
      rectangle stay. The sheet layout never changes. */
  lemma UpdateMovesAtMostOneFrame(a: Animation, deltaTime: real, src: Rect)
    requires a.Advances(deltaTime) ==> a.sheetColumns > 0
    requires a.internalIndex <= a.FrameCount()
    ensures var (r, rect) := Step(a, deltaTime, src);
      && r.timePerFrame == a.timePerFrame
      && r.sheetColumns == a.sheetColumns && r.sheetRows == a.sheetRows
      && (a.Advances(deltaTime) ==>
            && r.internalCounter == a.internalCounter + deltaTime - a.timePerFrame
            && r.internalIndex == (a.internalIndex + 1) % (a.FrameCount() + 1)
            && rect == FrameRect(src, r.internalIndex, a.sheetColumns))
      && (!a.Advances(deltaTime) ==>
            && r.internalCounter == a.internalCounter + deltaTime
            && r.internalIndex == a.internalIndex
            && rect == src)
  {
    if a.Advances(deltaTime) {
      var n := a.FrameCount() + 1;
      if a.internalIndex + 1 < n {
        assert (a.internalIndex + 1) % n == a.internalIndex + 1;
      } else {
        assert a.internalIndex + 1 == n;
        assert n % n == 0;
      }
    }
  }

  /** The index never leaves [0, FrameCount()]. */
  lemma UpdateKeepsIndexInRange(a: Animation, deltaTime: real, src: Rect)
    requires a.Advances(deltaTime) ==> a.sheetColumns > 0
    requires a.internalIndex <= a.FrameCount()
    ensures Step(a, deltaTime, src).0.internalIndex <= a.FrameCount()
    ensures Step(a, deltaTime, src).0.FrameCount() == a.FrameCount()
  {
  }

  /** For a frame on the sheet, the rectangle selects a cell of the sheet. */
  lemma FrameRectPlacement(src: Rect, index: nat, columns: nat, rows: nat)
    requires columns > 0 && index < columns * rows
    ensures 0 <= FrameRect(src, index, columns).x <= (columns - 1) * src.height
    ensures 0 <= FrameRect(src, index, columns).y <= (rows - 1) * src.width
  {
    var q, r := index / columns, index % columns;
    assert FrameRect(src, index, columns).x == r * src.height;
    assert FrameRect(src, index, columns).y == q * src.width;
    assert q < rows by {
      assert index < rows * columns;
      DivBelow(index, columns, rows);
    }
    assert r * src.height <= (columns - 1) * src.height by {
      MulMonotone(src.height, r, columns - 1);
    }
    assert q * src.width <= (rows - 1) * src.width by {
      MulMonotone(src.width, q, rows - 1);
    }
  }

  /** For the index FrameCount(), which the `>` test lets through, the
      rectangle selects the first column of the row just below the last one. */
  lemma FrameRectPastLast(src: Rect, columns: nat, rows: nat)
    requires columns > 0
    ensures FrameRect(src, columns * rows, columns).x == 0
    ensures FrameRect(src, columns * rows, columns).y == rows * src.width
  {
    DivModUnique(rows, columns, 0);
    assert rows * columns + 0 == columns * rows;
  }

  /** The last index is reachable: from the last frame of the sheet, one
      update that crosses the frame time moves to index FrameCount() and not
      back to 0. */
  lemma LastIndexIsReachable(a: Animation, deltaTime: real, src: Rect)
    requires a.sheetColumns > 0 && a.FrameCount() > 0
    requires a.internalIndex == a.FrameCount() - 1
    requires a.Advances(deltaTime)
    ensures Step(a, deltaTime, src).0.internalIndex == a.FrameCount()
    ensures Step(a, deltaTime, src).1.y == a.sheetRows * src.width
  {
    FrameRectPastLast(src, a.sheetColumns, a.sheetRows);
  }

  /** Repeated updates, one per frame time in `deltas`. */
  function UpdateAll(a: Animation, deltas: seq<real>, src: Rect): (Animation, Rect)
    requires a.sheetColumns > 0
    decreases |deltas|
  {
    if deltas == [] then (a, src)
    else
      var (a1, src1) := Step(a, deltas[0], src);
      UpdateAll(a1, deltas[1..], src1)
  }

  /** Frames are never shown faster than time passes: the time of the frames
      moved through, plus what is left on the counter, never exceeds the time
      that has passed (a wrap back to frame 0 only lowers the left side). */
  lemma {:induction false} FramesNeverOutrunTime(a: Animation, deltas: seq<real>, src: Rect)
    requires a.sheetColumns > 0 && a.timePerFrame > 0.0 && a.internalCounter >= 0.0
    requires forall i :: 0 <= i < |deltas| ==> deltas[i] >= 0.0
    ensures var r := UpdateAll(a, deltas, src).0;
      && r.internalCounter >= 0.0
      && r.timePerFrame == a.timePerFrame && r.sheetColumns == a.sheetColumns
      && (r.internalIndex as real) * a.timePerFrame + r.internalCounter
         <= (a.internalIndex as real) * a.timePerFrame + a.internalCounter + Sum(deltas)
    decreases |deltas|
  {
    if deltas != [] {
      var (a1, src1) := Step(a, deltas[0], src);
      var t := a.timePerFrame;
      var i0 := a.internalIndex as real;
      if a.Advances(deltas[0]) {
        if a1.internalIndex == 0 {
          assert i0 * t >= 0.0;
        } else {
          assert a1.internalIndex == a.internalIndex + 1;
          assert (a1.internalIndex as real) * t == i0 * t + t;
        }
      }
      assert (a1.internalIndex as real) * t + a1.internalCounter <= i0 * t + a.internalCounter + deltas[0];
      FramesNeverOutrunTime(a1, deltas[1..], src1);
    }
  }

  /** An explosion (`Animation::new(30, 4, 4)` with a lifetime of 0.5 s, see
      Effects) never reaches the index 16 that lies off its 4 by 4 sheet:
      as long as at most 0.5 s have passed since it was created, at most 15
      frames have gone by. */
  lemma ExplosionStaysOnSheet(deltas: seq<real>, src: Rect)
    requires forall i :: 0 <= i < |deltas| ==> deltas[i] >= 0.0
    requires Sum(deltas) <= 0.5
    ensures UpdateAll(Animation.New(30, 4, 4), deltas, src).0.internalIndex < Animation.New(30, 4, 4).FrameCount()
  {
    var a := Animation.New(30, 4, 4);
    FramesNeverOutrunTime(a, deltas, src);
    var r := UpdateAll(a, deltas, src).0;
    assert (r.internalIndex as real) * (1.0 / 30.0) <= 0.5;
  }

  /** The part of the world the animation system touches. */
  class World {
    var sprites: map<Entity, Sprite>
    var animations: map<Entity, Animation>
    /** Every id handed out so far is below this bound. */
    var nextEntity: nat

    constructor(sprites: map<Entity, Sprite>, animations: map<Entity, Animation>, nextEntity: nat)
      ensures this.sprites == sprites && this.animations == animations && this.nextEntity == nextEntity
    {
      this.sprites := sprites;
      this.animations := animations;
      this.nextEntity := nextEntity;
    }

    /** `AnimationSystem::run`: every entity with both a sprite and an
        animation is updated once; all others are left alone. */
    method AnimationSystem(deltaTime: real)
      requires forall e :: e in animations ==> e < nextEntity
      requires CanStep(animations, sprites, deltaTime)
      modifies this`sprites, this`animations
      ensures animations == SteppedAnimations(old(animations), old(sprites), deltaTime, nextEntity)
      ensures sprites == SteppedSprites(old(animations), old(sprites), deltaTime, nextEntity)
    {
      ghost var anims0, sprites0 := animations, sprites;
      var animations, sprites, bound := animations, sprites, nextEntity;
      var e := 0;
      while e < bound
        invariant e <= bound
        invariant animations == SteppedAnimations(anims0, sprites0, deltaTime, e)
        invariant sprites == SteppedSprites(anims0, sprites0, deltaTime, e)
      {
        animations, sprites := VisitAnimation(e, animations, sprites, deltaTime, anims0, sprites0);
        e := e + 1;
      }
      this.animations, this.sprites := animations, sprites;
    }
  }

  /** The body of the loop in `AnimationSystem::run` for entity `e`: when
      it has both an animation and a sprite, the animation is updated and the
      sprite's rectangle set to the new frame. */
  method VisitAnimation(e: Entity, animations: map<Entity, Animation>, sprites: map<Entity, Sprite>, deltaTime: real,
                        ghost anims0: map<Entity, Animation>, ghost sprites0: map<Entity, Sprite>)
    returns (animations': map<Entity, Animation>, sprites': map<Entity, Sprite>)
    requires CanStep(anims0, sprites0, deltaTime)
    requires animations == SteppedAnimations(anims0, sprites0, deltaTime, e)
    requires sprites == SteppedSprites(anims0, sprites0, deltaTime, e)
    ensures animations' == SteppedAnimations(anims0, sprites0, deltaTime, e + 1)
    ensures sprites' == SteppedSprites(anims0, sprites0, deltaTime, e + 1)
  {
    SteppedOneMore(anims0, sprites0, deltaTime, e);
    animations', sprites' := animations, sprites;
    if e in animations && e in sprites {
      var a, rect := Update(animations[e], deltaTime, sprites[e].srcRect);
      animations' := animations[e := a];
      sprites' := sprites[e := sprites[e].(srcRect := rect)];
    }
  }

  /** Every animation that would move on has a sheet with columns. */
  predicate CanStep(animations: map<Entity, Animation>, sprites: map<Entity, Sprite>, deltaTime: real) {
    forall e :: e in animations && e in sprites ==>
      animations[e].Advances(deltaTime) ==> animations[e].sheetColumns > 0
  }

  /** The animations after the system has visited the ids below `bound`. */
  function SteppedAnimations(animations: map<Entity, Animation>, sprites: map<Entity, Sprite>, deltaTime: real, bound: nat): map<Entity, Animation>
    requires CanStep(animations, sprites, deltaTime)
  {
    map e | e in animations ::
      if e < bound && e in sprites then Step(animations[e], deltaTime, sprites[e].srcRect).0 else animations[e]
  }

  /** The sprites after the system has visited the ids below `bound`. */
  function SteppedSprites(animations: map<Entity, Animation>, sprites: map<Entity, Sprite>, deltaTime: real, bound: nat): map<Entity, Sprite>
    requires CanStep(animations, sprites, deltaTime)
  {
    map e | e in sprites ::
      if e < bound && e in animations
      then sprites[e].(srcRect := Step(animations[e], deltaTime, sprites[e].srcRect).1)
      else sprites[e]
  }

  /** Visiting id `bound` as well updates exactly that entity, which the
      ids before it have left as it was. */
  lemma SteppedOneMore(animations: map<Entity, Animation>, sprites: map<Entity, Sprite>, deltaTime: real, bound: nat)
    requires CanStep(animations, sprites, deltaTime)
    ensures bound in animations ==> SteppedAnimations(animations, sprites, deltaTime, bound)[bound] == animations[bound]
    ensures bound in sprites ==> SteppedSprites(animations, sprites, deltaTime, bound)[bound] == sprites[bound]
    ensures SteppedAnimations(animations, sprites, deltaTime, bound + 1) ==
      if bound in animations && bound in sprites
      then SteppedAnimations(animations, sprites, deltaTime, bound)[bound := Step(animations[bound], deltaTime, sprites[bound].srcRect).0]
      else SteppedAnimations(animations, sprites, deltaTime, bound)
    ensures SteppedSprites(animations, sprites, deltaTime, bound + 1) ==
      if bound in animations && bound in sprites
      then SteppedSprites(animations, sprites, deltaTime, bound)[bound := sprites[bound].(srcRect := Step(animations[bound], deltaTime, sprites[bound].srcRect).1)]
      else SteppedSprites(animations, sprites, deltaTime, bound)
  {
  }

  /** The system keeps both storages' entities, leaves every entity that
      lacks one of the two components as it was, changes nothing of a sprite
      but its rectangle, and keeps every frame index within its sheet. */
  lemma AnimationSystemKeepsFramesInRange(animations: map<Entity, Animation>, sprites: map<Entity, Sprite>, deltaTime: real, bound: nat)
    requires CanStep(animations, sprites, deltaTime)
    requires forall e :: e in animations ==> animations[e].internalIndex <= animations[e].FrameCount()
    ensures var anims := SteppedAnimations(animations, sprites, deltaTime, bound);
      && anims.Keys == animations.Keys
      && (forall e :: e in anims ==> anims[e].internalIndex <= anims[e].FrameCount())
      && (forall e :: e in anims && e !in sprites ==> anims[e] == animations[e])
    ensures var sprs := SteppedSprites(animations, sprites, deltaTime, bound);
      && sprs.Keys == sprites.Keys
      && (forall e :: e in sprs ==> sprs[e].spritesheet == sprites[e].spritesheet && sprs[e].size == sprites[e].size)
      && (forall e :: e in sprs && e !in animations ==> sprs[e] == sprites[e])
  {
    var anims := SteppedAnimations(animations, sprites, deltaTime, bound);
    forall e | e in anims
      ensures anims[e].internalIndex <= anims[e].FrameCount()
    {
      if e < bound && e in sprites {
        UpdateKeepsIndexInRange(animations[e], deltaTime, sprites[e].srcRect);
      }
    }
  }
}
