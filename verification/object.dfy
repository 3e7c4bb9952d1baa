/**
 * The earlier snake of src/object.rs. It moves and buffers turns like the
 * snake of src/objects/snek.rs, with length 0.1, and each recorded turn
 * stores the direction taken at the turn rather than the one left.
 * Its `MoveDir` has the same four variants as the later snake's, which is used here
 * (`Latest` names the module of src/objects/snek.rs).
 */
module Object {
  import opened Wrappers
  import opened Board
  import opened Events
  import Latest = Snek

  /** A recorded turn: the new direction, where it was taken, and how far behind the head. */
  datatype MoveDirChange = MoveDirChange(direction: Latest.MoveDir, at: Position, dstFromHead: real)

  /** Every change `dist` further from the head, order kept. */
  function AdvancedChanges(cs: seq<MoveDirChange>, dist: real): (r: seq<MoveDirChange>)
    ensures |r| == |cs|
  {
    if cs == [] then [] else [cs[0].(dstFromHead := cs[0].dstFromHead + dist)] + AdvancedChanges(cs[1..], dist)
  }

  /** Advancing changes only the distance of each change, by exactly `dist`. */
  lemma {:induction false} AdvancedChangesAt(cs: seq<MoveDirChange>, dist: real)
    ensures forall i :: 0 <= i < |cs| ==>
      AdvancedChanges(cs, dist)[i] == cs[i].(dstFromHead := cs[i].dstFromHead + dist)
  {
    if cs != [] {
      AdvancedChangesAt(cs[1..], dist);
    }
  }

  /** The `pop_front` loop: the longest prefix of changes further than `length` is dropped. */
  function PrunedChanges(cs: seq<MoveDirChange>, length: real): (r: seq<MoveDirChange>)
    ensures |r| <= |cs| && r == cs[|cs| - |r|..]
    ensures r != [] ==> r[0].dstFromHead <= length
  {
    if cs != [] && cs[0].dstFromHead > length then PrunedChanges(cs[1..], length) else cs
  }

  lemma {:induction false} PrunedChangesDropsOnlyStale(cs: seq<MoveDirChange>, length: real)
    ensures forall i :: 0 <= i < |cs| - |PrunedChanges(cs, length)| ==> cs[i].dstFromHead > length
  {
    if cs != [] && cs[0].dstFromHead > length {
      PrunedChangesDropsOnlyStale(cs[1..], length);
    }
  }

  /** The first loop of `process_dir_keypoints`: add `dist` to every change's distance from the head. */
  method AdvanceChanges(cs: seq<MoveDirChange>, dist: real) returns (r: seq<MoveDirChange>)
    ensures r == AdvancedChanges(cs, dist)
  {
    AdvancedChangesAt(cs, dist);
    r := cs;
    var i := 0;
    while i < |r|
      invariant 0 <= i <= |r| == |cs|
      invariant forall k :: 0 <= k < i ==> r[k] == cs[k].(dstFromHead := cs[k].dstFromHead + dist)
      invariant forall k :: i <= k < |r| ==> r[k] == cs[k]
    {
      r := r[i := r[i].(dstFromHead := r[i].dstFromHead + dist)];
      i := i + 1;
    }
  }

  /** The second loop of `process_dir_keypoints`: pop changes from the front while they lie beyond `length`. */
  method PopStaleChanges(cs: seq<MoveDirChange>, length: real) returns (r: seq<MoveDirChange>)
    ensures r == PrunedChanges(cs, length)
  {
    r := cs;
    while r != [] && r[0].dstFromHead > length
      invariant PrunedChanges(r, length) == PrunedChanges(cs, length)
      decreases |r|
    {
      r := r[1..];
    }
  }

  class Snek {
    var position: Position
    var dir: Latest.MoveDir
    var dirCandidate: Option<Latest.MoveDir>
    var dirKeypoints: seq<MoveDirChange>
    var length: real

    /** The head is in the unit square and no pending turn reverses `dir`. */
    ghost predicate Valid()
      reads this
    {
      && Latest.InUnitSquare(position)
      && (dirCandidate.Some? ==> dirCandidate.value != Latest.Inverse(dir))
    }

    /** `Snek::new`: centre of the square, heading Left, no changes, no pending turn, length 0.1. */
    constructor ()
      ensures Valid()
      ensures position == Position(0.5, 0.5) && dir == Latest.Left
      ensures dirCandidate == None && dirKeypoints == [] && length == 0.1
    {
      position := Position(0.5, 0.5);
      dir := Latest.Left;
      dirKeypoints := [];
      dirCandidate := None;
      length := 0.1;
    }

    /** `process_move`: one axis along the pending turn, else along `dir`, clamped to [0, 1]. */
    method ProcessMove(moveDist: real)
      modifies this`position
      ensures position == Latest.Moved(old(position), dirCandidate.GetOr(dir), moveDist)
    {
      var currX := position.x;
      var currY := position.y;
      var newX, newY;
      match dirCandidate.GetOr(dir) {
        case Down =>
          newX, newY := currX, Latest.Clamp(currY - moveDist);
        case Up =>
          newX, newY := currX, Latest.Clamp(currY + moveDist);
        case Left =>
          newX, newY := Latest.Clamp(currX - moveDist), currY;
        case Right =>
          newX, newY := Latest.Clamp(currX + moveDist), currY;
      }
      position := Position(newX, newY);
    }

    /** `process_dir_keypoints`: every change moves `moveDist` further back, then stale ones are popped. */
    method ProcessDirKeypoints(moveDist: real)
      modifies this`dirKeypoints
      ensures dirKeypoints == PrunedChanges(AdvancedChanges(old(dirKeypoints), moveDist), length)
    {
      var aged := AdvanceChanges(dirKeypoints, moveDist);
      dirKeypoints := PopStaleChanges(aged, length);
    }

    /**
     * `on_tick` without its drawing: move, age the changes, then commit a
     * pending turn and record it with the new direction at the head.
     */
    method OnTick(delta: real)
      requires Valid() && delta >= 0.0
      modifies this`position, this`dirKeypoints, this`dirCandidate, this`dir
      ensures Valid()
      ensures position == Latest.Moved(old(position), old(dirCandidate).GetOr(old(dir)), Latest.SPEED * delta)
      ensures dirCandidate == None
      ensures dir == old(dirCandidate).GetOr(old(dir))
      ensures length == old(length)
      ensures old(dirCandidate).None? ==>
        dirKeypoints == PrunedChanges(AdvancedChanges(old(dirKeypoints), Latest.SPEED * delta), length)
      ensures old(dirCandidate).Some? ==>
        dirKeypoints == PrunedChanges(AdvancedChanges(old(dirKeypoints), Latest.SPEED * delta), length) +
          [MoveDirChange(dir, position, 0.0)]
    {
      var moveDist := Latest.SPEED * delta;
      ghost var aged := PrunedChanges(AdvancedChanges(dirKeypoints, moveDist), length);
      ProcessMove(moveDist);
      assert Latest.InUnitSquare(position);
      ProcessDirKeypoints(moveDist);
      assert dirKeypoints == aged;
      var taken := dirCandidate;
      dirCandidate := None;
      if taken.Some? {
        dir := taken.value;
        dirKeypoints := dirKeypoints + [MoveDirChange(taken.value, position, 0.0)];
      }
      assert taken.Some? ==> dirKeypoints == aged + [MoveDirChange(dir, position, 0.0)];
    }

    /** `on_input`: the same rules as the later snake: pressed keys only, no reversal, first press kept. */
    method OnInput(event: WindowEvent)
      requires Valid()
      modifies this`dirCandidate
      ensures Valid()
      ensures dirCandidate == Latest.NextCandidate(dir, old(dirCandidate), event)
    {
      match event
      case KeyboardInput(e) =>
        if !e.pressed {
          return;
        }
        match e.physicalKey {
          case ArrowUp | KeyW =>
            if dir != Latest.Down { dirCandidate := Latest.GetOrInsert(dirCandidate, Latest.Up); }
          case ArrowLeft | KeyA =>
            if dir != Latest.Right { dirCandidate := Latest.GetOrInsert(dirCandidate, Latest.Left); }
          case ArrowRight | KeyD =>
            if dir != Latest.Left { dirCandidate := Latest.GetOrInsert(dirCandidate, Latest.Right); }
          case ArrowDown | KeyS =>
            if dir != Latest.Up { dirCandidate := Latest.GetOrInsert(dirCandidate, Latest.Down); }
          case OtherKey =>
        }
      case OtherEvent =>
    }
  }
}
