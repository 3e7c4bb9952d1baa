/**
 * The snake of src/objects/snek.rs. The head moves in the unit square,
 * turns are buffered from keyboard input and committed on the next tick,
 * and the body is a queue of turning points whose distance from the head
 * grows as the head advances; points further than `length` are dropped.
 */
module Snek {
  import opened Wrappers
  import opened Board
  import opened Events

  /** Distance travelled per second. */
  const SPEED: real := 0.3

  datatype MoveDir = Up | Right | Down | Left

  /** `MoveDir::inverse`: the opposite direction. */
  function Inverse(d: MoveDir): (r: MoveDir)
    ensures r != d
    ensures Vertical(r) == Vertical(d)
  {
    match d
    case Up => Down
    case Down => Up
    case Right => Left
    case Left => Right
  }

  lemma InverseInvolution(d: MoveDir)
    ensures Inverse(Inverse(d)) == d
  {
  }

  /** Up and Down move along y, Left and Right along x. */
  predicate Vertical(d: MoveDir) {
    d == Up || d == Down
  }

  /** A turning point of the body: the direction travelled before the turn, where, and how far behind the head. */
  datatype DirKeypoint = DirKeypoint(from: MoveDir, at: Position, dstHead: real)

  function Min(a: real, b: real): real { if a <= b then a else b }
  function Max(a: real, b: real): real { if a >= b then a else b }

  /** `f32::max(f32::min(1., v), 0.)`. */
  function Clamp(v: real): (r: real)
    ensures 0.0 <= r <= 1.0
    ensures 0.0 <= v <= 1.0 ==> r == v
    ensures v < 0.0 ==> r == 0.0
    ensures v > 1.0 ==> r == 1.0
  {
    Max(Min(1.0, v), 0.0)
  }

  predicate InUnitSquare(p: Position) {
    0.0 <= p.x <= 1.0 && 0.0 <= p.y <= 1.0
  }

  /**
   * The position `process_move` computes: `dist` along `d` on one axis,
   * clamped to [0, 1], the other axis unchanged; Up increases y, Right increases x.
   */
  function Moved(p: Position, d: MoveDir, dist: real): (r: Position)
    ensures Vertical(d) ==> r.x == p.x && 0.0 <= r.y <= 1.0
    ensures !Vertical(d) ==> r.y == p.y && 0.0 <= r.x <= 1.0
  {
    match d
    case Down => Position(p.x, Clamp(p.y - dist))
    case Up => Position(p.x, Clamp(p.y + dist))
    case Left => Position(Clamp(p.x - dist), p.y)
    case Right => Position(Clamp(p.x + dist), p.y)
  }

  /** From inside the square, a forward move goes toward `d` and by at most `dist`. */
  lemma MovedToward(p: Position, d: MoveDir, dist: real)
    requires InUnitSquare(p) && dist >= 0.0
    ensures InUnitSquare(Moved(p, d, dist))
    ensures var r := Moved(p, d, dist);
      match d
      case Up => p.y <= r.y <= p.y + dist
      case Down => p.y - dist <= r.y <= p.y
      case Right => p.x <= r.x <= p.x + dist
      case Left => p.x - dist <= r.x <= p.x
  {
  }

  /** A move that stays inside the square is exact: the head goes the full distance. */
  lemma MovedExact(p: Position, d: MoveDir, dist: real)
    requires match d
      case Up => 0.0 <= p.y + dist <= 1.0
      case Down => 0.0 <= p.y - dist <= 1.0
      case Right => 0.0 <= p.x + dist <= 1.0
      case Left => 0.0 <= p.x - dist <= 1.0
    ensures Moved(p, d, dist) == match d
      case Up => Position(p.x, p.y + dist)
      case Down => Position(p.x, p.y - dist)
      case Right => Position(p.x + dist, p.y)
      case Left => Position(p.x - dist, p.y)
  {
  }

  /** Every keypoint `dist` further from the head, order kept (the loop of `process_dir_keypoints`). */
  function Advanced(ks: seq<DirKeypoint>, dist: real): (r: seq<DirKeypoint>)
    ensures |r| == |ks|
  {
    if ks == [] then [] else [ks[0].(dstHead := ks[0].dstHead + dist)] + Advanced(ks[1..], dist)
  }

  /** Advancing changes only the distance of each point, by exactly `dist`. */
  lemma {:induction false} AdvancedAt(ks: seq<DirKeypoint>, dist: real)
    ensures forall i :: 0 <= i < |ks| ==>
      Advanced(ks, dist)[i] == ks[i].(dstHead := ks[i].dstHead + dist)
  {
    if ks != [] {
      AdvancedAt(ks[1..], dist);
    }
  }

  /** The `pop_front` loop: the longest prefix of points further than `length` from the head is dropped. */
  function Pruned(ks: seq<DirKeypoint>, length: real): (r: seq<DirKeypoint>)
    ensures |r| <= |ks| && r == ks[|ks| - |r|..]
    ensures r != [] ==> r[0].dstHead <= length
  {
    if ks != [] && ks[0].dstHead > length then Pruned(ks[1..], length) else ks
  }

  /** Only points further than `length` are dropped: pruning stops at the first point within reach. */
  lemma {:induction false} PrunedDropsOnlyStale(ks: seq<DirKeypoint>, length: real)
    ensures forall i :: 0 <= i < |ks| - |Pruned(ks, length)| ==> ks[i].dstHead > length
  {
    if ks != [] && ks[0].dstHead > length {
      PrunedDropsOnlyStale(ks[1..], length);
    }
  }

  /** The distance from the head of point `i`. */
  function DstAt(ks: seq<DirKeypoint>, i: nat): real
    requires i < |ks|
  {
    ks[i].dstHead
  }

  /** Distances never increase from the oldest point to the newest. */
  ghost predicate NonIncreasing(ks: seq<DirKeypoint>) {
    forall i, j :: 0 <= i < j < |ks| ==> DstAt(ks, i) >= DstAt(ks, j)
  }

  /** Every distance lies in [0, length]. */
  ghost predicate Bounded(ks: seq<DirKeypoint>, length: real) {
    forall i :: 0 <= i < |ks| ==> 0.0 <= DstAt(ks, i) <= length
  }

  /** The body invariant: a non-increasing sequence of distances within [0, length]. */
  ghost predicate Trail(ks: seq<DirKeypoint>, length: real) {
    0.0 <= length && NonIncreasing(ks) && Bounded(ks, length)
  }

  lemma AdvancedKeepsOrder(ks: seq<DirKeypoint>, dist: real, length: real)
    requires NonIncreasing(ks) && Bounded(ks, length) && dist >= 0.0
    ensures NonIncreasing(Advanced(ks, dist))
    ensures forall i :: 0 <= i < |ks| ==> Advanced(ks, dist)[i].dstHead >= 0.0
  {
    AdvancedAt(ks, dist);
    var a := Advanced(ks, dist);
    forall i, j | 0 <= i < j < |a|
      ensures DstAt(a, i) >= DstAt(a, j)
    {
      assert DstAt(ks, i) >= DstAt(ks, j);
    }
    forall i | 0 <= i < |ks|
      ensures a[i].dstHead >= 0.0
    {
      assert 0.0 <= DstAt(ks, i);
    }
  }

  lemma {:induction false} PrunedBounded(ks: seq<DirKeypoint>, length: real)
    requires NonIncreasing(ks)
    requires forall i :: 0 <= i < |ks| ==> ks[i].dstHead >= 0.0
    ensures NonIncreasing(Pruned(ks, length)) && Bounded(Pruned(ks, length), length)
  {
    if ks != [] && ks[0].dstHead > length {
      var tail := ks[1..];
      forall i, j | 0 <= i < j < |tail|
        ensures DstAt(tail, i) >= DstAt(tail, j)
      {
        assert DstAt(ks, i + 1) >= DstAt(ks, j + 1);
      }
      assert forall i :: 0 <= i < |tail| ==> tail[i] == ks[i + 1];
      PrunedBounded(tail, length);
    } else if ks != [] {
      forall i | 0 <= i < |ks|
        ensures 0.0 <= DstAt(ks, i) <= length
      {
        if i > 0 {
          assert DstAt(ks, 0) >= DstAt(ks, i);
        }
      }
    }
  }

  /** Advancing by a non-negative distance and pruning keeps the body invariant. */
  lemma TrailAdvancePrune(ks: seq<DirKeypoint>, length: real, dist: real)
    requires Trail(ks, length) && dist >= 0.0
    ensures Trail(Pruned(Advanced(ks, dist), length), length)
  {
    AdvancedKeepsOrder(ks, dist, length);
    PrunedBounded(Advanced(ks, dist), length);
  }

  /** A fresh turning point at the head (distance 0) can always be appended. */
  lemma TrailPush(ks: seq<DirKeypoint>, length: real, k: DirKeypoint)
    requires Trail(ks, length) && k.dstHead == 0.0
    ensures Trail(ks + [k], length)
  {
    var r := ks + [k];
    forall i, j | 0 <= i < j < |r|
      ensures DstAt(r, i) >= DstAt(r, j)
    {
      if j < |ks| {
        assert DstAt(ks, i) >= DstAt(ks, j);
      } else {
        assert 0.0 <= DstAt(ks, i);
      }
    }
    forall i | 0 <= i < |r|
      ensures 0.0 <= DstAt(r, i) <= length
    {
      if i < |ks| {
        assert 0.0 <= DstAt(ks, i) <= length;
      }
    }
  }

  /** The direction a window event asks for: a pressed arrow or WASD key. */
  function Requested(event: WindowEvent): (r: Option<MoveDir>)
    ensures r.Some? ==> event.KeyboardInput? && event.event.pressed && event.event.physicalKey != OtherKey
  {
    match event
    case KeyboardInput(KeyEvent(pressed, key)) =>
      if !pressed then None
      else (
        match key
        case ArrowUp | KeyW => Some(Up)
        case ArrowLeft | KeyA => Some(Left)
        case ArrowRight | KeyD => Some(Right)
        case ArrowDown | KeyS => Some(Down)
        case OtherKey => None)
    case OtherEvent => None
  }

  /**
   * Which pressed key asks for which direction: W or Up for Up, A or Left
   * for Left, D or Right for Right, S or Down for Down, and no other key.
   */
  lemma KeyMap(key: KeyCode)
    ensures Requested(KeyboardInput(KeyEvent(true, key))) == Some(Up) <==> key == ArrowUp || key == KeyW
    ensures Requested(KeyboardInput(KeyEvent(true, key))) == Some(Left) <==> key == ArrowLeft || key == KeyA
    ensures Requested(KeyboardInput(KeyEvent(true, key))) == Some(Right) <==> key == ArrowRight || key == KeyD
    ensures Requested(KeyboardInput(KeyEvent(true, key))) == Some(Down) <==> key == ArrowDown || key == KeyS
    ensures Requested(KeyboardInput(KeyEvent(true, key))) == None <==> key == OtherKey
  {
  }

  /**
   * The pending turn after `event`: a pending turn is kept, otherwise the
   * requested direction is taken unless it reverses `dir`.
   */
  function NextCandidate(dir: MoveDir, candidate: Option<MoveDir>, event: WindowEvent): (r: Option<MoveDir>)
    ensures candidate.Some? ==> r == candidate
    ensures candidate.None? && r.Some? ==> r == Requested(event) && r.value != Inverse(dir)
    ensures candidate.None? && Requested(event).Some? && Requested(event).value != Inverse(dir) ==>
      r == Requested(event)
  {
    if candidate.Some? then candidate
    else match Requested(event)
      case Some(d) => if d != Inverse(dir) then Some(d) else None
      case None => None
  }

  /** The first accepted press wins: once a turn is pending, later events leave it. */
  lemma FirstPressWins(dir: MoveDir, e1: WindowEvent, e2: WindowEvent)
    requires NextCandidate(dir, None, e1).Some?
    ensures NextCandidate(dir, NextCandidate(dir, None, e1), e2) == NextCandidate(dir, None, e1)
  {
  }

  /** A turn accepted into an empty buffer is what was pressed, and never the reverse of `dir`. */
  lemma NoReversal(dir: MoveDir, event: WindowEvent)
    requires NextCandidate(dir, None, event).Some?
    ensures NextCandidate(dir, None, event) == Requested(event)
    ensures NextCandidate(dir, None, event).value != Inverse(dir)
  {
  }

  /** Released keys, other keys and non-keyboard events change nothing. */
  lemma IgnoredEvents(dir: MoveDir, candidate: Option<MoveDir>, event: WindowEvent)
    requires Requested(event).None?
    ensures NextCandidate(dir, candidate, event) == candidate
  {
  }

  /** `get_or_insert`: keep a pending value, else take `d`. */
  function GetOrInsert(candidate: Option<MoveDir>, d: MoveDir): (r: Option<MoveDir>)
    ensures r.Some?
    ensures candidate.Some? ==> r == candidate
    ensures candidate.None? ==> r.value == d
  {
    if candidate.Some? then candidate else Some(d)
  }

  /** The first loop of `process_dir_keypoints`: add `dist` to every point's distance from the head. */
  method AdvanceAll(ks: seq<DirKeypoint>, dist: real) returns (r: seq<DirKeypoint>)
    ensures r == Advanced(ks, dist)
  {
    AdvancedAt(ks, dist);
    r := ks;
    var i := 0;
    while i < |r|
      invariant 0 <= i <= |r| == |ks|
      invariant forall k :: 0 <= k < i ==> r[k] == ks[k].(dstHead := ks[k].dstHead + dist)
      invariant forall k :: i <= k < |r| ==> r[k] == ks[k]
    {
      r := r[i := r[i].(dstHead := r[i].dstHead + dist)];
      i := i + 1;
    }
  }

  /** The second loop of `process_dir_keypoints`: pop points from the front while they lie beyond `length`. */
  method PopStale(ks: seq<DirKeypoint>, length: real) returns (r: seq<DirKeypoint>)
    ensures r == Pruned(ks, length)
  {
    r := ks;
    while r != [] && r[0].dstHead > length
      invariant Pruned(r, length) == Pruned(ks, length)
      decreases |r|
    {
      r := r[1..];
    }
  }

  class Snek {
    var position: Position
    var dir: MoveDir
    var dirCandidate: Option<MoveDir>
    var dirKeypoints: seq<DirKeypoint>
    var length: real

    /** The head is in the unit square, the body is a Trail, and no pending turn reverses `dir`. */
    ghost predicate Valid()
      reads this
    {
      && InUnitSquare(position)
      && Trail(dirKeypoints, length)
      && (dirCandidate.Some? ==> dirCandidate.value != Inverse(dir))
    }

    /** `Snek::new`: centre of the square, heading Left, no body, no pending turn, length 0.4. */
    constructor ()
      ensures Valid()
      ensures position == Position(0.5, 0.5) && dir == Left
      ensures dirCandidate == None && dirKeypoints == [] && length == 0.4
    {
      position := Position(0.5, 0.5);
      dir := Left;
      dirKeypoints := [];
      dirCandidate := None;
      length := 0.4;
    }

    /** `process_move`: the head moves along the pending turn if there is one, else along `dir`. */
    method ProcessMove(moveDist: real)
      modifies this`position
      ensures position == Moved(old(position), dirCandidate.GetOr(dir), moveDist)
      ensures InUnitSquare(old(position)) ==> InUnitSquare(position)
    {
      var currX := position.x;
      var currY := position.y;
      var newX, newY;
      var heading := dirCandidate.GetOr(dir);
      match heading {
        case Down =>
          newX, newY := currX, Clamp(currY - moveDist);
        case Up =>
          newX, newY := currX, Clamp(currY + moveDist);
        case Left =>
          newX, newY := Clamp(currX - moveDist), currY;
        case Right =>
          newX, newY := Clamp(currX + moveDist), currY;
      }
      position := Position(newX, newY);
    }

    /** `process_dir_keypoints`: every point moves `moveDist` further back, then stale points are popped. */
    method ProcessDirKeypoints(moveDist: real)
      modifies this`dirKeypoints
      ensures dirKeypoints == Pruned(Advanced(old(dirKeypoints), moveDist), length)
      ensures Trail(old(dirKeypoints), length) && moveDist >= 0.0 ==> Trail(dirKeypoints, length)
    {
      var aged := AdvanceAll(dirKeypoints, moveDist);
      var kept := PopStale(aged, length);
      if Trail(dirKeypoints, length) && moveDist >= 0.0 {
        TrailAdvancePrune(dirKeypoints, length, moveDist);
      }
      dirKeypoints := kept;
    }

    /**
     * `get_keypoints`: the stored points, oldest first, then a point at the
     * head for the current direction; it satisfies the body invariant too.
     */
    function GetKeypoints(): (r: seq<DirKeypoint>)
      reads this
      ensures |r| == |dirKeypoints| + 1
      ensures r[..|dirKeypoints|] == dirKeypoints
      ensures r[|dirKeypoints|] == DirKeypoint(dir, position, 0.0)
      ensures Valid() ==> Trail(r, length)
    {
      var currPoint := DirKeypoint(dir, position, 0.0);
      assert Valid() ==> Trail(dirKeypoints + [currPoint], length) by {
        if Valid() {
          TrailPush(dirKeypoints, length, currPoint);
        }
      }
      dirKeypoints + [currPoint]
    }

    /**
     * `on_tick` without its drawing: move, age the body, then commit a
     * pending turn, recording the direction left and the head position.
     */
    method OnTick(delta: real)
      requires Valid() && delta >= 0.0
      modifies this`position, this`dirKeypoints, this`dirCandidate, this`dir
      ensures Valid()
      ensures position == Moved(old(position), old(dirCandidate).GetOr(old(dir)), SPEED * delta)
      ensures dirCandidate == None
      ensures dir == old(dirCandidate).GetOr(old(dir))
      ensures length == old(length)
      ensures old(dirCandidate).None? ==>
        dirKeypoints == Pruned(Advanced(old(dirKeypoints), SPEED * delta), length)
      ensures old(dirCandidate).Some? ==>
        dirKeypoints == Pruned(Advanced(old(dirKeypoints), SPEED * delta), length) + [DirKeypoint(old(dir), position, 0.0)]
    {
      var moveDist := SPEED * delta;
      ghost var aged := Pruned(Advanced(dirKeypoints, moveDist), length);
      ProcessMove(moveDist);
      assert InUnitSquare(position);
      ProcessDirKeypoints(moveDist);
      assert dirKeypoints == aged && Trail(aged, length);
      CommitTurn();
    }

    /** The end of `on_tick`: a pending turn is taken, recorded at the head with the direction left, and followed. */
    method CommitTurn()
      requires Trail(dirKeypoints, length)
      modifies this`dirCandidate, this`dirKeypoints, this`dir
      ensures Trail(dirKeypoints, length)
      ensures dirCandidate == None
      ensures dir == old(dirCandidate).GetOr(old(dir))
      ensures old(dirCandidate).None? ==> dirKeypoints == old(dirKeypoints)
      ensures old(dirCandidate).Some? ==> dirKeypoints == old(dirKeypoints) + [DirKeypoint(old(dir), position, 0.0)]
    {
      var taken := dirCandidate;
      dirCandidate := None;
      if taken.Some? {
        var turn := DirKeypoint(dir, position, 0.0);
        TrailPush(dirKeypoints, length, turn);
        dirKeypoints := dirKeypoints + [turn];
        dir := taken.value;
      }
    }

    /** `on_input`: a pressed arrow or WASD key becomes the pending turn, unless it reverses `dir` or a turn is already pending. */
    method OnInput(event: WindowEvent)
      requires Valid()
      modifies this`dirCandidate
      ensures Valid()
      ensures dirCandidate == NextCandidate(dir, old(dirCandidate), event)
    {
      match event
      case KeyboardInput(e) =>
        if !e.pressed {
          return;
        }
        match e.physicalKey {
          case ArrowUp | KeyW =>
            if dir != Down { dirCandidate := GetOrInsert(dirCandidate, Up); }
          case ArrowLeft | KeyA =>
            if dir != Right { dirCandidate := GetOrInsert(dirCandidate, Left); }
          case ArrowRight | KeyD =>
            if dir != Left { dirCandidate := GetOrInsert(dirCandidate, Right); }
          case ArrowDown | KeyS =>
            if dir != Up { dirCandidate := GetOrInsert(dirCandidate, Down); }
          case OtherKey =>
        }
      case OtherEvent =>
    }
  }
}
