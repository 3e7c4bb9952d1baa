/**
 * The entity registry of src/app.rs: entities are kept in a map under
 * handles drawn from a counter, with one list of handles per capability
 * (ticked, given input, collision-checked). A frame ticks every updateable,
 * then either restarts the game or runs the all-pairs collision sweep.
 *
 * The registry is generic in the entity `E`; what an entity does when it
 * is set up, ticked, given input or checked against another is a function
 * parameter, since it is code of the entities and not of the registry.
 */
module App {
  import opened Wrappers
  import opened Board
  import Events
  import D = AppOwnedData
  import opened Sweep

  /** The cell size `App` builds its board with. */
  const GRID_SIZE: U16 := 25

  /**
   * A registered entity: its `AppOwnedData` and whether it answers
   * `as_collider` (a capability fixed when it is made, like the others).
   */
  datatype Owned<E> = Owned(data: D.AppOwnedData<E>, collider: bool)

  datatype Capability = Update | Input | Collide

  /** The `as_*` accessor for `c` returns Some. */
  predicate Has<E>(o: Owned<E>, c: Capability) {
    match c
    case Update => D.AsUpdateable(o.data).Some?
    case Input => D.AsInputListener(o.data).Some?
    case Collide => o.collider
  }

  /** The same entity after one of its own callbacks changed it to `v`. */
  function Updated<E>(o: Owned<E>, v: E): (r: Owned<E>)
    ensures r.data.value == v
    ensures forall c :: Has(r, c) == Has(o, c)
  {
    o.(data := o.data.(value := v))
  }

  /** `on_setup(gl, registered_idx, board)`. */
  type SetupFn<!E> = (E, nat, Board) -> E
  /** `on_tick(gl, time, board, game_over)`: the new entity and whether it called `game_over`. */
  type TickFn<!E> = (E, real, real, Board) -> (E, bool)
  /** `on_input(event, board)`. */
  type InputFn<!E> = (E, Events.WindowEvent, Board) -> E
  /** `check_collision(other)`: the receiver after looking at `other`. */
  type CheckFn<!E> = (E, E) -> E

  function SetupStep<E>(setup: SetupFn<E>, b: Board): (nat, E) -> E {
    (k: nat, e: E) => setup(e, k, b)
  }

  function TickStep<E>(tick: TickFn<E>, delta: real, elapsed: real, b: Board): (nat, E) -> E {
    (k: nat, e: E) => tick(e, delta, elapsed, b).0
  }

  function InputStep<E>(input: InputFn<E>, event: Events.WindowEvent, b: Board): (nat, E) -> E {
    (k: nat, e: E) => input(e, event, b)
  }

  /** `r` has the keys of `m`, and each entity in `r` is the one in `m`, possibly changed by its callbacks. */
  ghost predicate Reshaped<E>(m: map<nat, Owned<E>>, r: map<nat, Owned<E>>) {
    && m.Keys == r.Keys
    && forall k :: k in m ==> r[k] == Updated(m[k], r[k].data.value)
  }

  /** Every entity listed in `ids` passed through `f` once; the others are as they were. */
  function Apply<E>(m: map<nat, Owned<E>>, ids: seq<nat>, f: (nat, E) -> E): (r: map<nat, Owned<E>>)
    ensures Reshaped(m, r)
  {
    map k | k in m :: if k in ids then Updated(m[k], f(k, m[k].data.value)) else m[k]
  }

  /** One more handle, not listed before, passed through `f`. */
  lemma ApplyExtend<E>(m: map<nat, Owned<E>>, ids: seq<nat>, i: nat, f: (nat, E) -> E)
    requires i < |ids| && ids[i] in m && ids[i] !in ids[..i]
    ensures Apply(m, ids[..i], f)[ids[i]] == m[ids[i]]
    ensures Apply(m, ids[..i + 1], f) ==
      Apply(m, ids[..i], f)[ids[i] := Updated(m[ids[i]], f(ids[i], m[ids[i]].data.value))]
  {
    assert ids[..i + 1] == ids[..i] + [ids[i]];
  }

  /** Some listed updateable called `game_over` during its tick. */
  predicate Signalled<E>(m: map<nat, Owned<E>>, ids: seq<nat>, tick: TickFn<E>, delta: real, elapsed: real, b: Board) {
    exists k :: k in ids && k in m && tick(m[k].data.value, delta, elapsed, b).1
  }

  /** `ids` is ascending, names live entities only, and names exactly those with capability `c`. */
  ghost predicate Listed<E>(ids: seq<nat>, m: map<nat, Owned<E>>, c: Capability) {
    && Ascending(ids)
    && (forall i :: 0 <= i < |ids| ==> ids[i] in m)
    && (forall k :: k in m ==> (k in ids <==> Has(m[k], c)))
  }

  /** The registry invariant: handles `0 .. n-1` are live and each list matches its capability. */
  ghost predicate Registry<E>(m: map<nat, Owned<E>>, n: nat, upd: seq<nat>, inp: seq<nat>, col: seq<nat>) {
    && (forall k: nat :: k in m <==> k < n)
    && Listed(upd, m, Update)
    && Listed(inp, m, Input)
    && Listed(col, m, Collide)
  }

  /** Callbacks never change an entity's capabilities, so the lists stay right. */
  lemma RegistryReshaped<E>(m: map<nat, Owned<E>>, r: map<nat, Owned<E>>, n: nat, upd: seq<nat>, inp: seq<nat>, col: seq<nat>)
    requires Registry(m, n, upd, inp, col) && Reshaped(m, r)
    ensures Registry(r, n, upd, inp, col)
  {
    forall k | k in r
      ensures forall c :: Has(r[k], c) == Has(m[k], c)
    {
      assert r[k] == Updated(m[k], r[k].data.value);
    }
  }

  /** Registering `o` under the fresh handle `n` keeps the invariant, with `n` appended where `o` belongs. */
  lemma RegistryPush<E>(m: map<nat, Owned<E>>, n: nat, upd: seq<nat>, inp: seq<nat>, col: seq<nat>, o: Owned<E>)
    requires Registry(m, n, upd, inp, col)
    ensures n !in m
    ensures Registry(m[n := o], n + 1, upd + Tag(o, Update, n), inp + Tag(o, Input, n), col + Tag(o, Collide, n))
  {
    ListedPush(upd, m, n, o, Update);
    ListedPush(inp, m, n, o, Input);
    ListedPush(col, m, n, o, Collide);
  }

  lemma ListedPush<E>(ids: seq<nat>, m: map<nat, Owned<E>>, n: nat, o: Owned<E>, c: Capability)
    requires Listed(ids, m, c) && (forall k: nat :: k in m <==> k < n)
    ensures Listed(ids + Tag(o, c, n), m[n := o], c)
  {
    var r := ids + Tag(o, c, n);
    assert forall i :: 0 <= i < |ids| ==> ids[i] < n;
    assert forall i :: 0 <= i < |ids| ==> r[i] == ids[i];
    assert n in r <==> Has(o, c);
  }

  /** `[k]` when `o` has capability `c`, else nothing: what `take` pushes onto that list. */
  function Tag<E>(o: Owned<E>, c: Capability, k: nat): (r: seq<nat>)
    ensures r == [] || r == [k]
    ensures r != [] <==> Has(o, c)
  {
    if Has(o, c) then [k] else []
  }

  /** The list for `c` after `take`-ing `init` in order into an empty registry. */
  function Ids<E>(init: seq<Owned<E>>, c: Capability): (r: seq<nat>)
    ensures forall i :: 0 <= i < |r| ==> r[i] < |init|
  {
    if init == [] then [] else Ids(init[..|init| - 1], c) + Tag(init[|init| - 1], c, |init| - 1)
  }

  /** That list is ascending and holds exactly the positions of the entities with `c`. */
  lemma {:induction false} IdsExact<E>(init: seq<Owned<E>>, c: Capability)
    ensures Ascending(Ids(init, c))
    ensures forall k :: k in Ids(init, c) <==> 0 <= k < |init| && Has(init[k], c)
  {
    if init != [] {
      var front := init[..|init| - 1];
      IdsExact(front, c);
      forall k | 0 <= k < |front|
        ensures Has(front[k], c) == Has(init[k], c)
      {
      }
    }
  }

  /** The map after `take`-ing `init` in order into an empty registry: handle `k` is `init[k]`. */
  function Registered<E>(init: seq<Owned<E>>): (r: map<nat, Owned<E>>)
    ensures forall k: nat :: k in r <==> k < |init|
  {
    map k: nat | k < |init| :: init[k]
  }

  lemma PrefixSteps<E>(init: seq<Owned<E>>, i: nat)
    requires i < |init|
    ensures Registered(init[..i + 1]) == Registered(init[..i])[i := init[i]]
    ensures forall c :: Ids(init[..i + 1], c) == Ids(init[..i], c) + Tag(init[i], c, i)
  {
    assert init[..i + 1][..i] == init[..i];
  }

  /** The check of entity `a` against entity `b`, when both are live. */
  function CheckOne<E>(m: map<nat, Owned<E>>, a: nat, b: nat, check: CheckFn<E>): (r: map<nat, Owned<E>>)
    ensures r.Keys == m.Keys
  {
    if a in m && b in m then m[a := Updated(m[a], check(m[a].data.value, m[b].data.value))] else m
  }

  /** One couple of the sweep: `a` is checked against `b`, then `b` against `a`. */
  function CheckBoth<E>(m: map<nat, Owned<E>>, a: nat, b: nat, check: CheckFn<E>): (r: map<nat, Owned<E>>)
    ensures r.Keys == m.Keys
  {
    CheckOne(CheckOne(m, a, b, check), b, a, check)
  }

  /** The couples of `log`, first to last, each seeing the state the earlier ones left. */
  function ApplyChecks<E>(m: map<nat, Owned<E>>, log: seq<(nat, nat)>, check: CheckFn<E>): (r: map<nat, Owned<E>>)
    ensures r.Keys == m.Keys
  {
    if log == [] then m
    else
      var last := log[|log| - 1];
      CheckBoth(ApplyChecks(m, log[..|log| - 1], check), last.0, last.1, check)
  }

  /** Checks only change the receivers through their own callback, so capabilities survive the sweep. */
  lemma {:induction false} ApplyChecksReshaped<E>(m: map<nat, Owned<E>>, log: seq<(nat, nat)>, check: CheckFn<E>)
    ensures Reshaped(m, ApplyChecks(m, log, check))
  {
    if log != [] {
      var front := log[..|log| - 1];
      var last := log[|log| - 1];
      ApplyChecksReshaped(m, front, check);
      var mid := ApplyChecks(m, front, check);
      CheckOneReshaped(mid, last.0, last.1, check);
      var half := CheckOne(mid, last.0, last.1, check);
      ReshapedTrans(m, mid, half);
      CheckOneReshaped(half, last.1, last.0, check);
      ReshapedTrans(m, half, CheckOne(half, last.1, last.0, check));
    }
  }

  lemma CheckOneReshaped<E>(m: map<nat, Owned<E>>, a: nat, b: nat, check: CheckFn<E>)
    ensures Reshaped(m, CheckOne(m, a, b, check))
  {
  }

  lemma ReshapedTrans<E>(m: map<nat, Owned<E>>, mid: map<nat, Owned<E>>, r: map<nat, Owned<E>>)
    requires Reshaped(m, mid) && Reshaped(mid, r)
    ensures Reshaped(m, r)
  {
    forall k | k in m
      ensures r[k] == Updated(m[k], r[k].data.value)
    {
      assert mid[k] == Updated(m[k], mid[k].data.value);
    }
  }

  lemma {:induction false} ApplyChecksAppend<E>(m: map<nat, Owned<E>>, s: seq<(nat, nat)>, t: seq<(nat, nat)>, check: CheckFn<E>)
    ensures ApplyChecks(m, s + t, check) == ApplyChecks(ApplyChecks(m, s, check), t, check)
    decreases |t|
  {
    if t == [] {
      assert s + t == s;
    } else {
      var front := t[..|t| - 1];
      assert (s + t)[..|s + t| - 1] == s + front;
      ApplyChecksAppend(m, s, front, check);
    }
  }

  lemma RegistryAfterChecks<E>(m: map<nat, Owned<E>>, log: seq<(nat, nat)>, check: CheckFn<E>,
                                n: nat, upd: seq<nat>, inp: seq<nat>, col: seq<nat>)
    requires Registry(m, n, upd, inp, col)
    ensures Registry(ApplyChecks(m, log, check), n, upd, inp, col)
  {
    ApplyChecksReshaped(m, log, check);
    RegistryReshaped(m, ApplyChecks(m, log, check), n, upd, inp, col);
  }

  lemma ApplyChecksSnoc<E>(m: map<nat, Owned<E>>, log: seq<(nat, nat)>, p: (nat, nat), check: CheckFn<E>)
    ensures ApplyChecks(m, log + [p], check) == CheckBoth(ApplyChecks(m, log, check), p.0, p.1, check)
  {
    assert (log + [p])[..|log|] == log;
  }

  /** One step of the outer loop: applying row `i` after rows `0 .. i-1` applies rows `0 .. i`. */
  lemma ApplyChecksRows<E>(m: map<nat, Owned<E>>, ids: seq<nat>, i: nat, check: CheckFn<E>)
    requires i < |ids|
    ensures ApplyChecks(m, Rows(ids, i + 1), check)
      == ApplyChecks(ApplyChecks(m, Rows(ids, i), check), Row(ids, i, |ids|), check)
  {
    ApplyChecksAppend(m, Rows(ids, i), Row(ids, i, |ids|), check);
    RowsSnoc(ids, i);
  }

  /**
   * One block of the sweep: `b` is taken out of the map, `a` checks
   * itself against it, and `b` is put back.
   */
  method CheckAgainst<E>(m: map<nat, Owned<E>>, a: nat, b: nat, check: CheckFn<E>) returns (r: map<nat, Owned<E>>)
    requires a in m && b in m && a != b
    ensures r == CheckOne(m, a, b, check)
  {
    var cldrB := m[b];
    r := m - {b};
    var cldrA := r[a];
    r := r[a := Updated(cldrA, check(cldrA.data.value, cldrB.data.value))];
    r := r[b := cldrB];
  }

  /** The sweep's two nested loops over the collider list `ids`, on the entity map `m`. */
  method SweepAll<E>(m: map<nat, Owned<E>>, ids: seq<nat>, check: CheckFn<E>) returns (r: map<nat, Owned<E>>)
    requires Distinct(ids)
    requires forall i :: 0 <= i < |ids| ==> ids[i] in m
    ensures r == ApplyChecks(m, PairLog(ids), check)
  {
    r := m;
    ghost var done: seq<(nat, nat)> := [];
    for arrS := 0 to |ids|
      invariant done == Rows(ids, arrS)
      invariant r.Keys == m.Keys
      invariant r == ApplyChecks(m, done, check)
    {
      assert DistinctFrom(ids, arrS);
      r := SweepRow(r, ids, arrS, check);
      ApplyChecksRows(m, ids, arrS, check);
      done := Rows(ids, arrS + 1);
    }
  }

  /** The inner loop of the sweep: the collider at position `arrS` against each later one, both ways. */
  method SweepRow<E>(m: map<nat, Owned<E>>, ids: seq<nat>, arrS: nat, check: CheckFn<E>) returns (r: map<nat, Owned<E>>)
    requires arrS < |ids| && DistinctFrom(ids, arrS)
    requires forall i :: 0 <= i < |ids| ==> ids[i] in m
    ensures r.Keys == m.Keys
    ensures r == ApplyChecks(m, Row(ids, arrS, |ids|), check)
  {
    r := m;
    var idxA := ids[arrS];
    for j := arrS + 1 to |ids|
      invariant r.Keys == m.Keys
      invariant r == ApplyChecks(m, Row(ids, arrS, j), check)
    {
      var idxB := ids[j];
      assert idxA != idxB;
      ghost var log := Row(ids, arrS, j);
      r := CheckAgainst(r, idxA, idxB, check);
      r := CheckAgainst(r, idxB, idxA, check);
      ApplyChecksSnoc(m, log, (idxA, idxB), check);
      RowSnoc(ids, arrS, j);
    }
  }

  /** A handle of a list without repeats does not occur before its own position. */
  lemma NotEarlier(ids: seq<nat>, i: nat)
    requires Distinct(ids) && i < |ids|
    ensures ids[i] !in ids[..i]
  {
    forall k | 0 <= k < i
      ensures ids[..i][k] != ids[i]
    {
      DistinctAt(ids, k, i);
    }
  }

  /** The update pass's loop over the handles `ids` on the entity map `m`: every one is ticked, in order. */
  method TickAll<E>(m: map<nat, Owned<E>>, ids: seq<nat>, tick: TickFn<E>, delta: real, elapsed: real, b: Board)
    returns (r: map<nat, Owned<E>>, isGameOver: bool)
    requires Distinct(ids)
    requires forall i :: 0 <= i < |ids| ==> ids[i] in m
    ensures r == Apply(m, ids, TickStep(tick, delta, elapsed, b))
    ensures isGameOver == Signalled(m, ids, tick, delta, elapsed, b)
  {
    r := m;
    isGameOver := false;
    var f := TickStep(tick, delta, elapsed, b);
    for i := 0 to |ids|
      invariant r == Apply(m, ids[..i], f)
      invariant isGameOver == Signalled(m, ids[..i], tick, delta, elapsed, b)
    {
      var idx := ids[i];
      NotEarlier(ids, i);
      ApplyExtend(m, ids, i, f);
      assert ids[..i + 1] == ids[..i] + [idx];
      var o := r[idx];
      var (v, over) := tick(o.data.value, delta, elapsed, b);
      r := r[idx := Updated(o, v)];
      isGameOver := isGameOver || over;
    }
    assert ids[..|ids|] == ids;
  }

  /** The input fan-out's loop over the handles `ids` on the entity map `m`: every one gets the event, in order. */
  method InputAll<E>(m: map<nat, Owned<E>>, ids: seq<nat>, input: InputFn<E>, event: Events.WindowEvent, b: Board)
    returns (r: map<nat, Owned<E>>)
    requires Distinct(ids)
    requires forall i :: 0 <= i < |ids| ==> ids[i] in m
    ensures r == Apply(m, ids, InputStep(input, event, b))
  {
    r := m;
    var f := InputStep(input, event, b);
    for i := 0 to |ids|
      invariant r == Apply(m, ids[..i], f)
    {
      var idx := ids[i];
      NotEarlier(ids, i);
      ApplyExtend(m, ids, i, f);
      var o := r[idx];
      r := r[idx := Updated(o, input(o.data.value, event, b))];
    }
    assert ids[..|ids|] == ids;
  }

  class App<E> {
    const screenW: U16
    const screenH: U16
    /** The entities `on_app_init` registers, in order, at start-up and at every restart. */
    const onAppInit: seq<Owned<E>>
    var updateableIds: seq<nat>
    var inputListenerIds: seq<nat>
    var colliderIds: seq<nat>
    var board: Board
    var ownedData: map<nat, Owned<E>>
    var ownedDataCounter: nat

    ghost predicate Valid()
      reads this
    {
      Registry(ownedData, ownedDataCounter, updateableIds, inputListenerIds, colliderIds)
    }

    /**
     * The state a (re)start leaves: a fresh board, the entities of
     * `onAppInit` under handles `0 .. |onAppInit|-1`, the lists built from their
     * capabilities, and every updateable set up once.
     */
    ghost predicate Restarted(setup: SetupFn<E>)
      reads this
    {
      && Built(board, screenW, screenH, GRID_SIZE)
      && ownedDataCounter == |onAppInit|
      && updateableIds == Ids(onAppInit, Update)
      && inputListenerIds == Ids(onAppInit, Input)
      && colliderIds == Ids(onAppInit, Collide)
      && ownedData == Apply(Registered(onAppInit), Ids(onAppInit, Update), SetupStep(setup, board))
    }

    /**
     * `App::new`: the board for the screen, an empty registry, then the
     * entities `on_app_init` registers (`init`, in order, kept for restarts)
     * and their setup.
     */
    constructor (w: U16, h: U16, init: seq<Owned<E>>, setup: SetupFn<E>)
      ensures screenW == w && screenH == h && onAppInit == init
      ensures Valid() && Restarted(setup)
    {
      var b := NewBoard(w, h, GRID_SIZE);
      screenW, screenH := w, h;
      onAppInit := init;
      updateableIds, inputListenerIds, colliderIds := [], [], [];
      ownedData := map[];
      ownedDataCounter := 0;
      board := b;
      new;
      Populate(init);
      AfterOnAppInit(setup);
    }

    /** `clear`: no lists, no entities, and handles start again at 0. */
    method Clear()
      modifies this`updateableIds, this`inputListenerIds, this`colliderIds, this`ownedData, this`ownedDataCounter
      ensures Valid()
      ensures updateableIds == [] && inputListenerIds == [] && colliderIds == []
      ensures ownedData == map[] && ownedDataCounter == 0
    {
      updateableIds := [];
      inputListenerIds := [];
      colliderIds := [];
      ownedData := map[];
      ownedDataCounter := 0;
    }

    /**
     * `take`: the entity gets the current counter as its handle, the handle
     * is appended to each list whose capability the entity has, and the
     * counter moves on.
     */
    method Take(data: Owned<E>)
      requires Valid()
      modifies this`updateableIds, this`inputListenerIds, this`colliderIds, this`ownedData, this`ownedDataCounter
      ensures Valid()
      ensures ownedDataCounter == old(ownedDataCounter) + 1
      ensures old(ownedDataCounter) !in old(ownedData)
      ensures ownedData == old(ownedData)[old(ownedDataCounter) := data]
      ensures updateableIds == old(updateableIds) + Tag(data, Update, old(ownedDataCounter))
      ensures inputListenerIds == old(inputListenerIds) + Tag(data, Input, old(ownedDataCounter))
      ensures colliderIds == old(colliderIds) + Tag(data, Collide, old(ownedDataCounter))
    {
      RegistryPush(ownedData, ownedDataCounter, updateableIds, inputListenerIds, colliderIds, data);
      var currDataCounter := ownedDataCounter;
      if D.AsUpdateable(data.data).Some? {
        updateableIds := updateableIds + [currDataCounter];
      }
      if data.collider {
        colliderIds := colliderIds + [currDataCounter];
      }
      if D.AsInputListener(data.data).Some? {
        inputListenerIds := inputListenerIds + [currDataCounter];
      }
      ownedData := ownedData[currDataCounter := data];
      ownedDataCounter := ownedDataCounter + 1;
    }

    /** What `on_app_init` does here: `take` each entity of `init`, in order, into an empty registry. */
    method Populate(init: seq<Owned<E>>)
      requires ownedData == map[] && ownedDataCounter == 0
      requires updateableIds == [] && inputListenerIds == [] && colliderIds == []
      modifies this`updateableIds, this`inputListenerIds, this`colliderIds, this`ownedData, this`ownedDataCounter
      ensures Valid()
      ensures ownedDataCounter == |init| && ownedData == Registered(init)
      ensures updateableIds == Ids(init, Update)
      ensures inputListenerIds == Ids(init, Input)
      ensures colliderIds == Ids(init, Collide)
    {
      assert init[..0] == [];
      for i := 0 to |init|
        invariant Valid()
        invariant ownedDataCounter == i && ownedData == Registered(init[..i])
        invariant updateableIds == Ids(init[..i], Update)
        invariant inputListenerIds == Ids(init[..i], Input)
        invariant colliderIds == Ids(init[..i], Collide)
      {
        PrefixSteps(init, i);
        Take(init[i]);
      }
      assert init[..|init|] == init;
    }

    /** `after_on_app_init`: `on_setup` on every updateable, in list order, with its handle and the board. */
    method AfterOnAppInit(setup: SetupFn<E>)
      requires Valid()
      modifies this`ownedData
      ensures Valid()
      ensures ownedData == Apply(old(ownedData), updateableIds, SetupStep(setup, board))
    {
      var f := SetupStep(setup, board);
      for i := 0 to |updateableIds|
        invariant ownedData == Apply(old(ownedData), updateableIds[..i], f)
      {
        var idx := updateableIds[i];
        ApplyExtend(old(ownedData), updateableIds, i, f);
        var o := ownedData[idx];
        ownedData := ownedData[idx := Updated(o, setup(o.data.value, idx, board))];
      }
      assert updateableIds[..|updateableIds|] == updateableIds;
      RegistryReshaped(old(ownedData), ownedData, ownedDataCounter, updateableIds, inputListenerIds, colliderIds);
    }

    /**
     * `on_game_over`: `clear`, a new board for the screen, then `on_app_init`
     * and `after_on_app_init` again.
     */
    method OnGameOver(setup: SetupFn<E>)
      modifies this
      ensures Valid() && Restarted(setup)
    {
      Clear();
      board := NewBoard(screenW, screenH, GRID_SIZE);
      Populate(onAppInit);
      AfterOnAppInit(setup);
    }

    /**
     * The update pass of `render`: every updateable is ticked, in list
     * order, even after one has called `game_over`; the result says
     * whether any did.
     */
    method UpdatePass(delta: real, elapsed: real, tick: TickFn<E>) returns (isGameOver: bool)
      requires Valid()
      modifies this`ownedData
      ensures Valid()
      ensures ownedData == Apply(old(ownedData), updateableIds, TickStep(tick, delta, elapsed, board))
      ensures isGameOver == Signalled(old(ownedData), updateableIds, tick, delta, elapsed, board)
    {
      AscendingDistinct(updateableIds);
      ownedData, isGameOver := TickAll(ownedData, updateableIds, tick, delta, elapsed, board);
      RegistryReshaped(old(ownedData), ownedData, ownedDataCounter, updateableIds, inputListenerIds, colliderIds);
    }

    /**
     * The collision sweep of `render`: for every pair of list positions
     * i < j, the entity at i checks itself against the one at j, then the
     * other way round. The key set never changes.
     */
    method CollisionSweep(check: CheckFn<E>)
      requires Distinct(colliderIds)
      requires forall i :: 0 <= i < |colliderIds| ==> colliderIds[i] in ownedData
      modifies this`ownedData
      ensures ownedData == ApplyChecks(old(ownedData), PairLog(colliderIds), check)
    {
      ownedData := SweepAll(ownedData, colliderIds, check);
    }

    /**
     * `render` without its drawing and timing: the update pass, then a
     * restart if some updateable called `game_over`, else the collision sweep.
     */
    method Render(delta: real, elapsed: real, setup: SetupFn<E>, tick: TickFn<E>, check: CheckFn<E>)
      requires Valid()
      modifies this
      ensures Valid()
      ensures Signalled(old(ownedData), old(updateableIds), tick, delta, elapsed, old(board)) ==>
        Restarted(setup)
      ensures !Signalled(old(ownedData), old(updateableIds), tick, delta, elapsed, old(board)) ==>
        && board == old(board)
        && ownedDataCounter == old(ownedDataCounter)
        && updateableIds == old(updateableIds)
        && inputListenerIds == old(inputListenerIds)
        && colliderIds == old(colliderIds)
        && ownedData == ApplyChecks(
             Apply(old(ownedData), old(updateableIds), TickStep(tick, delta, elapsed, old(board))),
             PairLog(old(colliderIds)), check)
    {
      var isGameOver := UpdatePass(delta, elapsed, tick);
      if isGameOver {
        OnGameOver(setup);
        return;
      }
      ghost var ticked := ownedData;
      AscendingDistinct(colliderIds);
      CollisionSweep(check);
      RegistryAfterChecks(ticked, PairLog(colliderIds), check, ownedDataCounter, updateableIds, inputListenerIds, colliderIds);
    }

    /**
     * `window_event`: a keyboard event goes to every input listener, in
     * list order, with the board; any other event changes nothing.
     */
    method WindowEvent(event: Events.WindowEvent, input: InputFn<E>)
      requires Valid()
      modifies this`ownedData
      ensures Valid()
      ensures event.KeyboardInput? ==>
        ownedData == Apply(old(ownedData), inputListenerIds, InputStep(input, event, board))
      ensures !event.KeyboardInput? ==> ownedData == old(ownedData)
    {
      match event {
        case KeyboardInput(_) =>
          AscendingDistinct(inputListenerIds);
          ownedData := InputAll(ownedData, inputListenerIds, input, event, board);
          RegistryReshaped(old(ownedData), ownedData, ownedDataCounter, updateableIds, inputListenerIds, colliderIds);
        case OtherEvent =>
      }
    }
  }
}
