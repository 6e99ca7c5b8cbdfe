/** The parts of the Minecraft Bedrock scripting API that both jukebox managers drive: block
    permutations (the value of each block state, and the values each state allows), the
    jukebox block whose permutation `setPermutation` replaces, the blocks around it, and hopper
    containers as fixed-size slot arrays. The disc-slot logic both managers share is here too:
    `getPlayingDisc`, `clearDisc` and the hopper scans of `tick`. */
module Blocks {
  import opened Text

  /** A block-state value: `playing_disc` holds a boolean, the disc states hold item ids. */
  datatype StateValue = Flag(on: bool) | Id(name: string)

  /** What a disc state holds when it holds no disc. */
  const NoDisc: StateValue := Id("none")

  /** A block permutation: the current value of each state and the values each state allows. */
  datatype Permutation = Permutation(values: map<string, StateValue>, allowed: map<string, set<StateValue>>)

  /** A permutation the game can hold: every state has a value, and one it allows. */
  predicate ValidPermutation(p: Permutation) {
    p.values.Keys == p.allowed.Keys && forall s :: s in p.values ==> p.values[s] in p.allowed[s]
  }

  /** `permutation.getState(state)`: `undefined` (None) for a state the block does not have. */
  function GetState(p: Permutation, state: string): Option<StateValue> {
    if state in p.values then Some(p.values[state]) else None
  }

  /** Whether `permutation.withState(state, v)` succeeds instead of throwing. */
  predicate Accepts(p: Permutation, state: string, v: StateValue) {
    state in p.allowed && v in p.allowed[state]
  }

  /** `permutation.withState(state, v)`: a new permutation, or an exception (None) when the block
      has no such state or the state does not allow the value. */
  function WithState(p: Permutation, state: string, v: StateValue): (r: Option<Permutation>)
    ensures r.Some? <==> Accepts(p, state, v)
    ensures r.Some? ==> r.value.allowed == p.allowed && GetState(r.value, state) == Some(v)
    ensures r.Some? ==> forall s :: s != state ==> GetState(r.value, s) == GetState(p, s)
    ensures r.Some? && ValidPermutation(p) ==> ValidPermutation(r.value)
  {
    if Accepts(p, state, v) then Some(p.(values := p.values[state := v])) else None
  }

  /** `try { block.setPermutation(block.permutation.withState(state, v)); } catch { }`. */
  function TrySet(p: Permutation, state: string, v: StateValue): Permutation {
    if Accepts(p, state, v) then WithState(p, state, v).value else p
  }

  /** The loop `for (const state of states)` around a guarded `withState(state, v)`: each state
      that allows `v` takes it, every other state keeps its value. */
  function SetEach(p: Permutation, states: seq<string>, v: StateValue): (r: Permutation)
    ensures r.allowed == p.allowed
    ensures forall s :: GetState(r, s) == if s in states && Accepts(p, s, v) then Some(v) else GetState(p, s)
    decreases |states|
  {
    if states == [] then p else TrySet(SetEach(p, states[..|states| - 1], v), states[|states| - 1], v)
  }

  /** The permutation a run of `setPermutation` calls leaves, and whether it ran to the end
      (false: a `withState` threw and the exception left the caller). */
  datatype Run = Run(permutation: Permutation, completed: bool)

  /** The same loop with an unguarded `withState`: it stops at the first state that refuses `v`,
      keeping the states set before it. */
  function SetEachUntil(p: Permutation, states: seq<string>, v: StateValue): (r: Run)
    ensures r.completed <==> forall s :: s in states ==> Accepts(p, s, v)
    ensures r.completed ==> r.permutation == SetEach(p, states, v)
    ensures r.permutation.allowed == p.allowed
    decreases |states|
  {
    if states == [] then Run(p, true)
    else
      var before := SetEachUntil(p, states[..|states| - 1], v);
      var last := states[|states| - 1];
      if !before.completed then before
      else if Accepts(before.permutation, last, v) then Run(WithState(before.permutation, last, v).value, true)
      else Run(before.permutation, false)
  }

  /** `clearDisc`: `playing_disc` set to false, then every disc state to "none", none of it
      guarded, so the first refused value ends the call. */
  function Cleared(p: Permutation, playing: string, states: seq<string>): (r: Run)
    ensures r.completed <==> Accepts(p, playing, Flag(false)) && forall s :: s in states ==> Accepts(p, s, NoDisc)
    ensures r.permutation.allowed == p.allowed
  {
    if Accepts(p, playing, Flag(false)) then SetEachUntil(WithState(p, playing, Flag(false)).value, states, NoDisc)
    else Run(p, false)
  }

  /** The block of a jukebox, whose permutation `block.setPermutation` replaces. */
  class JukeboxBlock {
    var permutation: Permutation
    /** `${block.dimension.id}.${JSON.stringify(block.location)}`, the block's key in `playingJukeboxes`. */
    const key: string

    constructor (p: Permutation, key: string)
      ensures permutation == p && this.key == key
    {
      permutation := p;
      this.key := key;
    }

    /** `block.setPermutation(block.permutation.withState(state, v))`; `ok` is false when
        `withState` threw, and then the block is as it was. */
    method SetState(state: string, v: StateValue) returns (ok: bool)
      modifies this
      ensures ok == Accepts(old(permutation), state, v)
      ensures permutation == TrySet(old(permutation), state, v)
    {
      var next := WithState(permutation, state, v);
      ok := next.Some?;
      if ok {
        permutation := next.value;
      }
    }
  }

  /** `clearDisc` (`BP/scripts/jukebox/jukeboxManager.js` and its template, which differ only in
      the state names). */
  method ClearDisc(block: JukeboxBlock, playing: string, states: seq<string>) returns (completed: bool)
    modifies block
    ensures Run(block.permutation, completed) == Cleared(old(block.permutation), playing, states)
  {
    completed := block.SetState(playing, Flag(false));
    if !completed {
      return;
    }
    ghost var start := block.permutation;
    for i := 0 to |states|
      invariant Run(block.permutation, true) == SetEachUntil(start, states[..i], NoDisc)
    {
      assert states[..i + 1][..i] == states[..i];
      completed := block.SetState(states[i], NoDisc);
      if !completed {
        UntilStops(start, states, i + 1, NoDisc);
        return;
      }
    }
    assert states[..|states|] == states;
  }

  /** Once a state refuses the value, the rest of the loop never runs. */
  lemma {:induction false} UntilStops(p: Permutation, states: seq<string>, k: nat, v: StateValue)
    requires k <= |states|
    requires !SetEachUntil(p, states[..k], v).completed
    ensures SetEachUntil(p, states, v) == SetEachUntil(p, states[..k], v)
    decreases |states|
  {
    if k == |states| {
      assert states[..k] == states;
    } else {
      var init := states[..|states| - 1];
      assert init[..k] == states[..k];
      UntilStops(p, init, k, v);
    }
  }

  /** After a `clearDisc` that ran to the end, `playing_disc` is false and `getPlayingDisc`
      finds no disc. */
  lemma ClearedHasNoDisc(p: Permutation, playing: string, states: seq<string>)
    requires Cleared(p, playing, states).completed
    requires playing !in states
    ensures GetState(Cleared(p, playing, states).permutation, playing) == Some(Flag(false))
    ensures forall s :: s in states ==> GetState(Cleared(p, playing, states).permutation, s) == Some(NoDisc)
    ensures PlayingDisc(Cleared(p, playing, states).permutation, states).None?
  {
    var q := WithState(p, playing, Flag(false)).value;
    assert Cleared(p, playing, states).permutation == SetEach(q, states, NoDisc);
  }

  /** Index of the first of `states` whose value is not "none"; a state the block lacks counts
      as set, since `undefined != "none"`. */
  function FirstSet(p: Permutation, states: seq<string>): (k: nat)
    ensures k <= |states|
    ensures forall j :: 0 <= j < k ==> GetState(p, states[j]) == Some(NoDisc)
    ensures k < |states| ==> GetState(p, states[k]) != Some(NoDisc)
  {
    if states == [] then 0
    else if GetState(p, states[0]) != Some(NoDisc) then 0
    else 1 + FirstSet(p, states[1..])
  }

  /** What `getPlayingDisc` returns: `{ id: data, … }`, whose id is `undefined` (None) when the
      block lacks the state. The `musicDiscs` entry it also carries is not modelled. */
  datatype DiscInfo = DiscInfo(id: Option<StateValue>)

  /** The disc `getPlayingDisc` reports for a permutation: the value of the first state that
      is not "none", or `undefined` (None) when all are "none". */
  function PlayingDisc(p: Permutation, states: seq<string>): (d: Option<DiscInfo>)
    ensures d.None? <==> forall s :: s in states ==> GetState(p, s) == Some(NoDisc)
    ensures d.Some? ==> d.value.id != Some(NoDisc) && exists s :: s in states && GetState(p, s) == d.value.id
  {
    var k := FirstSet(p, states);
    if k < |states| then Some(DiscInfo(GetState(p, states[k]))) else None
  }

  /** `getPlayingDisc(permutation)`: the loop over `states` that breaks at the first value that
      is not "none". */
  method GetPlayingDisc(p: Permutation, states: seq<string>) returns (disc: Option<DiscInfo>)
    ensures disc == PlayingDisc(p, states)
  {
    disc := None;
    for i := 0 to |states|
      invariant forall j :: 0 <= j < i ==> GetState(p, states[j]) == Some(NoDisc)
    {
      var data := GetState(p, states[i]);
      if data != Some(NoDisc) {
        disc := Some(DiscInfo(data));
        return;
      }
    }
  }

  /** When every state but `s` holds "none", the disc reported is the value of `s`, unless
      that too is "none". */
  lemma {:induction false} OnlyOneSet(p: Permutation, states: seq<string>, s: string)
    requires forall t :: t in states && t != s ==> GetState(p, t) == Some(NoDisc)
    ensures PlayingDisc(p, states) ==
      if s in states && GetState(p, s) != Some(NoDisc) then Some(DiscInfo(GetState(p, s))) else None
  {
    var k := FirstSet(p, states);
    if k < |states| {
      assert states[k] == s;
    }
  }

  /** The sides `getConnectedHoppers` looks at, in its order. */
  datatype Direction = Up | North | South | East | West

  const Directions: seq<Direction> := [Up, North, South, East, West]

  /** Position of a side in `Directions`. */
  function Rank(d: Direction): nat {
    match d
    case Up => 0
    case North => 1
    case South => 2
    case East => 3
    case West => 4
  }

  /** The `switch (facing)` on a hopper's `facing_direction`: the side of the jukebox a hopper
      with that facing must stand on to feed it (facing 1, and any value outside the switch, feeds nothing). */
  function FeedsFrom(facing: Option<int>): (d: Option<Direction>)
    ensures d.Some? <==> facing.Some? && facing.value in {0, 2, 3, 4, 5}
  {
    match facing
    case Some(0) => Some(Up)
    case Some(3) => Some(North)
    case Some(2) => Some(South)
    case Some(4) => Some(East)
    case Some(5) => Some(West)
    case _ => None
  }

  const HopperId := "minecraft:hopper"

  /** A block next to the jukebox: its type, its `facing_direction` state, and the container of
      its inventory component (None when the component or its container is missing). */
  datatype Neighbor = Neighbor(typeId: string, facing: Option<int>, inventory: Option<array<Option<string>>>)

  /** The hopper at side `d` (absent from the map when `dimension.getBlock` gives nothing)
      points into the jukebox. */
  predicate Feeds(around: map<Direction, Neighbor>, d: Direction) {
    d in around && around[d].typeId == HopperId && FeedsFrom(around[d].facing) == Some(d)
  }

  predicate Ascending(ds: seq<Direction>) {
    forall i, j :: 0 <= i < j < |ds| ==> Rank(ds[i]) < Rank(ds[j])
  }

  /** The sides among `dirs` whose hopper feeds the jukebox, in the order of `dirs`. */
  function FeedingSides(around: map<Direction, Neighbor>, dirs: seq<Direction>): (sides: seq<Direction>)
    ensures |sides| <= |dirs|
    ensures forall d :: d in sides <==> d in dirs && Feeds(around, d)
    decreases |dirs|
  {
    if dirs == [] then []
    else
      var last := dirs[|dirs| - 1];
      FeedingSides(around, dirs[..|dirs| - 1]) + if Feeds(around, last) then [last] else []
  }

  /** Filtering keeps the order of the sides. */
  lemma {:induction false} FeedingSidesAscending(around: map<Direction, Neighbor>, dirs: seq<Direction>)
    requires Ascending(dirs)
    ensures Ascending(FeedingSides(around, dirs))
    decreases |dirs|
  {
    if dirs != [] {
      var init := dirs[..|dirs| - 1];
      var last := dirs[|dirs| - 1];
      FeedingSidesAscending(around, init);
      forall d | d in FeedingSides(around, init) ensures Rank(d) < Rank(last) {
        var j :| 0 <= j < |init| && init[j] == d;
      }
    }
  }

  /** The blocks on the given sides. */
  function NeighborsAt(around: map<Direction, Neighbor>, sides: seq<Direction>): (ns: seq<Neighbor>)
    requires forall d :: d in sides ==> d in around
    ensures |ns| == |sides| && forall i :: 0 <= i < |sides| ==> ns[i] == around[sides[i]]
  {
    seq(|sides|, i requires 0 <= i < |sides| => around[sides[i]])
  }

  /** `getConnectedHoppers`: the hoppers that feed the jukebox, at most one per side, in the
      order Up, North, South, East, West. */
  method GetConnectedHoppers(around: map<Direction, Neighbor>) returns (hoppers: seq<Neighbor>)
    ensures hoppers == FeedingHoppers(around)
  {
    hoppers := [];
    for i := 0 to |Directions|
      invariant hoppers == NeighborsAt(around, FeedingSides(around, Directions[..i]))
    {
      var dir := Directions[i];
      FeedingSidesSnoc(around, Directions, i);
      if dir in around {
        var block := around[dir];
        if block.typeId == HopperId {
          var connected := FeedsFrom(block.facing);
          if connected == Some(dir) {
            hoppers := hoppers + [block];
          }
        }
      }
    }
    assert Directions[..|Directions|] == Directions;
  }

  /** One more side looked at: its hopper is appended when it feeds the jukebox. */
  lemma FeedingSidesSnoc(around: map<Direction, Neighbor>, dirs: seq<Direction>, i: nat)
    requires i < |dirs|
    ensures NeighborsAt(around, FeedingSides(around, dirs[..i + 1])) ==
      NeighborsAt(around, FeedingSides(around, dirs[..i])) + if Feeds(around, dirs[i]) then [around[dirs[i]]] else []
  {
    assert dirs[..i + 1][..i] == dirs[..i];
  }

  /** The connected hoppers: exactly those that point into the jukebox, no side twice, in the
      fixed side order, so at most five. */
  lemma ConnectedHoppers(around: map<Direction, Neighbor>)
    ensures var sides := FeedingSides(around, Directions);
      && |sides| <= 5
      && (forall d :: d in sides <==> Feeds(around, d))
      && Ascending(sides)
  {
    FeedingSidesAscending(around, Directions);
    forall d ensures d in Directions {
      match d
      case Up => assert Directions[0] == d;
      case North => assert Directions[1] == d;
      case South => assert Directions[2] == d;
      case East => assert Directions[3] == d;
      case West => assert Directions[4] == d;
    }
  }

  /** The containers of the given blocks. */
  function InventoriesOf(hs: seq<Neighbor>): set<array<Option<string>>> {
    set k | 0 <= k < |hs| && hs[k].inventory.Some? :: hs[k].inventory.value
  }

  /** The containers of the blocks around the jukebox. */
  function AroundInventories(around: map<Direction, Neighbor>): set<array<Option<string>>> {
    set d | d in around && around[d].inventory.Some? :: around[d].inventory.value
  }

  /** The hoppers `getConnectedHoppers` returns: those around the jukebox that point into it,
      in the order of `Directions`. */
  function FeedingHoppers(around: map<Direction, Neighbor>): (hs: seq<Neighbor>)
    ensures forall i :: 0 <= i < |hs| ==> hs[i] in around.Values
  {
    NeighborsAt(around, FeedingSides(around, Directions))
  }

  lemma ConnectedInventories(around: map<Direction, Neighbor>)
    ensures InventoriesOf(FeedingHoppers(around)) <= AroundInventories(around)
  {
    var sides := FeedingSides(around, Directions);
    var ns := NeighborsAt(around, sides);
    forall a | a in InventoriesOf(ns) ensures a in AroundInventories(around) {
      var k :| 0 <= k < |ns| && ns[k].inventory.Some? && ns[k].inventory.value == a;
      assert around[sides[k]].inventory.value == a;
    }
  }

  /** Slot `i` of hopper `h` holds an item that is a key of `musicDiscs`. */
  predicate HoldsDisc(hs: seq<Neighbor>, known: set<string>, h: int, i: int)
    reads InventoriesOf(hs)
  {
    && 0 <= h < |hs| && hs[h].inventory.Some?
    && 0 <= i < hs[h].inventory.value.Length
    && hs[h].inventory.value[i].Some? && hs[h].inventory.value[i].value in known
  }

  /** No slot before (h, i), scanning hoppers then slots, holds a known disc. */
  ghost predicate NoDiscBefore(hs: seq<Neighbor>, known: set<string>, h: int, i: int)
    reads InventoriesOf(hs)
  {
    && (forall h', i' :: h' < h ==> !HoldsDisc(hs, known, h', i'))
    && (forall i' :: i' < i ==> !HoldsDisc(hs, known, h, i'))
  }

  /** The scan of the intake branch of `tick`: hoppers in order, slots in order, skipping a
      hopper without container and empty slots, up to the first item `musicDiscs` knows. The
      source plays that disc and empties the slot inside the loop and then stops; here the scan
      returns the slot and the caller does both. */
  method FindDisc(hs: seq<Neighbor>, known: set<string>) returns (found: Option<(nat, nat)>)
    ensures found.Some? ==> HoldsDisc(hs, known, found.value.0, found.value.1)
    ensures found.Some? ==> NoDiscBefore(hs, known, found.value.0, found.value.1)
    ensures found.None? ==> NoDiscBefore(hs, known, |hs|, 0)
  {
    var h := 0;
    while h < |hs|
      invariant 0 <= h <= |hs|
      invariant NoDiscBefore(hs, known, h, 0)
    {
      if hs[h].inventory.Some? {
        var inv := hs[h].inventory.value;
        var i := 0;
        while i < inv.Length
          invariant 0 <= i <= inv.Length
          invariant NoDiscBefore(hs, known, h, i)
        {
          var item := inv[i];
          if item.Some? && item.value in known {
            return Some((h, i));
          }
          i := i + 1;
        }
      }
      h := h + 1;
    }
    return None;
  }

  /** `container.emptySlotsCount`. */
  function EmptySlots(slots: seq<Option<string>>): (n: nat)
    ensures n <= |slots|
    ensures n == 0 <==> forall i :: 0 <= i < |slots| ==> slots[i].Some?
    decreases |slots|
  {
    if slots == [] then 0
    else EmptySlots(slots[..|slots| - 1]) + if slots[|slots| - 1].None? then 1 else 0
  }

  /** The slot `container.addItem` puts a disc in (discs do not stack): the first empty one. */
  function FirstEmpty(slots: seq<Option<string>>): (r: Option<nat>)
    ensures r.Some? ==> r.value < |slots| && slots[r.value].None?
    ensures r.Some? ==> forall j :: 0 <= j < r.value ==> slots[j].Some?
    ensures r.None? <==> EmptySlots(slots) == 0
    decreases |slots|
  {
    if slots == [] then None
    else if slots[0].None? then Some(0)
    else
      var rest := FirstEmpty(slots[1..]);
      assert forall i :: 0 < i < |slots| ==> slots[i] == slots[1..][i - 1];
      if rest.Some? then Some(rest.value + 1) else None
  }

  /** `container.addItem(new ItemStack(id, 1))`: the item goes to the first empty slot, and
      `slot` says which (None: the container was full and nothing changed). */
  method AddItem(inv: array<Option<string>>, id: string) returns (slot: Option<nat>)
    modifies inv
    ensures slot == FirstEmpty(old(inv[..]))
    ensures inv[..] == if slot.Some? then old(inv[..])[slot.value := Some(id)] else old(inv[..])
  {
    slot := FirstEmpty(inv[..]);
    if slot.Some? {
      inv[slot.value] := Some(id);
    }
  }

  /** `getOutputHopper`: the block below, when it is a hopper. */
  function OutputHopper(below: Option<Neighbor>): (r: Option<Neighbor>)
    ensures r.Some? <==> below.Some? && below.value.typeId == HopperId
  {
    if below.Some? && below.value.typeId == HopperId then below else None
  }

  /** The container of the block below, the one the output branch of `tick` may fill. */
  function BelowInventory(below: Option<Neighbor>): set<array<Option<string>>> {
    if below.Some? && below.value.inventory.Some? then {below.value.inventory.value} else {}
  }

  /** The output branch of `tick` can act: the block below is a hopper whose container has an
      empty slot. */
  predicate CanOutput(below: Option<Neighbor>)
    reads BelowInventory(below)
  {
    OutputHopper(below).Some? && below.value.inventory.Some? && EmptySlots(below.value.inventory.value[..]) > 0
  }

  /** An id `new ItemStack(id, 1)` accepts and that passes the template's
      `id && typeof id === 'string'`: a non-empty string. */
  predicate IsItemId(id: Option<StateValue>) {
    id.Some? && id.value.Id? && id.value.name != ""
  }

  /** The truthiness test `if (isPlayingDisc)` on a state value. */
  predicate Truthy(v: Option<StateValue>) {
    match v
    case None => false
    case Some(Flag(on)) => on
    case Some(Id(name)) => name != ""
  }
}
