/** `BP/scripts/jukebox/jukeboxManager.js`, the jukebox manager the add-on ships: four disc
    states in the `my_music_disc:` namespace, a `setDisc` that first clears every disc state and
    then routes the disc to one of them by its id, the hopper branches of `tick`, the player
    interaction, and the `playingJukeboxes` record of which jukeboxes are playing. */
module LiveJukebox {
  import opened Text
  import opened Blocks

  const PlayingState := "my_music_disc:playing_disc"
  const VanillaDisc1 := "my_music_disc:vanilla_disc_1"
  const VanillaDisc2 := "my_music_disc:vanilla_disc_2"
  const CustomDisc1 := "my_music_disc:custom_disc_1"
  const CustomDisc2 := "my_music_disc:custom_disc_2"

  /** `states`, in the order `getPlayingDisc` scans them. */
  const States: seq<string> := [VanillaDisc1, VanillaDisc2, CustomDisc1, CustomDisc2]

  const CustomPrefix := "my_music_disc:"
  const VanillaPrefix := "minecraft:"

  /** `vanillaDiscs1`: the vanilla discs that go to `vanilla_disc_1`. */
  const VanillaDiscs1: seq<string> := [
    "minecraft:music_disc_13", "minecraft:music_disc_cat", "minecraft:music_disc_blocks",
    "minecraft:music_disc_chirp", "minecraft:music_disc_far", "minecraft:music_disc_mall",
    "minecraft:music_disc_mellohi", "minecraft:music_disc_stal", "minecraft:music_disc_strad",
    "minecraft:music_disc_ward", "minecraft:music_disc_11", "minecraft:music_disc_wait",
    "minecraft:music_disc_otherside", "minecraft:music_disc_5", "minecraft:music_disc_pigstep"]

  /** The disc state `setDisc` writes an id to: `custom_disc_1` for the add-on's own discs,
      `vanilla_disc_1` for the listed vanilla discs, `vanilla_disc_2` for any other
      `minecraft:` id, and none at all for an id with another namespace. */
  function Route(id: string): (r: Option<string>)
    ensures r.Some? ==> r.value in States && id != NoDisc.name
    ensures r.None? <==> !StartsWith(id, CustomPrefix) && !StartsWith(id, VanillaPrefix)
  {
    if StartsWith(id, CustomPrefix) then Some(CustomDisc1)
    else if StartsWith(id, VanillaPrefix) then
      if id in VanillaDiscs1 then Some(VanillaDisc1) else Some(VanillaDisc2)
    else None
  }

  /** The permutation `setDisc(block, id)` leaves when `playing_disc` accepts true:
      `playing_disc` is true, the routed state holds the id if it allows it, every other disc
      state holds "none" where it allows it, and nothing else changes. */
  function AfterSetDisc(p: Permutation, id: string): (r: Permutation)
    requires Accepts(p, PlayingState, Flag(true))
    ensures r.allowed == p.allowed
    ensures GetState(r, PlayingState) == Some(Flag(true))
    ensures forall s :: s in States ==>
      GetState(r, s) == (
        if Route(id) == Some(s) && Accepts(p, s, Id(id)) then Some(Id(id))
        else if Accepts(p, s, NoDisc) then Some(NoDisc)
        else GetState(p, s))
    ensures forall s :: s !in States && s != PlayingState ==> GetState(r, s) == GetState(p, s)
  {
    var playing := WithState(p, PlayingState, Flag(true)).value;
    var cleared := SetEach(playing, States, NoDisc);
    match Route(id)
    case None => cleared
    case Some(state) => TrySet(cleared, state, Id(id))
  }

  /** `setDisc(block, id)`: `playing_disc` to true (unguarded: when it throws, nothing else
      happens), every disc state to "none", then the id into the state its prefix selects,
      each of these inside its own `try { } catch { }`. */
  method SetDisc(block: JukeboxBlock, id: string) returns (completed: bool)
    modifies block
    ensures completed == Accepts(old(block.permutation), PlayingState, Flag(true))
    ensures block.permutation == if completed then AfterSetDisc(old(block.permutation), id) else old(block.permutation)
  {
    completed := block.SetState(PlayingState, Flag(true));
    if !completed {
      return;
    }
    ghost var playing := block.permutation;
    for i := 0 to |States|
      invariant block.permutation == SetEach(playing, States[..i], NoDisc)
    {
      assert States[..i + 1][..i] == States[..i];
      var _ := block.SetState(States[i], NoDisc);
    }
    assert States[..|States|] == States;
    if StartsWith(id, CustomPrefix) {
      var _ := block.SetState(CustomDisc1, Id(id));
    } else if StartsWith(id, VanillaPrefix) {
      if id in VanillaDiscs1 {
        var _ := block.SetState(VanillaDisc1, Id(id));
      } else {
        var _ := block.SetState(VanillaDisc2, Id(id));
      }
    }
  }

  /** On a jukebox whose four disc states all allow "none", `getPlayingDisc` after `setDisc(id)`
      reports `id` when its prefix routes it to a state that allows it, and no disc otherwise
      (an id of another namespace leaves the jukebox silent though `playing_disc` is true). */
  lemma SetDiscPlays(p: Permutation, id: string)
    requires Accepts(p, PlayingState, Flag(true))
    requires forall s :: s in States ==> Accepts(p, s, NoDisc)
    ensures PlayingDisc(AfterSetDisc(p, id), States) ==
      if Route(id).Some? && Accepts(p, Route(id).value, Id(id)) then Some(DiscInfo(Some(Id(id)))) else None
  {
    var r := AfterSetDisc(p, id);
    match Route(id)
    case None =>
      OnlyOneSet(r, States, PlayingState);
    case Some(state) =>
      OnlyOneSet(r, States, state);
  }

  /** The module-level `playingJukeboxes` object, and the manager's operations that use it. */
  class JukeboxManager {
    /** The keys of `playingJukeboxes` (every value stored there is `true`). */
    var playingJukeboxes: set<string>

    constructor ()
      ensures playingJukeboxes == {}
    {
      playingJukeboxes := {};
    }

    /** `playDisc` without its sounds, title and timers: the jukebox is recorded as playing,
        then `setDisc` runs (`completed` is false when it threw). */
    method PlayDisc(block: JukeboxBlock, id: string) returns (completed: bool)
      modifies this, block
      ensures playingJukeboxes == old(playingJukeboxes) + {block.key}
      ensures completed == Accepts(old(block.permutation), PlayingState, Flag(true))
      ensures block.permutation == if completed then AfterSetDisc(old(block.permutation), id) else old(block.permutation)
    {
      playingJukeboxes := playingJukeboxes + {block.key};
      completed := SetDisc(block, id);
    }

    /** The first branch of `tick`: a jukebox whose `playing_disc` is set but that is not
        recorded as playing gets `playing_disc` false (unguarded; a refusal changes nothing). */
    method ResetUnrecorded(block: JukeboxBlock)
      modifies block
      ensures block.permutation ==
        if block.key in playingJukeboxes then old(block.permutation) else TrySet(old(block.permutation), PlayingState, Flag(false))
    {
      if block.key !in playingJukeboxes {
        var _ := block.SetState(PlayingState, Flag(false));
      }
    }

    /** What the output of the held disc `disc` did, between the state before it and the
        state after it: when the block below can take it and its id is an item id, the disc is
        in the first empty slot below and the jukebox is cleared; otherwise neither changes. */
    twostate predicate OutputDone(block: JukeboxBlock, disc: DiscInfo, below: Option<Neighbor>)
      reads block, BelowInventory(below)
    {
      && (!old(CanOutput(below)) || !IsItemId(disc.id) ==>
        block.permutation == old(block.permutation) && forall a :: a in BelowInventory(below) ==> a[..] == old(a[..]))
      && (old(CanOutput(below)) && IsItemId(disc.id) ==>
        var inv := below.value.inventory.value;
        && inv[..] == old(inv[..])[FirstEmpty(old(inv[..])).value := Some(disc.id.value.name)]
        && block.permutation == Cleared(old(block.permutation), PlayingState, States).permutation)
    }

    /** The output branch of `tick` for the disc `disc`: when the block below is a hopper with
        an empty slot, the disc goes to its first empty slot and `clearDisc` runs; when the id
        is not an item id, `new ItemStack` throws and nothing changes. */
    method OutputDisc(block: JukeboxBlock, disc: DiscInfo, below: Option<Neighbor>)
      modifies block, BelowInventory(below)
      ensures OutputDone(block, disc, below)
    {
      var hopper := OutputHopper(below);
      if hopper.None? || hopper.value.inventory.None? {
        return;
      }
      var inv := hopper.value.inventory.value;
      if EmptySlots(inv[..]) <= 0 || !IsItemId(disc.id) {
        return;
      }
      var _ := AddItem(inv, disc.id.value.name);
      var _ := ClearDisc(block, PlayingState, States);
    }

    /** What the intake did, between the state before it and the state after it: `taken`
        names the first slot, scanning the hoppers and then their slots, that held a known
        disc, or is None when no slot did. The jukebox is marked as playing and gets the disc
        only when it takes one. The slot is emptied only when `setDisc` completed. No other
        slot of the hoppers changes. */
    twostate predicate TookDisc(block: JukeboxBlock, hoppers: seq<Neighbor>, known: set<string>,
                                new taken: Option<(nat, nat)>)
      reads this, block, InventoriesOf(hoppers)
    {
      && (taken.None? ==> old(NoDiscBefore(hoppers, known, |hoppers|, 0)))
      && (forall h: nat, i: nat :: taken == Some((h, i)) ==>
          old(HoldsDisc(hoppers, known, h, i)) && old(NoDiscBefore(hoppers, known, h, i)))
      && (taken.Some? ==>
          && taken.value.0 < |hoppers| && hoppers[taken.value.0].inventory.Some?
          && taken.value.1 < hoppers[taken.value.0].inventory.value.Length
          && old(hoppers[taken.value.0].inventory.value[taken.value.1]).Some?)
      && (taken.None? ==>
          && playingJukeboxes == old(playingJukeboxes) && block.permutation == old(block.permutation)
          && forall a :: a in InventoriesOf(hoppers) ==> a[..] == old(a[..]))
      && (taken.Some? ==>
          var inv := hoppers[taken.value.0].inventory.value;
          var id := old(inv[taken.value.1]).value;
          var completed := Accepts(old(block.permutation), PlayingState, Flag(true));
          && playingJukeboxes == old(playingJukeboxes) + {block.key}
          && block.permutation == (if completed then AfterSetDisc(old(block.permutation), id) else old(block.permutation))
          && inv[..] == (if completed then old(inv[..])[taken.value.1 := None] else old(inv[..]))
          && forall a :: a in InventoriesOf(hoppers) && a != inv ==> a[..] == old(a[..]))
    }

    /** The intake branch of `tick`, given the connected hoppers: the first slot, scanning
        the hoppers and then their slots, that holds a disc `musicDiscs` knows is played and
        then emptied; no other slot changes. `taken` names the hopper and the slot. When
        `setDisc` throws, the exception leaves the loop before the slot is emptied. */
    method TakeDisc(block: JukeboxBlock, hoppers: seq<Neighbor>, known: set<string>)
      returns (taken: Option<(nat, nat)>)
      modifies this, block, InventoriesOf(hoppers)
      ensures TookDisc(block, hoppers, known, taken)
    {
      taken := FindDisc(hoppers, known);
      if taken.None? {
        return;
      }
      var inv := hoppers[taken.value.0].inventory.value;
      var id := inv[taken.value.1].value;
      var completed := PlayDisc(block, id);
      if !completed {
        return;
      }
      inv[taken.value.1] := None;
    }

    /** The intake branch of `tick` for an empty jukebox: the connected hoppers are looked up
        and, when there are any, a disc is taken from them; no other container changes. */
    method Intake(block: JukeboxBlock, around: map<Direction, Neighbor>, below: Option<Neighbor>, known: set<string>)
      returns (taken: Option<(nat, nat)>)
      modifies this, block, AroundInventories(around)
      ensures TookDisc(block, FeedingHoppers(around), known, taken)
      ensures forall a :: a in AroundInventories(around) + BelowInventory(below) - InventoriesOf(FeedingHoppers(around)) ==>
        a[..] == old(a[..])
    {
      var hoppers := GetConnectedHoppers(around);
      ConnectedInventories(around);
      if |hoppers| == 0 {
        return None;
      }
      taken := TakeDisc(block, hoppers, known);
    }

    /** The part of `tick` for a jukebox not marked as playing: one holding a disc outputs it
        to the hopper below, an empty one takes a disc from the hoppers that feed it. */
    method MoveDisc(block: JukeboxBlock, around: map<Direction, Neighbor>, below: Option<Neighbor>, known: set<string>)
      returns (taken: Option<(nat, nat)>)
      modifies this, block, AroundInventories(around), BelowInventory(below)
      ensures old(PlayingDisc(block.permutation, States)).Some? ==>
        var disc := old(PlayingDisc(block.permutation, States)).value;
        && taken.None? && playingJukeboxes == old(playingJukeboxes)
        && (forall a :: a in AroundInventories(around) - BelowInventory(below) ==> a[..] == old(a[..]))
        && OutputDone(block, disc, below)
      ensures old(PlayingDisc(block.permutation, States)).None? ==>
        && TookDisc(block, FeedingHoppers(around), known, taken)
        && forall a :: a in AroundInventories(around) + BelowInventory(below) - InventoriesOf(FeedingHoppers(around)) ==>
          a[..] == old(a[..])
    {
      taken := None;
      var disc := GetPlayingDisc(block.permutation, States);
      if disc.Some? {
        OutputDisc(block, disc.value, below);
      } else {
        taken := Intake(block, around, below, known);
      }
    }

    /** `tick(block, dimension)`: nothing without a player within 40 blocks; a jukebox marked
        as playing only has its mark checked; otherwise a jukebox holding a disc outputs it to
        the hopper below, and an empty one takes a disc from the hoppers that feed it. */
    method Tick(block: JukeboxBlock, playersNearby: bool, around: map<Direction, Neighbor>,
                below: Option<Neighbor>, known: set<string>)
      returns (taken: Option<(nat, nat)>)
      modifies this, block, AroundInventories(around), BelowInventory(below)
      ensures !playersNearby ==>
        && taken.None? && playingJukeboxes == old(playingJukeboxes) && block.permutation == old(block.permutation)
        && (forall a :: a in AroundInventories(around) ==> a[..] == old(a[..]))
        && (forall a :: a in BelowInventory(below) ==> a[..] == old(a[..]))
      ensures playersNearby && old(Truthy(GetState(block.permutation, PlayingState))) ==>
        && taken.None? && playingJukeboxes == old(playingJukeboxes)
        && (forall a :: a in AroundInventories(around) ==> a[..] == old(a[..]))
        && (forall a :: a in BelowInventory(below) ==> a[..] == old(a[..]))
        && block.permutation == if block.key in playingJukeboxes then old(block.permutation)
          else TrySet(old(block.permutation), PlayingState, Flag(false))
      ensures (playersNearby && !old(Truthy(GetState(block.permutation, PlayingState))) &&
        old(PlayingDisc(block.permutation, States)).Some?) ==>
        var disc := old(PlayingDisc(block.permutation, States)).value;
        && taken.None? && playingJukeboxes == old(playingJukeboxes)
        && (forall a :: a in AroundInventories(around) - BelowInventory(below) ==> a[..] == old(a[..]))
        && OutputDone(block, disc, below)
      ensures (playersNearby && !old(Truthy(GetState(block.permutation, PlayingState))) &&
        old(PlayingDisc(block.permutation, States)).None?) ==>
        && TookDisc(block, FeedingHoppers(around), known, taken)
        && forall a :: a in AroundInventories(around) + BelowInventory(below) - InventoriesOf(FeedingHoppers(around)) ==>
          a[..] == old(a[..])
    {
      taken := None;
      if !playersNearby {
        return;
      }
      if Truthy(GetState(block.permutation, PlayingState)) {
        ResetUnrecorded(block);
        return;
      }
      taken := MoveDisc(block, around, below, known);
    }

    /** `interactWithJukebox(block, player)`, with the player's main-hand item `held` and game
        mode given. An empty jukebox plays a held disc that `musicDiscs` knows, taking it from
        the hand outside creative mode. A jukebox with a disc drops it (`dropped`), is cleared
        and loses its `playingJukeboxes` mark; when the disc id is not an item id,
        `new ItemStack` throws first and nothing changes. */
    method Interact(block: JukeboxBlock, held: Option<string>, creative: bool, known: set<string>)
      returns (handEmptied: bool, dropped: Option<string>)
      modifies this, block
      ensures old(PlayingDisc(block.permutation, States)).None? ==>
        && dropped == None
        && (held.Some? && held.value in known ==>
          && handEmptied == !creative
          && playingJukeboxes == old(playingJukeboxes) + {block.key}
          && block.permutation ==
            if Accepts(old(block.permutation), PlayingState, Flag(true)) then AfterSetDisc(old(block.permutation), held.value)
            else old(block.permutation))
        && (held.None? || held.value !in known ==>
          !handEmptied && playingJukeboxes == old(playingJukeboxes) && block.permutation == old(block.permutation))
      ensures old(PlayingDisc(block.permutation, States)).Some? ==>
        var id := old(PlayingDisc(block.permutation, States)).value.id;
        var cleared := Cleared(old(block.permutation), PlayingState, States);
        && !handEmptied
        && (!IsItemId(id) ==>
          dropped == None && playingJukeboxes == old(playingJukeboxes) && block.permutation == old(block.permutation))
        && (IsItemId(id) ==>
          && dropped == Some(id.value.name)
          && block.permutation == cleared.permutation
          && playingJukeboxes == if cleared.completed then old(playingJukeboxes) - {block.key} else old(playingJukeboxes))
    {
      var disc := GetPlayingDisc(block.permutation, States);
      if disc.None? {
        dropped := None;
        if held.None? || held.value !in known {
          return false, None;
        }
        handEmptied := !creative;
        var _ := PlayDisc(block, held.value);
        return;
      }
      handEmptied := false;
      if !IsItemId(disc.value.id) {
        return false, None;
      }
      dropped := Some(disc.value.id.value.name);
      var completed := ClearDisc(block, PlayingState, States);
      if completed {
        playingJukeboxes := playingJukeboxes - {block.key};
      }
    }
  }
}
