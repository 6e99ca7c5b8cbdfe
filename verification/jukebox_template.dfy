/** `template/BP/scripts/jukebox/jukeboxManager.dist.js`, the manager template: the
    `personal_music_compilation:` namespace, two vanilla disc states followed by the custom disc
    states the template's placeholders stand for, a `setDisc` that offers the id to every state
    without clearing any, and output and eject branches that clear the jukebox even when they
    drop no item. */
module TemplateJukebox {
  import opened Text
  import opened Blocks

  const PlayingState := "personal_music_compilation:playing_disc"
  const VanillaDisc1 := "personal_music_compilation:vanilla_disc_1"
  const VanillaDisc2 := "personal_music_compilation:vanilla_disc_2"

  /** `states`: the two vanilla disc states, then the custom ones (`{{CUSTOM_DISC_STATES_ARRAY}}`). */
  function States(customStates: seq<string>): (states: seq<string>)
    ensures |states| == |customStates| + 2 && states[0] == VanillaDisc1 && states[1] == VanillaDisc2
    ensures forall s :: s in states <==> s == VanillaDisc1 || s == VanillaDisc2 || s in customStates
  {
    [VanillaDisc1, VanillaDisc2] + customStates
  }

  /** The permutation `setDisc(block, id)` leaves when `playing_disc` accepts true: each state
      that allows the id holds it, every other state keeps its value, and `playing_disc` is true
      unless there are no states (the loop then never runs). */
  function AfterSetDisc(p: Permutation, states: seq<string>, id: string): (r: Permutation)
    requires Accepts(p, PlayingState, Flag(true))
    ensures r.allowed == p.allowed
    ensures states == [] ==> r == p
    ensures states != [] && PlayingState !in states ==> GetState(r, PlayingState) == Some(Flag(true))
    ensures forall s :: s != PlayingState ==>
      GetState(r, s) == if s in states && Accepts(p, s, Id(id)) then Some(Id(id)) else GetState(p, s)
    decreases |states|
  {
    if states == [] then p
    else
      var before := AfterSetDisc(p, states[..|states| - 1], id);
      TrySet(WithState(before, PlayingState, Flag(true)).value, states[|states| - 1], Id(id))
  }

  /** `setDisc(block, id)`: for each state, `playing_disc` to true (unguarded), then the id into
      the state inside `try { } catch { }`; nothing is cleared first. */
  method SetDisc(block: JukeboxBlock, states: seq<string>, id: string) returns (completed: bool)
    modifies block
    ensures completed == (states == [] || Accepts(old(block.permutation), PlayingState, Flag(true)))
    ensures block.permutation ==
      if Accepts(old(block.permutation), PlayingState, Flag(true)) then AfterSetDisc(old(block.permutation), states, id)
      else old(block.permutation)
  {
    ghost var start := block.permutation;
    completed := true;
    for i := 0 to |states|
      invariant block.permutation.allowed == start.allowed
      invariant Accepts(start, PlayingState, Flag(true)) ==> block.permutation == AfterSetDisc(start, states[..i], id)
      invariant !Accepts(start, PlayingState, Flag(true)) ==> i == 0 && block.permutation == start
    {
      completed := block.SetState(PlayingState, Flag(true));
      if !completed {
        return;
      }
      var _ := block.SetState(states[i], Id(id));
      AfterSetDiscSnoc(start, states, i, id);
    }
    assert states[..|states|] == states;
  }

  /** One more pass of the loop of `setDisc` extends the effect to the next state. */
  lemma AfterSetDiscSnoc(p: Permutation, states: seq<string>, i: nat, id: string)
    requires Accepts(p, PlayingState, Flag(true)) && i < |states|
    ensures AfterSetDisc(p, states[..i + 1], id) ==
      TrySet(TrySet(AfterSetDisc(p, states[..i], id), PlayingState, Flag(true)), states[i], Id(id))
  {
    assert states[..i + 1][..i] == states[..i];
  }

  /** On a jukebox whose disc states all hold "none", `getPlayingDisc` after `setDisc(id)`
      reports `id` as soon as one state allows it, and no disc when none does. */
  lemma SetDiscPlays(p: Permutation, states: seq<string>, id: string)
    requires Accepts(p, PlayingState, Flag(true))
    requires PlayingState !in states && id != NoDisc.name
    requires forall s :: s in states ==> GetState(p, s) == Some(NoDisc)
    ensures PlayingDisc(AfterSetDisc(p, states, id), states) ==
      if exists s :: s in states && Accepts(p, s, Id(id)) then Some(DiscInfo(Some(Id(id)))) else None
  {
    var r := AfterSetDisc(p, states, id);
    var d := PlayingDisc(r, states);
    if d.Some? {
      var s :| s in states && GetState(r, s) == d.value.id;
      assert Accepts(p, s, Id(id));
    }
  }

  /** The module-level `playingJukeboxes` object and the placeholder's custom states, with the
      manager's operations that use them. */
  class JukeboxManager {
    /** The custom disc states the template is filled with. */
    const customStates: seq<string>
    /** The keys of `playingJukeboxes` (every value stored there is `true`). */
    var playingJukeboxes: set<string>

    constructor (customStates: seq<string>)
      ensures this.customStates == customStates && playingJukeboxes == {}
    {
      this.customStates := customStates;
      playingJukeboxes := {};
    }

    /** `playDisc` without its sound, title and timers: the jukebox is recorded as playing, then
        `setDisc` runs (`completed` is false when it threw). */
    method PlayDisc(block: JukeboxBlock, id: string) returns (completed: bool)
      modifies this, block
      ensures playingJukeboxes == old(playingJukeboxes) + {block.key}
      ensures completed == Accepts(old(block.permutation), PlayingState, Flag(true))
      ensures block.permutation ==
        if completed then AfterSetDisc(old(block.permutation), States(customStates), id) else old(block.permutation)
    {
      playingJukeboxes := playingJukeboxes + {block.key};
      completed := SetDisc(block, States(customStates), id);
    }

    /** What the output of the held disc `disc` did, between the state before it and the
        state after it: when the block below can take a disc, the disc is in its first empty
        slot if its id is an item id, and the jukebox is cleared either way; otherwise neither
        changes. */
    twostate predicate OutputDone(block: JukeboxBlock, disc: DiscInfo, below: Option<Neighbor>)
      reads this, block, BelowInventory(below)
    {
      && (!old(CanOutput(below)) ==>
        block.permutation == old(block.permutation) && forall a :: a in BelowInventory(below) ==> a[..] == old(a[..]))
      && (old(CanOutput(below)) ==>
        var inv := below.value.inventory.value;
        && inv[..] == (if IsItemId(disc.id) then old(inv[..])[FirstEmpty(old(inv[..])).value := Some(disc.id.value.name)]
          else old(inv[..]))
        && block.permutation == Cleared(old(block.permutation), PlayingState, States(customStates)).permutation)
    }

    /** The output branch of `tick` for the disc `disc`: when the block below is a hopper with
        an empty slot, the disc goes to its first empty slot only if its id is a non-empty
        string, and `clearDisc` runs in either case. */
    method OutputDisc(block: JukeboxBlock, disc: DiscInfo, below: Option<Neighbor>)
      modifies block, BelowInventory(below)
      ensures OutputDone(block, disc, below)
    {
      var hopper := OutputHopper(below);
      if hopper.None? || hopper.value.inventory.None? {
        return;
      }
      var inv := hopper.value.inventory.value;
      if EmptySlots(inv[..]) <= 0 {
        return;
      }
      if IsItemId(disc.id) {
        var _ := AddItem(inv, disc.id.value.name);
      }
      var _ := ClearDisc(block, PlayingState, States(customStates));
    }

    /** What the intake did, between the state before it and the state after it: `taken`
        names the first slot, scanning the hoppers and then their slots, that held a known
        disc, or is None when no slot did. The jukebox is marked as playing and gets the disc
        only when it takes one. The slot is emptied only when `setDisc` completed. No other
        slot of the hoppers changes. */
    twostate predicate TookDisc(block: JukeboxBlock, hoppers: seq<Neighbor>, known: set<string>,
                                new taken: Option<(nat, nat)>)
      reads this, block, InventoriesOf(hoppers)
    {
      && (taken.None? ==> old(NoDiscBefore(hoppers, known, |hoppers|, 0)))
      && (forall h: nat, i: nat :: taken == Some((h, i)) ==>
          old(HoldsDisc(hoppers, known, h, i)) && old(NoDiscBefore(hoppers, known, h, i)))
      && (taken.Some? ==>
          && taken.value.0 < |hoppers| && hoppers[taken.value.0].inventory.Some?
          && taken.value.1 < hoppers[taken.value.0].inventory.value.Length
          && old(hoppers[taken.value.0].inventory.value[taken.value.1]).Some?)
      && (taken.None? ==>
          && playingJukeboxes == old(playingJukeboxes) && block.permutation == old(block.permutation)
          && forall a :: a in InventoriesOf(hoppers) ==> a[..] == old(a[..]))
      && (taken.Some? ==>
          var inv := hoppers[taken.value.0].inventory.value;
          var id := old(inv[taken.value.1]).value;
          var completed := Accepts(old(block.permutation), PlayingState, Flag(true));
          && playingJukeboxes == old(playingJukeboxes) + {block.key}
          && block.permutation ==
            (if completed then AfterSetDisc(old(block.permutation), States(customStates), id) else old(block.permutation))
          && inv[..] == (if completed then old(inv[..])[taken.value.1 := None] else old(inv[..]))
          && forall a :: a in InventoriesOf(hoppers) && a != inv ==> a[..] == old(a[..]))
    }

    /** The intake branch of `tick`, given the connected hoppers: the first slot, scanning the
        hoppers and then their slots, that holds a disc `musicDiscs` knows is played and then
        emptied; no other slot changes. When `setDisc` throws, the exception leaves the loop
        before the slot is emptied. */
    method TakeDisc(block: JukeboxBlock, hoppers: seq<Neighbor>, known: set<string>)
      returns (taken: Option<(nat, nat)>)
      modifies this, block, InventoriesOf(hoppers)
      ensures TookDisc(block, hoppers, known, taken)
    {
      taken := FindDisc(hoppers, known);
      if taken.None? {
        return;
      }
      var inv := hoppers[taken.value.0].inventory.value;
      var id := inv[taken.value.1].value;
      var completed := PlayDisc(block, id);
      if !completed {
        return;
      }
      inv[taken.value.1] := None;
    }

    /** The intake branch of `tick` for an empty jukebox: the connected hoppers are looked up
        and, when there are any, a disc is taken from them; no other container changes. */
    method Intake(block: JukeboxBlock, around: map<Direction, Neighbor>, below: Option<Neighbor>, known: set<string>)
      returns (taken: Option<(nat, nat)>)
      modifies this, block, AroundInventories(around)
      ensures TookDisc(block, FeedingHoppers(around), known, taken)
      ensures forall a :: a in AroundInventories(around) + BelowInventory(below) - InventoriesOf(FeedingHoppers(around)) ==>
        a[..] == old(a[..])
    {
      var hoppers := GetConnectedHoppers(around);
      ConnectedInventories(around);
      if |hoppers| == 0 {
        return None;
      }
      taken := TakeDisc(block, hoppers, known);
    }

    /** The part of `tick` for a jukebox not marked as playing: one holding a disc outputs it
        to the hopper below, an empty one takes a disc from the hoppers that feed it. */
    method MoveDisc(block: JukeboxBlock, around: map<Direction, Neighbor>, below: Option<Neighbor>, known: set<string>)
      returns (taken: Option<(nat, nat)>)
      modifies this, block, AroundInventories(around), BelowInventory(below)
      ensures old(PlayingDisc(block.permutation, States(customStates))).Some? ==>
        var disc := old(PlayingDisc(block.permutation, States(customStates))).value;
        && taken.None? && playingJukeboxes == old(playingJukeboxes)
        && (forall a :: a in AroundInventories(around) - BelowInventory(below) ==> a[..] == old(a[..]))
        && OutputDone(block, disc, below)
      ensures old(PlayingDisc(block.permutation, States(customStates))).None? ==>
        && TookDisc(block, FeedingHoppers(around), known, taken)
        && forall a :: a in AroundInventories(around) + BelowInventory(below) - InventoriesOf(FeedingHoppers(around)) ==>
          a[..] == old(a[..])
    {
      taken := None;
      var disc := GetPlayingDisc(block.permutation, States(customStates));
      if disc.Some? {
        OutputDisc(block, disc.value, below);
      } else {
        taken := Intake(block, around, below, known);
      }
    }

    /** `tick(block, dimension)`: as in the live manager, nothing without a player within 40
        blocks, a mark check for a jukebox marked as playing, and otherwise output or intake. */
    method Tick(block: JukeboxBlock, playersNearby: bool, around: map<Direction, Neighbor>,
                below: Option<Neighbor>, known: set<string>)
      returns (taken: Option<(nat, nat)>)
      modifies this, block, AroundInventories(around), BelowInventory(below)
      ensures !playersNearby ==>
        && taken.None? && playingJukeboxes == old(playingJukeboxes) && block.permutation == old(block.permutation)
        && (forall a :: a in AroundInventories(around) ==> a[..] == old(a[..]))
        && (forall a :: a in BelowInventory(below) ==> a[..] == old(a[..]))
      ensures playersNearby && old(Truthy(GetState(block.permutation, PlayingState))) ==>
        && taken.None? && playingJukeboxes == old(playingJukeboxes)
        && (forall a :: a in AroundInventories(around) ==> a[..] == old(a[..]))
        && (forall a :: a in BelowInventory(below) ==> a[..] == old(a[..]))
        && block.permutation == if block.key in playingJukeboxes then old(block.permutation)
          else TrySet(old(block.permutation), PlayingState, Flag(false))
      ensures (playersNearby && !old(Truthy(GetState(block.permutation, PlayingState))) &&
        old(PlayingDisc(block.permutation, States(customStates))).Some?) ==>
        var disc := old(PlayingDisc(block.permutation, States(customStates))).value;
        && taken.None? && playingJukeboxes == old(playingJukeboxes)
        && (forall a :: a in AroundInventories(around) - BelowInventory(below) ==> a[..] == old(a[..]))
        && OutputDone(block, disc, below)
      ensures (playersNearby && !old(Truthy(GetState(block.permutation, PlayingState))) &&
        old(PlayingDisc(block.permutation, States(customStates))).None?) ==>
        && TookDisc(block, FeedingHoppers(around), known, taken)
        && forall a :: a in AroundInventories(around) + BelowInventory(below) - InventoriesOf(FeedingHoppers(around)) ==>
          a[..] == old(a[..])
    {
      taken := None;
      if !playersNearby {
        return;
      }
      if Truthy(GetState(block.permutation, PlayingState)) {
        if block.key !in playingJukeboxes {
          var _ := block.SetState(PlayingState, Flag(false));
        }
        return;
      }
      taken := MoveDisc(block, around, below, known);
    }

    /** The eject branch of `interactWithJukebox`, for a jukebox holding `disc`: an item is
        dropped only for a non-empty string id, `clearDisc` runs regardless, and the
        `playingJukeboxes` mark is deleted once `clearDisc` has run to the end. */
    method Eject(block: JukeboxBlock, disc: DiscInfo) returns (dropped: Option<string>)
      modifies this, block
      ensures dropped == if IsItemId(disc.id) then Some(disc.id.value.name) else None
      ensures block.permutation == Cleared(old(block.permutation), PlayingState, States(customStates)).permutation
      ensures playingJukeboxes ==
        if Cleared(old(block.permutation), PlayingState, States(customStates)).completed
        then old(playingJukeboxes) - {block.key} else old(playingJukeboxes)
    {
      dropped := if IsItemId(disc.id) then Some(disc.id.value.name) else None;
      var completed := ClearDisc(block, PlayingState, States(customStates));
      if completed {
        playingJukeboxes := playingJukeboxes - {block.key};
      }
    }

    /** `interactWithJukebox(block, player)`, with the player's main-hand item `held` and game
        mode given: an empty jukebox plays a held disc that `musicDiscs` knows (taking it from
        the hand outside creative mode); a jukebox with a disc ejects it. */
    method Interact(block: JukeboxBlock, held: Option<string>, creative: bool, known: set<string>)
      returns (handEmptied: bool, dropped: Option<string>)
      modifies this, block
      ensures old(PlayingDisc(block.permutation, States(customStates))).None? ==>
        && dropped == None
        && (held.Some? && held.value in known ==>
          && handEmptied == !creative
          && playingJukeboxes == old(playingJukeboxes) + {block.key}
          && block.permutation ==
            if Accepts(old(block.permutation), PlayingState, Flag(true))
            then AfterSetDisc(old(block.permutation), States(customStates), held.value)
            else old(block.permutation))
        && (held.None? || held.value !in known ==>
          !handEmptied && playingJukeboxes == old(playingJukeboxes) && block.permutation == old(block.permutation))
      ensures old(PlayingDisc(block.permutation, States(customStates))).Some? ==>
        var id := old(PlayingDisc(block.permutation, States(customStates))).value.id;
        var cleared := Cleared(old(block.permutation), PlayingState, States(customStates));
        && !handEmptied
        && dropped == (if IsItemId(id) then Some(id.value.name) else None)
        && block.permutation == cleared.permutation
        && playingJukeboxes == if cleared.completed then old(playingJukeboxes) - {block.key} else old(playingJukeboxes)
    {
      var disc := GetPlayingDisc(block.permutation, States(customStates));
      if disc.None? {
        dropped := None;
        if held.None? || held.value !in known {
          return false, None;
        }
        handEmptied := !creative;
        var _ := PlayDisc(block, held.value);
        return;
      }
      handEmptied := false;
      dropped := Eject(block, disc.value);
    }
  }
}
