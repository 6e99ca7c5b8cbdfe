/** The configuration documents the generator writes: the item descriptor of a disc and the
    three reconcilers for `jukebox.json`, `sound_definitions.json` and `item_texture.json`. */
module Documents {
  import opened Text

  /** The namespace of the generated item and texture keys. */
  const Namespace: string := "mymusic"

  /** `mymusic:music_disc_<name>`: the item identifier, icon and texture key of a disc. */
  function ItemId(discName: string): string {
    Namespace + ":music_disc_" + discName
  }

  lemma ItemIdInjective(a: string, b: string)
    requires ItemId(a) == ItemId(b)
    ensures a == b
  {
    var p := Namespace + ":music_disc_";
    assert ItemId(a) == p + a && ItemId(b) == p + b;
    assert a == ItemId(a)[|p|..] && b == ItemId(b)[|p|..];
  }

  // ---------------------------------------------------------------------------------------
  // Item descriptor (`_create_item_json`)
  // ---------------------------------------------------------------------------------------

  datatype ItemDescriptor = ItemDescriptor(
    formatVersion: string,
    identifier: string,
    category: string,
    group: string,
    icon: string,
    displayName: string,
    maxStackSize: nat)

  const DisplayPrefix: string := "\U{00A7}bMusic Disc\n\U{00A7}7"

  function CreateItemJson(discName: string, displayName: string): (item: ItemDescriptor)
    ensures item.identifier == item.icon
    ensures item.formatVersion == "1.21.40" && item.maxStackSize == 1
    ensures item.category == "items" && item.group == "itemGroup.name.record"
  {
    ItemDescriptor("1.21.40", ItemId(discName), "items", "itemGroup.name.record", ItemId(discName),
      DisplayPrefix + displayName, 1)
  }

  /** The disc name and the display name can both be read back from the descriptor. */
  lemma ItemJsonRoundTrip(discName: string, displayName: string)
    ensures var item := CreateItemJson(discName, displayName);
      && StartsWith(item.identifier, Namespace + ":music_disc_")
      && item.identifier[|Namespace + ":music_disc_"|..] == discName
      && StartsWith(item.displayName, DisplayPrefix)
      && item.displayName[|DisplayPrefix|..] == displayName
  {
    var p := Namespace + ":music_disc_";
    assert ItemId(discName) == p + discName;
    assert (p + discName)[..|p|] == p && (p + discName)[|p|..] == discName;
    assert (DisplayPrefix + displayName)[..|DisplayPrefix|] == DisplayPrefix;
    assert (DisplayPrefix + displayName)[|DisplayPrefix|..] == displayName;
  }

  /** Different discs get different items. */
  lemma ItemJsonDistinct(a: string, b: string, displayA: string, displayB: string)
    requires a != b
    ensures CreateItemJson(a, displayA).identifier != CreateItemJson(b, displayB).identifier
  {
    if ItemId(a) == ItemId(b) {
      ItemIdInjective(a, b);
    }
  }

  // ---------------------------------------------------------------------------------------
  // A configuration file as the generator sees it
  // ---------------------------------------------------------------------------------------

  /** A file that is missing, that cannot be read as the expected JSON shape, or that holds `T`. */
  datatype Document<T> = Missing | Unreadable | Present(content: T)

  // ---------------------------------------------------------------------------------------
  // jukebox.json (`_update_jukebox_json`)
  // ---------------------------------------------------------------------------------------

  const CustomDiscState: string := "my_music_disc:custom_disc_1"
  const OwnDiscPrefix: string := "my_music_disc:music_disc_"
  const OtherAddonPrefix: string := "moremusicdiscs:music_disc_"

  /** The block states: each state name with its list of allowed values. */
  type BlockStates = map<string, seq<string>>

  /** Entries the reconciler drops before adding the current discs. */
  predicate IsOldDiscValue(v: string) {
    StartsWith(v, OwnDiscPrefix) || StartsWith(v, OtherAddonPrefix)
  }

  /** The list comprehension that drops the old disc values, keeping the order of the rest. */
  function KeptValues(values: seq<string>): (r: seq<string>)
    ensures forall v :: v in r <==> v in values && !IsOldDiscValue(v)
    ensures |r| <= |values|
  {
    if values == [] then []
    else (if IsOldDiscValue(values[0]) then [] else [values[0]]) + KeptValues(values[1..])
  }

  /** The kept values, after a leading `"none"` when they hold none. */
  function BaseValues(values: seq<string>): (base: seq<string>)
    ensures "none" in base
    ensures forall v :: v in base <==> v == "none" || (v in values && !IsOldDiscValue(v))
    ensures |base| <= |KeptValues(values)| + 1
  {
    var kept := KeptValues(values);
    if "none" in kept then kept else ["none"] + kept
  }

  /** The item ids of the discs, in order. */
  function ItemIds(discNames: seq<string>): (ids: seq<string>)
    ensures |ids| == |discNames|
    ensures forall i :: 0 <= i < |discNames| ==> ids[i] == ItemId(discNames[i])
  {
    seq(|discNames|, i requires 0 <= i < |discNames| => ItemId(discNames[i]))
  }

  lemma ItemIdsHold(discNames: seq<string>)
    ensures forall v :: v in ItemIds(discNames) <==> exists n :: n in discNames && v == ItemId(n)
  {
    var ids := ItemIds(discNames);
    forall v | v in ids ensures exists n :: n in discNames && v == ItemId(n) {
      var k :| 0 <= k < |ids| && ids[k] == v;
      assert discNames[k] in discNames;
    }
    forall n | n in discNames ensures ItemId(n) in ids {
      var k :| 0 <= k < |discNames| && discNames[k] == n;
      assert ids[k] == ItemId(n);
    }
  }

  /** `r` is `base` followed by values of `ids`, each one not present before it. */
  predicate AppendsNewIds(base: seq<string>, r: seq<string>, ids: seq<string>) {
    && |base| <= |r|
    && (forall k :: 0 <= k < |base| ==> r[k] == base[k])
    && (forall k :: |base| <= k < |r| ==> r[k] in ids)
    && (forall j, k :: 0 <= j < k < |r| && |base| <= k ==> r[j] != r[k])
  }

  /** `r` followed by each of `ids` that is not yet present when its turn comes, in the order
      of `ids`. */
  function AppendMissing(r: seq<string>, ids: seq<string>): seq<string>
    decreases |ids|
  {
    if ids == [] then r
    else AppendMissing(if ids[0] in r then r else r + [ids[0]], ids[1..])
  }

  /** The new `custom_disc_1` list: the base values, then the id of every current disc not
      yet present, in the order of `discNames`. */
  function CustomDiscValues(values: seq<string>, discNames: seq<string>): seq<string> {
    AppendMissing(BaseValues(values), ItemIds(discNames))
  }

  /** Appending the missing ids keeps the base, adds only ids, never repeats an added one, and
      leaves every id present. */
  lemma {:induction false} AppendMissingExtends(base: seq<string>, r: seq<string>, ids: seq<string>, all: seq<string>)
    requires AppendsNewIds(base, r, all)
    requires forall v :: v in ids ==> v in all
    ensures AppendsNewIds(base, AppendMissing(r, ids), all)
    ensures forall v :: v in ids || v in r ==> v in AppendMissing(r, ids)
    decreases |ids|
  {
    if ids != [] {
      var next := if ids[0] in r then r else r + [ids[0]];
      assert AppendsNewIds(base, next, all);
      AppendMissingExtends(base, next, ids[1..], all);
      forall v | v in ids ensures v == ids[0] || v in ids[1..] {
        var k :| 0 <= k < |ids| && ids[k] == v;
        if k > 0 {
          assert ids[1..][k - 1] == v;
        }
      }
    }
  }

  /** What the new `custom_disc_1` list holds: the base values first, then only disc ids, none
      of them twice, every current disc id present, and a repeat only inside the base part. */
  lemma CustomDiscValuesShape(values: seq<string>, discNames: seq<string>)
    ensures var r := CustomDiscValues(values, discNames);
      && AppendsNewIds(BaseValues(values), r, ItemIds(discNames))
      && (forall n :: n in discNames ==> ItemId(n) in r)
      && "none" in r
      && (forall v :: v in values && !IsOldDiscValue(v) ==> v in r)
      && (forall v :: v in r ==> v == "none" || (v in values && !IsOldDiscValue(v)) || exists n :: n in discNames && v == ItemId(n))
      && (forall i, j :: 0 <= i < j < |r| && r[i] == r[j] ==> j < |KeptValues(values)| + 1)
  {
    var base := BaseValues(values);
    var ids := ItemIds(discNames);
    var r := CustomDiscValues(values, discNames);
    assert AppendsNewIds(base, base, ids);
    AppendMissingExtends(base, base, ids, ids);
    AppendedValues(values, discNames, r);
  }

  /** The new `custom_disc_1` list, built as `_update_jukebox_json` builds it. */
  method UpdateCustomDiscValues(values: seq<string>, discNames: seq<string>) returns (r: seq<string>)
    ensures r == CustomDiscValues(values, discNames)
    ensures AppendsNewIds(BaseValues(values), r, ItemIds(discNames))
    ensures forall n :: n in discNames ==> ItemId(n) in r
    ensures "none" in r
    ensures forall v :: v in values && !IsOldDiscValue(v) ==> v in r
    ensures forall v :: v in r ==> v == "none" || (v in values && !IsOldDiscValue(v)) || exists n :: n in discNames && v == ItemId(n)
    ensures forall i, j :: 0 <= i < j < |r| && r[i] == r[j] ==> j < |KeptValues(values)| + 1
  {
    ghost var ids := ItemIds(discNames);
    r := KeptValues(values);
    if "none" !in r {
      r := ["none"] + r;
    }
    for i := 0 to |discNames|
      invariant AppendMissing(r, ids[i..]) == CustomDiscValues(values, discNames)
    {
      assert ids[i..][0] == ids[i] && ids[i..][1..] == ids[i + 1..];
      var id := ItemId(discNames[i]);
      if id !in r {
        r := r + [id];
      }
    }
    CustomDiscValuesShape(values, discNames);
  }

  /** What an extended list holds, and that only the base part can repeat a value. */
  lemma AppendedValues(values: seq<string>, discNames: seq<string>, r: seq<string>)
    requires AppendsNewIds(BaseValues(values), r, ItemIds(discNames))
    requires forall v :: v in ItemIds(discNames) ==> v in r
    ensures forall n :: n in discNames ==> ItemId(n) in r
    ensures "none" in r
    ensures forall v :: v in values && !IsOldDiscValue(v) ==> v in r
    ensures forall v :: v in r ==> v == "none" || (v in values && !IsOldDiscValue(v)) || exists n :: n in discNames && v == ItemId(n)
    ensures forall i, j :: 0 <= i < j < |r| && r[i] == r[j] ==> j < |KeptValues(values)| + 1
  {
    var base := BaseValues(values);
    var ids := ItemIds(discNames);
    ItemIdsHold(discNames);
    forall v | v in base ensures v in r {
      var k :| 0 <= k < |base| && base[k] == v;
      assert r[k] == v;
    }
    forall v | v in r ensures v == "none" || (v in values && !IsOldDiscValue(v)) || v in ids {
      var k :| 0 <= k < |r| && r[k] == v;
      if k < |base| {
        assert v in base;
      }
    }
  }

  /** The `custom_disc_1` list a block-states object holds (none: an empty one). */
  function CustomValuesOf(states: BlockStates): seq<string> {
    if CustomDiscState in states then states[CustomDiscState] else []
  }

  /** The jukebox document after `_update_jukebox_json`, and whether it succeeded: a missing or
      unreadable file is left alone and reported as a failure; otherwise only `custom_disc_1`
      changes, to the new list. */
  method UpdateJukeboxJson(doc: Document<BlockStates>, discNames: seq<string>) returns (r: Document<BlockStates>, ok: bool)
    ensures ok <==> doc.Present?
    ensures !ok ==> r == doc
    ensures ok ==> r == Present(doc.content[CustomDiscState := CustomDiscValues(CustomValuesOf(doc.content), discNames)])
    ensures ok ==> r.content.Keys == doc.content.Keys + {CustomDiscState}
    ensures ok ==> forall s :: s in doc.content && s != CustomDiscState ==> r.content[s] == doc.content[s]
    ensures ok ==> var values := CustomValuesOf(doc.content); var list := r.content[CustomDiscState];
      && AppendsNewIds(BaseValues(values), list, ItemIds(discNames))
      && (forall n :: n in discNames ==> ItemId(n) in list)
      && "none" in list
      && (forall v :: v in values && !IsOldDiscValue(v) ==> v in list)
      && (forall v :: v in list ==> v == "none" || (v in values && !IsOldDiscValue(v)) || exists n :: n in discNames && v == ItemId(n))
      && (forall i, j :: 0 <= i < j < |list| && list[i] == list[j] ==> j < |KeptValues(values)| + 1)
  {
    if !doc.Present? {
      return doc, false;
    }
    var states := doc.content;
    var values := if CustomDiscState in states then states[CustomDiscState] else [];
    var updated := UpdateCustomDiscValues(values, discNames);
    r := Present(states[CustomDiscState := updated]);
    ok := true;
  }

  // ---------------------------------------------------------------------------------------
  // sound_definitions.json (`_update_sound_definitions`, `_cleanup_sound_definitions`)
  // ---------------------------------------------------------------------------------------

  /** One sound file of a definition; the volume is in hundredths. */
  datatype SoundFile = SoundFile(name: string, stream: bool, loadOnLowMemory: bool, volumePercent: nat)

  /** One sound definition; `maxDistance` is in blocks and `minDistance` is `null` when `None`. */
  datatype SoundDefinition = SoundDefinition(
    category: string,
    useLegacyMaxDistance: bool,
    maxDistance: nat,
    minDistance: Option<nat>,
    sounds: seq<SoundFile>)

  type SoundDefinitions = map<string, SoundDefinition>

  const RecordPrefix: string := "record."

  function SoundKey(discName: string): string {
    RecordPrefix + discName
  }

  /** The definition the generator writes for a disc. */
  function RecordDefinition(discName: string): (d: SoundDefinition)
    ensures d.category == "record" && |d.sounds| == 1
    ensures d.sounds[0].name == "sounds/music/game/records/" + discName
  {
    SoundDefinition("record", true, 64, None,
      [SoundFile("sounds/music/game/records/" + discName, true, true, 50)])
  }

  /** The disc name the cleanup derives from a key: `key.replace("record.", "")`. */
  function RecordName(key: string): string {
    ReplaceAll(key, RecordPrefix, "")
  }

  /** A `record.` key whose derived name is not a current disc. */
  predicate IsStaleRecord(key: string, discNames: seq<string>) {
    StartsWith(key, RecordPrefix) && RecordName(key) !in discNames
  }

  function WithoutStaleRecords(defs: SoundDefinitions, discNames: seq<string>): SoundDefinitions {
    map k | k in defs && !IsStaleRecord(k, discNames) :: defs[k]
  }

  function StaleRecords(defs: SoundDefinitions, discNames: seq<string>): set<string> {
    set k | k in defs && IsStaleRecord(k, discNames)
  }

  /** The first loop of both sound reconcilers: the keys to remove. */
  method CollectStaleRecords(defs: SoundDefinitions, discNames: seq<string>) returns (toRemove: set<string>)
    ensures toRemove == StaleRecords(defs, discNames)
  {
    toRemove := {};
    var pending := defs.Keys;
    while pending != {}
      invariant pending <= defs.Keys
      invariant toRemove == set k | k in defs.Keys - pending && IsStaleRecord(k, discNames)
      decreases |pending|
    {
      var key :| key in pending;
      if StartsWith(key, RecordPrefix) {
        var name := ReplaceAll(key, RecordPrefix, "");
        if name !in discNames {
          toRemove := toRemove + {key};
        }
      }
      pending := pending - {key};
    }
  }

  /** The second loop: delete the collected keys one by one, counting them. */
  method DeleteKeys<V>(m: map<string, V>, keys: set<string>) returns (kept: map<string, V>, removed: nat)
    requires keys <= m.Keys
    ensures kept == m - keys
    ensures kept.Keys == m.Keys - keys && forall k :: k in kept ==> kept[k] == m[k]
    ensures removed == |keys|
  {
    kept := m;
    removed := 0;
    var rest := keys;
    while rest != {}
      invariant rest <= keys
      invariant kept == m - (keys - rest)
      invariant removed + |rest| == |keys|
      decreases |rest|
    {
      var key :| key in rest;
      assert keys - (rest - {key}) == (keys - rest) + {key};
      kept := kept - {key};
      removed := removed + 1;
      rest := rest - {key};
    }
    assert keys - rest == keys;
  }

  /** Both loops: what is left, and how many entries went. */
  method RemoveStaleRecords(defs: SoundDefinitions, discNames: seq<string>) returns (kept: SoundDefinitions, removed: nat)
    ensures kept == WithoutStaleRecords(defs, discNames)
    ensures removed == |StaleRecords(defs, discNames)|
    ensures removed == 0 <==> kept == defs
  {
    var toRemove := CollectStaleRecords(defs, discNames);
    kept, removed := DeleteKeys(defs, toRemove);
    if removed != 0 {
      var key :| key in toRemove;
      assert key !in kept;
    }
  }

  /** The `sound_definitions` object `r` after the update of `defs`: every current disc has
      a key; each key is a non-stale old one with its old definition, or the key of a current
      disc holding that disc's generated definition; every non-stale old entry is kept as it
      was; and a stale old key is left only as some current disc's key. */
  predicate SoundDefinitionsUpdated(defs: SoundDefinitions, discNames: seq<string>, r: SoundDefinitions) {
    && (forall n :: n in discNames ==> SoundKey(n) in r)
    && (forall k :: k in r ==>
      (k in defs && !IsStaleRecord(k, discNames) && r[k] == defs[k]) ||
      (exists n :: n in discNames && k == SoundKey(n) && r[k] == RecordDefinition(n)))
    && (forall k :: k in defs && !IsStaleRecord(k, discNames) ==> k in r && r[k] == defs[k])
    && (forall k :: k in defs && IsStaleRecord(k, discNames) ==> k in r ==> exists n :: n in discNames && k == SoundKey(n))
  }

  /** `_update_sound_definitions` on the `sound_definitions` object: stale `record.` entries go,
      then every current disc without an entry gets one. */
  method UpdateSoundDefinitionMap(defs: SoundDefinitions, discNames: seq<string>) returns (r: SoundDefinitions)
    ensures SoundDefinitionsUpdated(defs, discNames, r)
  {
    var removed;
    r, removed := RemoveStaleRecords(defs, discNames);
    for i := 0 to |discNames|
      invariant forall j :: 0 <= j < i ==> SoundKey(discNames[j]) in r
      invariant forall k :: k in r ==>
        (k in defs && !IsStaleRecord(k, discNames) && r[k] == defs[k]) ||
        (exists n :: n in discNames && k == SoundKey(n) && r[k] == RecordDefinition(n))
      invariant forall k :: k in defs && !IsStaleRecord(k, discNames) ==> k in r && r[k] == defs[k]
    {
      var key := SoundKey(discNames[i]);
      if key !in r {
        r := r[key := RecordDefinition(discNames[i])];
      }
    }
    forall n | n in discNames ensures SoundKey(n) in r {
      var j :| 0 <= j < |discNames| && discNames[j] == n;
    }
  }

  /** Disc names never hold a `.`, so the cleanup derives exactly `n` from `record.n`. */
  lemma RecordNameOfSoundKey(n: string)
    requires '.' !in n
    ensures RecordName(SoundKey(n)) == n
  {
    var p := RecordPrefix;
    assert SoundKey(n) == p + n;
    assert (p + n)[..|p|] == p && (p + n)[|p|..] == n;
    assert !Contains(n, p) by {
      if Contains(n, p) {
        ContainsChar(n, p, 6);
      }
    }
    ReplaceAllAbsent(n, p, "");
  }

  /** A text holding `p` holds every character of `p`. */
  lemma {:induction false} ContainsChar(s: string, p: string, k: nat)
    requires k < |p| && Contains(s, p)
    ensures p[k] in s
    decreases |s|
  {
    if StartsWith(s, p) {
      assert s[k] == p[k];
    } else {
      ContainsChar(s[1..], p, k);
    }
  }

  /** With dot-free disc names, the `record.` keys after the update are exactly the current
      discs' keys plus the older keys whose derived name is a current disc. */
  lemma RecordKeysAfterUpdate(defs: SoundDefinitions, discNames: seq<string>, r: SoundDefinitions, k: string)
    requires forall n :: n in discNames ==> '.' !in n
    requires SoundDefinitionsUpdated(defs, discNames, r)
    requires StartsWith(k, RecordPrefix)
    ensures k in r <==> (exists n :: n in discNames && k == SoundKey(n)) || (k in defs && RecordName(k) in discNames)
  {
    if exists n :: n in discNames && k == SoundKey(n) {
      var n :| n in discNames && k == SoundKey(n);
      assert k in r;
    }
  }

  /** The quirk of deriving names with `replace`: `record.record.a` survives when `a` is a current
      disc, because removing every `record.` from it leaves `a`. */
  lemma DoubledRecordKeySurvives(defs: SoundDefinitions, key: string)
    requires key == "record.record.a" && key in defs
    ensures !IsStaleRecord(key, ["a"])
    ensures key in WithoutStaleRecords(defs, ["a"])
  {
    var p := RecordPrefix;
    var a := "a";
    assert key == p + (p + a);
    assert (p + (p + a))[..|p|] == p && (p + (p + a))[|p|..] == p + a;
    assert (p + a)[..|p|] == p && (p + a)[|p|..] == a;
    assert ReplaceAll(a, p, "") == a;
    assert ReplaceAll(p + a, p, "") == a;
    assert RecordName(key) == a;
  }

  /** `_update_sound_definitions`: a missing or unreadable file fails and is left alone;
      otherwise the object is updated as described above. */
  method UpdateSoundDefinitions(doc: Document<SoundDefinitions>, discNames: seq<string>) returns (r: Document<SoundDefinitions>, ok: bool)
    ensures ok <==> doc.Present?
    ensures !ok ==> r == doc
    ensures ok ==> r.Present? && SoundDefinitionsUpdated(doc.content, discNames, r.content)
  {
    if !doc.Present? {
      return doc, false;
    }
    var defs := UpdateSoundDefinitionMap(doc.content, discNames);
    r, ok := Present(defs), true;
  }

  /** `_cleanup_sound_definitions`: removes the stale `record.` entries and writes the file back
      only when it removed one. A document without the object counts as an empty one. */
  method CleanupSoundDefinitions(doc: Document<SoundDefinitions>, discNames: seq<string>) returns (r: Document<SoundDefinitions>, written: bool)
    ensures written <==> doc.Present? && StaleRecords(doc.content, discNames) != {}
    ensures written ==> r == Present(WithoutStaleRecords(doc.content, discNames))
    ensures !written ==> r == doc
    ensures r.Present? <==> doc.Present?
    ensures r.Present? ==> StaleRecords(r.content, discNames) == {}
  {
    if !doc.Present? {
      return doc, false;
    }
    var kept, removed := RemoveStaleRecords(doc.content, discNames);
    if removed > 0 {
      r, written := Present(kept), true;
    } else {
      r, written := doc, false;
    }
  }

  // ---------------------------------------------------------------------------------------
  // item_texture.json (`_update_item_texture`)
  // ---------------------------------------------------------------------------------------

  /** The `texture_data` object: each texture key with its texture path. */
  type TextureData = map<string, string>

  function TexturePath(discName: string): string {
    "textures/" + Namespace + "/items/music_disc_" + discName
  }

  /** `key.replace("my_music_disc:music_disc_", "").replace("moremusicdiscs:music_disc_", "")`. */
  function TextureName(key: string): string {
    ReplaceAll(ReplaceAll(key, OwnDiscPrefix, ""), OtherAddonPrefix, "")
  }

  predicate IsStaleTexture(key: string, discNames: seq<string>) {
    IsOldDiscValue(key) && TextureName(key) !in discNames
  }

  /** The filters look at `my_music_disc:` and `moremusicdiscs:` while the reconcilers add
      `mymusic:` ids, so the id of a disc that is gone survives in the jukebox list and in the
      texture map alike. */
  lemma GeneratedIdsAreNeverFiltered(n: string, discNames: seq<string>)
    ensures !IsOldDiscValue(ItemId(n))
    ensures !IsStaleTexture(ItemId(n), discNames)
  {
    var id := ItemId(n);
    assert id[2] == 'm' && OwnDiscPrefix[2] == '_';
    assert id[1] == 'y' && OtherAddonPrefix[1] == 'o';
  }

  /** The keys `_update_item_texture` removes. */
  method CollectStaleTextures(data: TextureData, discNames: seq<string>) returns (toRemove: set<string>)
    ensures toRemove == set k | k in data && IsStaleTexture(k, discNames)
  {
    toRemove := {};
    var pending := data.Keys;
    while pending != {}
      invariant pending <= data.Keys
      invariant toRemove == set k | k in data.Keys - pending && IsStaleTexture(k, discNames)
      decreases |pending|
    {
      var key :| key in pending;
      if StartsWith(key, OwnDiscPrefix) || StartsWith(key, OtherAddonPrefix) {
        var name := TextureName(key);
        if name !in discNames {
          toRemove := toRemove + {key};
        }
      }
      pending := pending - {key};
    }
  }

  /** The `texture_data` object `r` after the update of `data`: no stale key is left, every
      current disc's id is present, with the disc's texture path when it was not there before,
      every other old entry is kept as it was, and nothing else is added. */
  predicate TextureDataUpdated(data: TextureData, discNames: seq<string>, r: TextureData) {
    && (forall k :: IsStaleTexture(k, discNames) ==> k !in r)
    && (forall n :: n in discNames ==> ItemId(n) in r)
    && (forall n :: n in discNames && ItemId(n) !in data ==> r[ItemId(n)] == TexturePath(n))
    && (forall k :: k in data && !IsStaleTexture(k, discNames) ==> k in r && r[k] == data[k])
    && (forall k :: k in r ==> k in data || exists n :: n in discNames && k == ItemId(n))
  }

  /** `_update_item_texture` on the `texture_data` object: stale keys go, then every current
      disc without an entry gets one. */
  method UpdateTextureMap(data: TextureData, discNames: seq<string>) returns (r: TextureData)
    ensures TextureDataUpdated(data, discNames, r)
  {
    var toRemove := CollectStaleTextures(data, discNames);
    var removed;
    r, removed := DeleteKeys(data, toRemove);
    for i := 0 to |discNames|
      invariant forall k :: IsStaleTexture(k, discNames) ==> k !in r
      invariant forall j :: 0 <= j < i ==> ItemId(discNames[j]) in r
      invariant forall n :: n in discNames && ItemId(n) !in data && ItemId(n) in r ==> r[ItemId(n)] == TexturePath(n)
      invariant forall k :: k in data && !IsStaleTexture(k, discNames) ==> k in r && r[k] == data[k]
      invariant forall k :: k in r ==> k in data || exists n :: n in discNames && k == ItemId(n)
    {
      var key := ItemId(discNames[i]);
      GeneratedIdsAreNeverFiltered(discNames[i], discNames);
      if key !in r {
        r := r[key := TexturePath(discNames[i])];
        forall n | n in discNames && ItemId(n) == key ensures TexturePath(n) == TexturePath(discNames[i]) {
          ItemIdInjective(n, discNames[i]);
        }
      }
    }
    forall n | n in discNames ensures ItemId(n) in r {
      var j :| 0 <= j < |discNames| && discNames[j] == n;
    }
  }

  /** `_update_item_texture`: a missing or unreadable file fails and is left alone;
      otherwise the object is updated as described above. */
  method UpdateItemTexture(doc: Document<TextureData>, discNames: seq<string>) returns (r: Document<TextureData>, ok: bool)
    ensures ok <==> doc.Present?
    ensures !ok ==> r == doc
    ensures ok ==> r.Present? && TextureDataUpdated(doc.content, discNames, r.content)
  {
    if !doc.Present? {
      return doc, false;
    }
    var data := UpdateTextureMap(doc.content, discNames);
    r, ok := Present(data), true;
  }
}
