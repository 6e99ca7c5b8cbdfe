/** The generator's driver: the project's files and configuration documents as the fields of one
    object, the conversion with its checksum cache, the cleanup of orphaned files and the loop of
    `process_mp3_files`. External programs (the transcoder, the artwork extractor, the duration
    probe) and the checksum are parameters. */
module Generator {
  import opened Text
  import opened SnakeCase
  import opened Artists
  import opened Documents
  import opened ScriptTable

  /** The bytes of a file. */
  type Content = seq<bv8>

  /** A file of the `src/` directory, in listing order. */
  datatype SourceFile = SourceFile(name: string, content: Content)

  const DiscFilePrefix: string := "music_disc_"

  function SoundFileName(discName: string): string { discName + ".ogg" }
  function TextureFileName(discName: string): string { DiscFilePrefix + discName + ".png" }
  function ItemFileName(discName: string): string { DiscFilePrefix + discName + ".item.json" }

  /** The glob patterns of the cleanup: `*.ogg`, `music_disc_*.png` and `music_disc_*.item.json`
      (the fixed parts of the last two cannot overlap, so a prefix and a suffix test is exact). */
  predicate IsSoundFile(name: string) { EndsWith(name, ".ogg") }
  predicate IsTextureFile(name: string) { StartsWith(name, DiscFilePrefix) && EndsWith(name, ".png") }
  predicate IsItemFile(name: string) { StartsWith(name, DiscFilePrefix) && EndsWith(name, ".item.json") }

  /** The disc name the cleanup derives from each kind of file. */
  function SoundNameOf(file: string): string { Stem(file) }
  function TextureNameOf(file: string): string { ReplaceAll(Stem(file), DiscFilePrefix, "") }
  function ItemNameOf(file: string): string { ReplaceAll(ReplaceAll(Stem(file), DiscFilePrefix, ""), ".item", "") }

  predicate IsOrphanSound(file: string, current: seq<string>) { IsSoundFile(file) && SoundNameOf(file) !in current }
  predicate IsOrphanTexture(file: string, current: seq<string>) { IsTextureFile(file) && TextureNameOf(file) !in current }
  predicate IsOrphanItem(file: string, current: seq<string>) { IsItemFile(file) && ItemNameOf(file) !in current }

  /** A disc name from which the cleanup derives the name back: no dot, no `music_disc_`. */
  predicate PlainDiscName(n: string) {
    '.' !in n && !Contains(n, DiscFilePrefix)
  }

  /** A non-empty disc name is read back from its sound file. */
  lemma SoundNameRoundTrip(n: string)
    requires n != ""
    ensures IsSoundFile(SoundFileName(n)) && SoundNameOf(SoundFileName(n)) == n
  {
    StemOfDotted(n, "ogg");
    assert SoundFileName(n) == n + "." + "ogg";
  }

  /** The empty disc name is not: the stem of `.ogg` is `.ogg`, so its sound file is removed as
      an orphan even when the empty name is accepted. */
  lemma EmptyNameSoundIsOrphan(current: seq<string>)
    requires ".ogg" !in current
    ensures IsOrphanSound(SoundFileName(""), current)
  {
    assert SoundFileName("") == ".ogg";
    assert LastIndexOf(".ogg", '.') == Some(0);
  }

  /** A plain disc name is read back from its texture file. */
  lemma TextureNameRoundTrip(n: string)
    requires PlainDiscName(n)
    ensures IsTextureFile(TextureFileName(n)) && TextureNameOf(TextureFileName(n)) == n
  {
    var p := DiscFilePrefix;
    assert TextureFileName(n) == (p + n) + "." + "png";
    StemOfDotted(p + n, "png");
    ReplaceAllLeading(n, p, "");
    ReplaceAllAbsent(n, p, "");
    assert TextureFileName(n)[..|p|] == p;
  }

  /** A plain disc name is read back from its item file. */
  lemma ItemNameRoundTrip(n: string)
    requires PlainDiscName(n)
    ensures IsItemFile(ItemFileName(n)) && ItemNameOf(ItemFileName(n)) == n
  {
    var p := DiscFilePrefix;
    ItemStem(n);
    DropPrefix(n + ".item", n);
    DropItemTail(n);
    assert ItemFileName(n)[..|p|] == p;
    assert ItemFileName(n)[|ItemFileName(n)| - 10..] == ".item.json";
  }

  lemma ItemStem(n: string)
    ensures Stem(ItemFileName(n)) == DiscFilePrefix + (n + ".item")
  {
    var p := DiscFilePrefix;
    assert ItemFileName(n) == (p + (n + ".item")) + "." + "json";
    StemOfDotted(p + (n + ".item"), "json");
  }

  /** The leading `music_disc_` of `music_disc_<n>.item` is the only one. */
  lemma DropPrefix(s: string, n: string)
    requires PlainDiscName(n) && s == n + ".item"
    ensures ReplaceAll(DiscFilePrefix + s, DiscFilePrefix, "") == s
  {
    var p := DiscFilePrefix;
    ReplaceAllLeading(s, p, "");
    NotContainsShort(".item", p);
    NoMatchAcrossDot(n, ".item", p);
    ReplaceAllAbsent(s, p, "");
  }

  lemma DropItemTail(n: string)
    requires '.' !in n
    ensures ReplaceAll(n + ".item", ".item", "") == n
  {
    var tail := ".item";
    forall j | 0 <= j < |n| ensures !StartsWith((n + tail)[j..], tail) {
      assert (n + tail)[j..][0] == n[j];
    }
    ReplaceAllSkip(n, tail, tail, "");
    ReplaceAllLeading([], tail, "");
    assert tail + [] == tail;
  }

  lemma NotContainsShort(s: string, p: string)
    requires |s| < |p|
    ensures !Contains(s, p)
  {
    forall j | 0 <= j <= |s| ensures !StartsWith(s[j..], p) {
    }
    NotContainsFromNoStart(s, p);
  }

  /** Deriving names with `replace` removes every `music_disc_`: the files of a disc named
      `music_disc_<a>` are read as the files of disc `<a>`, and removed unless `<a>` is accepted. */
  lemma DoubledPrefixTextureIsMisread(a: string)
    requires PlainDiscName(a)
    ensures TextureNameOf(TextureFileName(DiscFilePrefix + a)) == a
  {
    var p := DiscFilePrefix;
    assert TextureFileName(p + a) == (p + (p + a)) + "." + "png";
    StemOfDotted(p + (p + a), "png");
    ReplaceAllLeading(p + a, p, "");
    ReplaceAllLeading(a, p, "");
    ReplaceAllAbsent(a, p, "");
  }

  lemma DoubledPrefixItemIsMisread(a: string)
    requires PlainDiscName(a)
    ensures ItemNameOf(ItemFileName(DiscFilePrefix + a)) == a
  {
    var p := DiscFilePrefix;
    var s := a + ".item";
    ItemStem(p + a);
    assert Stem(ItemFileName(p + a)) == p + (p + s);
    ReplaceAllLeading(p + s, p, "");
    DropPrefix(s, a);
    assert ReplaceAll(p + (p + s), p, "") == s;
    DropItemTail(a);
  }

  /** `PurePath(name).suffix`: what the stem leaves out. */
  function Suffix(name: string): (r: string)
    ensures name == Stem(name) + r
  {
    name[|Stem(name)|..]
  }

  /** The files `_get_mp3_files` returns for `--file name` (when `name` is not empty) or for the
      whole directory. */
  predicate IsSelected(file: SourceFile, specific: Option<string>) {
    if specific.Some? && specific.value != "" then
      file.name == specific.value && Lower(Suffix(file.name)) == ".mp3"
    else
      EndsWith(file.name, ".mp3")
  }

  function Mp3Files(src: seq<SourceFile>, specific: Option<string>): (files: seq<SourceFile>)
    ensures forall f :: f in files <==> f in src && IsSelected(f, specific)
    ensures |files| <= |src|
  {
    if src == [] then []
    else (if IsSelected(src[0], specific) then [src[0]] else []) + Mp3Files(src[1..], specific)
  }

  function Names(files: seq<SourceFile>): (names: seq<string>)
    ensures |names| == |files| && forall i :: 0 <= i < |files| ==> names[i] == files[i].name
  {
    seq(|files|, i requires 0 <= i < |files| => files[i].name)
  }

  /** The names of the `*.mp3` files, which the artist lookups scan whatever was selected. */
  function Mp3Names(src: seq<SourceFile>): (names: seq<string>)
    ensures forall n :: n in names <==> exists f :: f in src && EndsWith(f.name, ".mp3") && f.name == n
  {
    if src == [] then []
    else (if EndsWith(src[0].name, ".mp3") then [src[0].name] else []) + Mp3Names(src[1..])
  }

  /** The checksum cache: MP3 checksum to OGG checksum. */
  type Checksums = map<string, string>

  /** `_load_checksums`: a missing or unreadable file is an empty cache. */
  function LoadChecksums(doc: Document<Checksums>): (checksums: Checksums)
    ensures !doc.Present? ==> checksums == map[]
  {
    if doc.Present? then doc.content else map[]
  }

  /** The skip condition of the conversion: the `.ogg` file exists, the MP3's checksum is in the
      cache, and the `.ogg` file's checksum is the stored one. */
  predicate UpToDate(sounds: map<string, Content>, checksums: Checksums, mp3: Content, ogg: string, hash: Content -> string) {
    ogg in sounds && hash(mp3) in checksums && hash(sounds[ogg]) == checksums[hash(mp3)]
  }

  /** The `.ogg` files and the checksum cache: the state the conversions read and update. */
  datatype SoundCache = SoundCache(sounds: map<string, Content>, checksumFile: Document<Checksums>)

  /** `_convert_mp3_to_ogg` on that state: whether it returns true, and the state afterwards.
      An up-to-date file is left alone; otherwise only a successful transcoder run writes the
      `.ogg` file and records `mp3 checksum -> ogg checksum` in the cache. */
  function Conversion(cache: SoundCache, mp3: Content, ogg: string, transcode: Content -> Option<Content>,
                      hash: Content -> string): (r: (bool, SoundCache))
    ensures r.0 <==> UpToDate(cache.sounds, LoadChecksums(cache.checksumFile), mp3, ogg, hash) || transcode(mp3).Some?
    ensures r.0 ==> UpToDate(r.1.sounds, LoadChecksums(r.1.checksumFile), mp3, ogg, hash)
    ensures !r.0 ==> r.1 == cache
    ensures cache.sounds.Keys <= r.1.sounds.Keys
  {
    if UpToDate(cache.sounds, LoadChecksums(cache.checksumFile), mp3, ogg, hash) then (true, cache)
    else match transcode(mp3)
      case None => (false, cache)
      case Some(out) =>
        (true, SoundCache(cache.sounds[ogg := out], Present(LoadChecksums(cache.checksumFile)[hash(mp3) := hash(out)])))
  }

  /** A file as the loop of `process_mp3_files` sees it: its disc name, the display name of
      its item (the file name without its extension) and its MP3 content. */
  datatype Disc = Disc(name: string, title: string, mp3: Content)

  /** The disc of a file: the name is derived from the file name. */
  function DiscOf(file: SourceFile): Disc {
    Disc(ToSnakeCase(file.name), Stem(file.name), file.content)
  }

  /** The discs of the files, in order. */
  function Discs(files: seq<SourceFile>): (discs: seq<Disc>)
    ensures |discs| == |files|
    ensures forall i :: 0 <= i < |files| ==> discs[i] == DiscOf(files[i])
  {
    seq(|files|, i requires 0 <= i < |files| => DiscOf(files[i]))
  }

  /** One pass of the loop of `process_mp3_files` on the state and the names accepted so far:
      the disc's name is appended when its conversion returns true. */
  function ProcessStep(before: (SoundCache, seq<string>), disc: Disc, transcode: Content -> Option<Content>,
                       hash: Content -> string): (after: (SoundCache, seq<string>))
    ensures after.1 == before.1 || after.1 == before.1 + [disc.name]
    ensures |before.1| <= |after.1| && after.1[..|before.1|] == before.1
  {
    var step := Conversion(before.0, disc.mp3, SoundFileName(disc.name), transcode, hash);
    (step.1, if step.0 then before.1 + [disc.name] else before.1)
  }

  /** The loop of `process_mp3_files` over the first `n` discs, starting from `cache`: the
      state afterwards and the accepted disc names, in file order; the artwork plays no part. */
  function Processed(discs: seq<Disc>, n: nat, cache: SoundCache, transcode: Content -> Option<Content>,
                     hash: Content -> string): (r: (SoundCache, seq<string>))
    requires n <= |discs|
    ensures |r.1| <= n
  {
    if n == 0 then (cache, [])
    else ProcessStep(Processed(discs, n - 1, cache, transcode, hash), discs[n - 1], transcode, hash)
  }

  /** The loop of `process_mp3_files` over all of `files`. */
  function ProcessedFiles(files: seq<SourceFile>, cache: SoundCache, transcode: Content -> Option<Content>,
                          hash: Content -> string): (r: (SoundCache, seq<string>))
    ensures |r.1| <= |files|
  {
    Processed(Discs(files), |files|, cache, transcode, hash)
  }

  /** The acceptance rule: the name of disc `i` is appended exactly when its `.ogg` file is up
      to date in the state the earlier discs left, or its transcoding succeeds. */
  lemma AcceptanceRule(discs: seq<Disc>, cache: SoundCache, transcode: Content -> Option<Content>,
                       hash: Content -> string, i: nat)
    requires i < |discs|
    ensures var before := Processed(discs, i, cache, transcode, hash);
      var d := discs[i];
      Processed(discs, i + 1, cache, transcode, hash).1 ==
        if UpToDate(before.0.sounds, LoadChecksums(before.0.checksumFile), d.mp3, SoundFileName(d.name), hash)
          || transcode(d.mp3).Some?
        then before.1 + [d.name] else before.1
  {
  }

  /** The names accepted from the first `m` discs begin the names accepted from the first `n`. */
  lemma {:induction false} ProcessedPrefix(discs: seq<Disc>, cache: SoundCache, transcode: Content -> Option<Content>,
                                           hash: Content -> string, m: nat, n: nat)
    requires m <= n <= |discs|
    ensures var shorter := Processed(discs, m, cache, transcode, hash).1;
      var longer := Processed(discs, n, cache, transcode, hash).1;
      |shorter| <= |longer| && longer[..|shorter|] == shorter
    decreases n - m
  {
    if m < n {
      ProcessedPrefix(discs, cache, transcode, hash, m, n - 1);
      PrefixGrows(Processed(discs, m, cache, transcode, hash).1, Processed(discs, n - 1, cache, transcode, hash).1,
        Processed(discs, n, cache, transcode, hash).1);
    }
  }

  lemma PrefixGrows(a: seq<string>, b: seq<string>, c: seq<string>)
    requires |a| <= |b| && b[..|a|] == a
    requires |b| <= |c| && c[..|b|] == b
    ensures |a| <= |c| && c[..|a|] == a
  {
    assert c[..|a|] == c[..|b|][..|a|];
  }

  /** Every accepted name is the name of one of the discs, and its `.ogg` file is in the state
      the loop leaves. */
  lemma {:induction false} AcceptedNamesFromDiscs(discs: seq<Disc>, n: nat, cache: SoundCache,
                                                  transcode: Content -> Option<Content>, hash: Content -> string)
    requires n <= |discs|
    ensures var run := Processed(discs, n, cache, transcode, hash);
      forall x :: x in run.1 ==> (exists i :: 0 <= i < n && x == discs[i].name) && SoundFileName(x) in run.0.sounds
    decreases n
  {
    if n > 0 {
      AcceptedNamesFromDiscs(discs, n - 1, cache, transcode, hash);
      var before := Processed(discs, n - 1, cache, transcode, hash);
      var d := discs[n - 1];
      var step := Conversion(before.0, d.mp3, SoundFileName(d.name), transcode, hash);
      assert step.0 ==> SoundFileName(d.name) in step.1.sounds;
    }
  }

  /** A file whose transcoding succeeds is accepted, whatever the files before and after it. */
  lemma TranscodedIsAccepted(files: seq<SourceFile>, cache: SoundCache, transcode: Content -> Option<Content>,
                             hash: Content -> string, i: nat)
    requires i < |files| && transcode(files[i].content).Some?
    ensures ToSnakeCase(files[i].name) in ProcessedFiles(files, cache, transcode, hash).1
  {
    var discs := Discs(files);
    AcceptanceRule(discs, cache, transcode, hash, i);
    ProcessedPrefix(discs, cache, transcode, hash, i + 1, |files|);
    var shorter := Processed(discs, i + 1, cache, transcode, hash).1;
    assert shorter[|shorter| - 1] == discs[i].name;
  }

  /** The item file one pass of the loop writes, whether or not the conversion succeeds. */
  function WithItem(items: map<string, ItemDescriptor>, disc: Disc): map<string, ItemDescriptor> {
    items[ItemFileName(disc.name) := CreateItemJson(disc.name, disc.title)]
  }

  /** The texture file one pass of the loop writes when artwork can be extracted. */
  function WithArtwork(textures: map<string, Content>, disc: Disc, artwork: Content -> Option<Content>): map<string, Content> {
    if artwork(disc.mp3).Some? then textures[TextureFileName(disc.name) := artwork(disc.mp3).value] else textures
  }

  /** The item files after the first `n` passes of the loop. */
  function ItemsWritten(discs: seq<Disc>, n: nat, items: map<string, ItemDescriptor>): map<string, ItemDescriptor>
    requires n <= |discs|
  {
    if n == 0 then items else WithItem(ItemsWritten(discs, n - 1, items), discs[n - 1])
  }

  /** The texture files after the first `n` passes of the loop. */
  function ArtworkWritten(discs: seq<Disc>, n: nat, textures: map<string, Content>,
                          artwork: Content -> Option<Content>): map<string, Content>
    requires n <= |discs|
  {
    if n == 0 then textures else WithArtwork(ArtworkWritten(discs, n - 1, textures, artwork), discs[n - 1], artwork)
  }

  /** Every disc gets an item file, and no other item file is written; a later disc with the
      same name overwrites an earlier one's. */
  lemma {:induction false} ItemsWrittenFiles(discs: seq<Disc>, n: nat, items: map<string, ItemDescriptor>)
    requires n <= |discs|
    ensures forall i :: 0 <= i < n ==> ItemFileName(discs[i].name) in ItemsWritten(discs, n, items)
    ensures forall f :: f in ItemsWritten(discs, n, items) ==>
      f in items || exists i :: 0 <= i < n && f == ItemFileName(discs[i].name)
    ensures n > 0 ==>
      ItemsWritten(discs, n, items)[ItemFileName(discs[n - 1].name)] == CreateItemJson(discs[n - 1].name, discs[n - 1].title)
    decreases n
  {
    if n > 0 {
      ItemsWrittenFiles(discs, n - 1, items);
    }
  }

  /** A disc gets a texture file exactly when its artwork can be extracted, and no other
      texture file is written. */
  lemma {:induction false} ArtworkWrittenFiles(discs: seq<Disc>, n: nat, textures: map<string, Content>,
                                               artwork: Content -> Option<Content>)
    requires n <= |discs|
    ensures forall i :: 0 <= i < n && artwork(discs[i].mp3).Some? ==>
      TextureFileName(discs[i].name) in ArtworkWritten(discs, n, textures, artwork)
    ensures forall f :: f in ArtworkWritten(discs, n, textures, artwork) ==>
      f in textures || exists i :: 0 <= i < n && artwork(discs[i].mp3).Some? && f == TextureFileName(discs[i].name)
    decreases n
  {
    if n > 0 {
      ArtworkWrittenFiles(discs, n - 1, textures, artwork);
    }
  }

  /** The files and documents of a project that `process_mp3_files` writes. */
  datatype ProjectState = ProjectState(
    items: map<string, ItemDescriptor>, sounds: map<string, Content>, textures: map<string, Content>,
    checksumFile: Document<Checksums>, jukebox: Document<BlockStates>, soundDefs: Document<SoundDefinitions>,
    itemTexture: Document<TextureData>, discScript: Document<DiscScript>)

  /** The state the loop of `process_mp3_files` leaves: the item files, sounds, checksum cache
      and textures the passes over `files` write, and every document as it was. */
  function ProcessedState(before: ProjectState, files: seq<SourceFile>, transcode: Content -> Option<Content>,
                          hash: Content -> string, artwork: Content -> Option<Content>): ProjectState
  {
    var run := ProcessedFiles(files, SoundCache(before.sounds, before.checksumFile), transcode, hash);
    before.(sounds := run.0.sounds, checksumFile := run.0.checksumFile,
            items := ItemsWritten(Discs(files), |files|, before.items),
            textures := ArtworkWritten(Discs(files), |files|, before.textures, artwork))
  }

  /** One pass of the loop of `process_mp3_files` on the whole project and the names accepted
      so far: the item file is written, the sound converted (the name appended when that
      returns true, as in `ProcessStep`), and the artwork extracted. */
  function Pass(before: (ProjectState, seq<string>), disc: Disc, transcode: Content -> Option<Content>,
                hash: Content -> string, artwork: Content -> Option<Content>): (ProjectState, seq<string>)
  {
    var st := before.0;
    var step := ProcessStep((SoundCache(st.sounds, st.checksumFile), before.1), disc, transcode, hash);
    (st.(items := WithItem(st.items, disc), sounds := step.0.sounds, checksumFile := step.0.checksumFile,
         textures := WithArtwork(st.textures, disc, artwork)), step.1)
  }

  /** The first `n` passes of the loop, from `start` with no name accepted. */
  function Passes(discs: seq<Disc>, n: nat, start: ProjectState, transcode: Content -> Option<Content>,
                  hash: Content -> string, artwork: Content -> Option<Content>): (ProjectState, seq<string>)
    requires n <= |discs|
  {
    if n == 0 then (start, []) else Pass(Passes(discs, n - 1, start, transcode, hash, artwork), discs[n - 1], transcode, hash, artwork)
  }

  /** One pass on a state whose sounds, checksum cache, items and textures are given apart. */
  lemma PassOnParts(start: ProjectState, prev: (SoundCache, seq<string>), items: map<string, ItemDescriptor>,
                    textures: map<string, Content>, d: Disc, transcode: Content -> Option<Content>,
                    hash: Content -> string, artwork: Content -> Option<Content>)
    ensures var step := ProcessStep(prev, d, transcode, hash);
      Pass((start.(sounds := prev.0.sounds, checksumFile := prev.0.checksumFile, items := items, textures := textures), prev.1),
           d, transcode, hash, artwork) ==
        (start.(sounds := step.0.sounds, checksumFile := step.0.checksumFile, items := WithItem(items, d),
                textures := WithArtwork(textures, d, artwork)), step.1)
  {
    assert SoundCache(prev.0.sounds, prev.0.checksumFile) == prev.0;
  }

  /** The passes, taken apart: the sounds, checksum cache and names are those of `Processed`,
      the item and texture files those of `ItemsWritten` and `ArtworkWritten`, and the
      documents stay as they were. */
  lemma {:induction false} PassesApart(discs: seq<Disc>, n: nat, start: ProjectState,
                                       transcode: Content -> Option<Content>, hash: Content -> string,
                                       artwork: Content -> Option<Content>)
    requires n <= |discs|
    ensures var run := Processed(discs, n, SoundCache(start.sounds, start.checksumFile), transcode, hash);
      Passes(discs, n, start, transcode, hash, artwork) ==
        (start.(sounds := run.0.sounds, checksumFile := run.0.checksumFile, items := ItemsWritten(discs, n, start.items),
                textures := ArtworkWritten(discs, n, start.textures, artwork)), run.1)
    decreases n
  {
    if n > 0 {
      PassesApart(discs, n - 1, start, transcode, hash, artwork);
      var cache := SoundCache(start.sounds, start.checksumFile);
      PassOnParts(start, Processed(discs, n - 1, cache, transcode, hash), ItemsWritten(discs, n - 1, start.items),
        ArtworkWritten(discs, n - 1, start.textures, artwork), discs[n - 1], transcode, hash, artwork);
    }
  }

  /** The three configuration updates, from `before` to `after`: a present `jukebox.json` gets
      the custom disc values for `accepted`, present sound definitions and texture data are
      reconciled with them, a document that could not be read is left alone, and nothing
      else changes. */
  predicate Configured(before: ProjectState, after: ProjectState, accepted: seq<string>) {
    && after.(jukebox := before.jukebox, soundDefs := before.soundDefs, itemTexture := before.itemTexture) == before
    && after.jukebox == (if before.jukebox.Present?
        then Present(before.jukebox.content[CustomDiscState := CustomDiscValues(CustomValuesOf(before.jukebox.content), accepted)])
        else before.jukebox)
    && (if before.soundDefs.Present?
        then after.soundDefs.Present? && SoundDefinitionsUpdated(before.soundDefs.content, accepted, after.soundDefs.content)
        else after.soundDefs == before.soundDefs)
    && (if before.itemTexture.Present?
        then after.itemTexture.Present? && TextureDataUpdated(before.itemTexture.content, accepted, after.itemTexture.content)
        else after.itemTexture == before.itemTexture)
  }

  /** `musicDiscs.js` after `_update_music_discs_js` for the disc names `discNames`, the names
      of the `*.mp3` files in `src/` and the `.ogg` files present: a missing file stays missing,
      and any other is replaced by the table built from scratch. */
  function RebuiltScript(script: Document<DiscScript>, discNames: seq<string>, files: seq<string>,
                         oggFiles: set<string>, probe: string -> Option<nat>): Document<DiscScript>
  {
    if script.Missing? then script
    else Present(DiscScript(FixedArtists + ArtistsOf(files), VanillaDiscs + CustomDiscs(discNames, files, oggFiles, probe)))
  }

  /** `_cleanup_old_files` for the disc names `current` and the names of the `*.mp3` files in
      `src/`, from `before` to `after`: exactly the sound, texture and item files whose derived
      name is not current are deleted; stale sound definitions are removed (the file is
      rewritten only when there was one), so none remains; `musicDiscs.js`, unless it is
      missing, is rebuilt from the sound files that remain; nothing else changes. */
  predicate CleanedUp(before: ProjectState, after: ProjectState, current: seq<string>, mp3Names: seq<string>,
                      probe: string -> Option<nat>)
  {
    && after.sounds == (map f | f in before.sounds && !IsOrphanSound(f, current) :: before.sounds[f])
    && after.textures == (map f | f in before.textures && !IsOrphanTexture(f, current) :: before.textures[f])
    && after.items == (map f | f in before.items && !IsOrphanItem(f, current) :: before.items[f])
    && after.checksumFile == before.checksumFile
    && after.jukebox == before.jukebox
    && after.itemTexture == before.itemTexture
    && after.soundDefs == (if before.soundDefs.Present? && StaleRecords(before.soundDefs.content, current) != {}
        then Present(WithoutStaleRecords(before.soundDefs.content, current)) else before.soundDefs)
    && (before.soundDefs.Present? ==> after.soundDefs.Present? && StaleRecords(after.soundDefs.content, current) == {})
    && after.discScript == RebuiltScript(before.discScript, current, mp3Names, after.sounds.Keys, probe)
  }

  /** The passes over all of `files` leave `ProcessedState` and accept the names of
      `ProcessedFiles`; each accepted name is an identifier derived from one of the files, and
      its sound and item files exist. */
  lemma LoopOutcome(files: seq<SourceFile>, start: ProjectState, after: ProjectState, accepted: seq<string>,
                    transcode: Content -> Option<Content>, hash: Content -> string, artwork: Content -> Option<Content>)
    requires (after, accepted) == Passes(Discs(files), |files|, start, transcode, hash, artwork)
    ensures accepted == ProcessedFiles(files, SoundCache(start.sounds, start.checksumFile), transcode, hash).1
    ensures after == ProcessedState(start, files, transcode, hash, artwork)
    ensures forall n :: n in accepted ==> IsIdentifier(n) && n in Identifiers(Names(files))
    ensures forall n :: n in accepted ==> SoundFileName(n) in after.sounds && ItemFileName(n) in after.items
  {
    var discs := Discs(files);
    PassesApart(discs, |files|, start, transcode, hash, artwork);
    AcceptedNamesFromDiscs(discs, |files|, SoundCache(start.sounds, start.checksumFile), transcode, hash);
    ItemsWrittenFiles(discs, |files|, start.items);
    AcceptedAreIdentifiers(files, Processed(discs, |files|, SoundCache(start.sounds, start.checksumFile), transcode, hash).1);
  }

  /** What follows the loop of `process_mp3_files`, from `before` to `after`, for the accepted
      discs and the names of the `*.mp3` files in `src/`:
      - the sound, texture and item files of discs that are not accepted are deleted, and
        nothing else is;
      - the checksum cache is left alone;
      - when some disc was accepted, `jukebox.json` gets the custom disc values for them and the
        texture table is updated; otherwise both are left alone;
      - the sound definitions get the accepted discs' entries and lose the stale ones; with no
        accepted disc every `record.` entry is removed (the file is rewritten only when there
        was one), and afterwards no stale entry remains;
      - `musicDiscs.js`, unless it is missing, is rebuilt from the sound files that remain. */
  predicate Concluded(before: ProjectState, after: ProjectState, accepted: seq<string>, mp3Names: seq<string>,
                      probe: string -> Option<nat>)
  {
    && after.sounds == (map f | f in before.sounds && !IsOrphanSound(f, accepted) :: before.sounds[f])
    && after.textures == (map f | f in before.textures && !IsOrphanTexture(f, accepted) :: before.textures[f])
    && after.items == (map f | f in before.items && !IsOrphanItem(f, accepted) :: before.items[f])
    && after.checksumFile == before.checksumFile
    && after.jukebox == (if accepted != [] && before.jukebox.Present?
        then Present(before.jukebox.content[CustomDiscState := CustomDiscValues(CustomValuesOf(before.jukebox.content), accepted)])
        else before.jukebox)
    && (if accepted != [] && before.itemTexture.Present?
        then after.itemTexture.Present? && TextureDataUpdated(before.itemTexture.content, accepted, after.itemTexture.content)
        else after.itemTexture == before.itemTexture)
    && (if !before.soundDefs.Present? then after.soundDefs == before.soundDefs
        else if accepted == [] then
          after.soundDefs == (if StaleRecords(before.soundDefs.content, []) != {}
            then Present(WithoutStaleRecords(before.soundDefs.content, [])) else before.soundDefs)
        else after.soundDefs.Present? && SoundDefinitionsUpdated(before.soundDefs.content, accepted, after.soundDefs.content))
    && (before.soundDefs.Present? ==> after.soundDefs.Present? && StaleRecords(after.soundDefs.content, accepted) == {})
    && after.discScript == RebuiltScript(before.discScript, accepted, mp3Names, after.sounds.Keys, probe)
  }

  /** The configuration updates (when some disc was accepted) followed by the cleanup make up
      `Concluded`: the cleanup finds no stale sound definition left by the update. */
  lemma ConcludedSteps(before: ProjectState, middle: ProjectState, after: ProjectState, accepted: seq<string>,
                       mp3Names: seq<string>, probe: string -> Option<nat>)
    requires forall n :: n in accepted ==> IsIdentifier(n)
    requires if accepted == [] then middle == before else Configured(before, middle, accepted)
    requires CleanedUp(middle, after, accepted, mp3Names, probe)
    ensures Concluded(before, after, accepted, mp3Names, probe)
  {
    if accepted != [] && before.soundDefs.Present? {
      UpdatedHasNoStaleRecords(before.soundDefs.content, accepted, middle.soundDefs.content);
    }
  }

  class Project {
    /** `src/`, in listing order. */
    var src: seq<SourceFile>
    /** `BP/items/mymusic/`. */
    var items: map<string, ItemDescriptor>
    /** `RP/sounds/music/game/records/`. */
    var sounds: map<string, Content>
    /** `RP/textures/mymusic/items/`. */
    var textures: map<string, Content>
    /** `.ogg_checksums.json`. */
    var checksumFile: Document<Checksums>
    var jukebox: Document<BlockStates>
    var soundDefs: Document<SoundDefinitions>
    var itemTexture: Document<TextureData>
    /** `BP/scripts/musicDisc/musicDiscs.js`; its old text is never read, only overwritten. */
    var discScript: Document<DiscScript>

    /** The files and documents as they are now. */
    function State(): ProjectState
      reads this
    {
      ProjectState(items, sounds, textures, checksumFile, jukebox, soundDefs, itemTexture, discScript)
    }

    /** `_convert_mp3_to_ogg`: skipped (and successful) when the cache is up to date; otherwise
        the transcoder runs, and only a successful run writes the `.ogg` file and records
        `mp3 checksum -> ogg checksum` in the saved cache. */
    method ConvertMp3ToOgg(mp3: Content, ogg: string, transcode: Content -> Option<Content>, hash: Content -> string)
      returns (ok: bool)
      modifies this`sounds, this`checksumFile
      ensures old(UpToDate(sounds, LoadChecksums(checksumFile), mp3, ogg, hash)) ==>
        ok && sounds == old(sounds) && checksumFile == old(checksumFile)
      ensures !old(UpToDate(sounds, LoadChecksums(checksumFile), mp3, ogg, hash)) ==>
        match transcode(mp3)
        case None => !ok && sounds == old(sounds) && checksumFile == old(checksumFile)
        case Some(out) =>
          && ok
          && sounds == old(sounds)[ogg := out]
          && checksumFile == Present(old(LoadChecksums(checksumFile))[hash(mp3) := hash(out)])
      ensures (ok, SoundCache(sounds, checksumFile)) == old(Conversion(SoundCache(sounds, checksumFile), mp3, ogg, transcode, hash))
      ensures ok ==> UpToDate(sounds, LoadChecksums(checksumFile), mp3, ogg, hash)
      ensures old(sounds).Keys <= sounds.Keys
    {
      var checksums := LoadChecksums(checksumFile);
      var mp3Checksum := hash(mp3);
      if ogg in sounds && mp3Checksum in checksums {
        var existing := hash(sounds[ogg]);
        if existing == checksums[mp3Checksum] {
          return true;
        }
      }
      var result := transcode(mp3);
      if result.None? {
        return false;
      }
      sounds := sounds[ogg := result.value];
      var oggChecksum := hash(result.value);
      checksums := checksums[mp3Checksum := oggChecksum];
      checksumFile := Present(checksums);
      ok := true;
    }

    /** One iteration of the loop of `process_mp3_files`: the item file is written first, then
        the sound is converted, then the artwork extracted (its failure does not matter). */
    method ProcessFile(file: SourceFile, discName: string, transcode: Content -> Option<Content>, hash: Content -> string,
                       artwork: Content -> Option<Content>)
      returns (ok: bool)
      modifies this`items, this`sounds, this`textures, this`checksumFile
      ensures items == old(items)[ItemFileName(discName) := CreateItemJson(discName, Stem(file.name))]
      ensures ok <==> (old(UpToDate(sounds, LoadChecksums(checksumFile), file.content, SoundFileName(discName), hash))
        || transcode(file.content).Some?)
      ensures (ok, SoundCache(sounds, checksumFile)) ==
        old(Conversion(SoundCache(sounds, checksumFile), file.content, SoundFileName(discName), transcode, hash))
      ensures ok ==> SoundFileName(discName) in sounds
      ensures old(sounds).Keys <= sounds.Keys
      ensures textures == if artwork(file.content).Some? then old(textures)[TextureFileName(discName) := artwork(file.content).value]
        else old(textures)
    {
      var displayName := Stem(file.name);
      items := items[ItemFileName(discName) := CreateItemJson(discName, displayName)];
      ok := ConvertMp3ToOgg(file.content, SoundFileName(discName), transcode, hash);
      var picture := artwork(file.content);
      if picture.Some? {
        textures := textures[TextureFileName(discName) := picture.value];
      }
    }

    /** One pass of the loop of `process_mp3_files`: the disc name is derived from the file
        name, the file is processed, and the name is appended exactly when the conversion
        returned true. `disc` names the file's disc in the contract only. */
    method ProcessNext(file: SourceFile, ghost disc: Disc, accepted: seq<string>, transcode: Content -> Option<Content>,
                       hash: Content -> string, artwork: Content -> Option<Content>)
      returns (next: seq<string>)
      requires disc == DiscOf(file)
      modifies this`items, this`sounds, this`textures, this`checksumFile
      ensures (State(), next) == old(Pass((State(), accepted), disc, transcode, hash, artwork))
    {
      var discName := ToSnakeCase(file.name);
      var ok := ProcessFile(file, discName, transcode, hash, artwork);
      next := if ok then accepted + [discName] else accepted;
    }

    /** The loop of `process_mp3_files`: the accepted discs and the sound files and checksum
        cache it leaves are those of `Processed`, so a disc is accepted exactly when its
        conversion returned true, in the order of the files; every file gets its item file and,
        when artwork can be extracted, its texture. */
    method ProcessAll(files: seq<SourceFile>, transcode: Content -> Option<Content>, hash: Content -> string,
                      artwork: Content -> Option<Content>)
      returns (accepted: seq<string>)
      modifies this`items, this`sounds, this`textures, this`checksumFile
      ensures accepted == old(ProcessedFiles(files, SoundCache(sounds, checksumFile), transcode, hash)).1
      ensures State() == ProcessedState(old(State()), files, transcode, hash, artwork)
      ensures forall n :: n in accepted ==> IsIdentifier(n) && n in Identifiers(Names(files))
      ensures forall n :: n in accepted ==> SoundFileName(n) in sounds && ItemFileName(n) in items
    {
      ghost var start := State();
      accepted := [];
      for i := 0 to |files|
        invariant (State(), accepted) == Passes(Discs(files), i, start, transcode, hash, artwork)
      {
        accepted := ProcessNext(files[i], DiscOf(files[i]), accepted, transcode, hash, artwork);
      }
      LoopOutcome(files, start, State(), accepted, transcode, hash, artwork);
    }

    /** The three configuration updates, run when some disc was accepted: each document that
        could be read is updated as its reconciler describes, and the others are left alone. */
    method UpdateConfigurations(accepted: seq<string>)
      modifies this`jukebox, this`soundDefs, this`itemTexture
      ensures Configured(old(State()), State(), accepted)
    {
      var ok;
      jukebox, ok := UpdateJukeboxJson(jukebox, accepted);
      soundDefs, ok := UpdateSoundDefinitions(soundDefs, accepted);
      itemTexture, ok := UpdateItemTexture(itemTexture, accepted);
    }

    /** `_cleanup_old_files`: every sound, texture and item file whose derived name is not
        current is deleted, stale sound definitions are removed, and `musicDiscs.js` is rebuilt
        (after the deletions, so only remaining `.ogg` files are probed). */
    method CleanupOldFiles(current: seq<string>, probe: string -> Option<nat>)
      modifies this`sounds, this`textures, this`items, this`soundDefs, this`discScript
      ensures CleanedUp(old(State()), State(), current, Mp3Names(src), probe)
    {
      DeleteOrphanSounds(current);
      DeleteOrphanTextures(current);
      DeleteOrphanItems(current);
      var written;
      soundDefs, written := CleanupSoundDefinitions(soundDefs, current);
      UpdateMusicDiscsJs(current, probe);
    }

    /** `_update_music_discs_js`: unless `musicDiscs.js` is missing, it is rebuilt from scratch
        from the fixed tables, the artists of the `*.mp3` files and the discs whose `.ogg` file
        is present. */
    method UpdateMusicDiscsJs(discNames: seq<string>, probe: string -> Option<nat>)
      modifies this`discScript
      ensures discScript == RebuiltScript(old(discScript), discNames, Mp3Names(src), sounds.Keys, probe)
      ensures old(discScript).Missing? <==> discScript.Missing?
      ensures discScript.Present? ==> |discScript.content.discs| == |VanillaDiscs| + |discNames|
    {
      if !discScript.Missing? {
        var script := BuildDiscScript(discNames, Mp3Names(src), sounds.Keys, probe);
        discScript := Present(script);
      }
    }

    method DeleteOrphanSounds(current: seq<string>)
      modifies this`sounds
      ensures sounds == map f | f in old(sounds) && !IsOrphanSound(f, current) :: old(sounds)[f]
    {
      var pending := sounds.Keys;
      while pending != {}
        invariant pending <= old(sounds).Keys
        invariant sounds == map f | f in old(sounds) && !(f !in pending && IsOrphanSound(f, current)) :: old(sounds)[f]
        decreases |pending|
      {
        var file :| file in pending;
        if IsSoundFile(file) && SoundNameOf(file) !in current {
          sounds := map f | f in sounds && f != file :: sounds[f];
        }
        pending := pending - {file};
      }
    }

    method DeleteOrphanTextures(current: seq<string>)
      modifies this`textures
      ensures textures == map f | f in old(textures) && !IsOrphanTexture(f, current) :: old(textures)[f]
    {
      var pending := textures.Keys;
      while pending != {}
        invariant pending <= old(textures).Keys
        invariant textures == map f | f in old(textures) && !(f !in pending && IsOrphanTexture(f, current)) :: old(textures)[f]
        decreases |pending|
      {
        var file :| file in pending;
        if IsTextureFile(file) && TextureNameOf(file) !in current {
          textures := map f | f in textures && f != file :: textures[f];
        }
        pending := pending - {file};
      }
    }

    method DeleteOrphanItems(current: seq<string>)
      modifies this`items
      ensures items == map f | f in old(items) && !IsOrphanItem(f, current) :: old(items)[f]
    {
      var pending := items.Keys;
      while pending != {}
        invariant pending <= old(items).Keys
        invariant items == map f | f in old(items) && !(f !in pending && IsOrphanItem(f, current)) :: old(items)[f]
        decreases |pending|
      {
        var file :| file in pending;
        if IsItemFile(file) && ItemNameOf(file) !in current {
          items := map f | f in items && f != file :: items[f];
        }
        pending := pending - {file};
      }
    }

    /** `process_mp3_files`. Without the transcoder, or without a file to process, nothing
        happens at all. Otherwise the accepted discs are the files whose conversion succeeded;
        the configuration files are updated when there is one; the cleanup always runs with
        them, so afterwards every remaining sound, texture and item file belongs to an accepted
        disc, while each accepted disc keeps its sound (unless its name is empty) and its item
        file (unless its name holds `music_disc_`). */
    method ProcessMp3Files(specific: Option<string>, transcoderAvailable: bool,
                           transcode: Content -> Option<Content>, hash: Content -> string,
                           artwork: Content -> Option<Content>, probe: string -> Option<nat>)
      returns (accepted: seq<string>)
      modifies this`items, this`sounds, this`textures, this`checksumFile, this`jukebox, this`soundDefs,
        this`itemTexture, this`discScript
      ensures !transcoderAvailable || Mp3Files(src, specific) == [] ==> accepted == [] && State() == old(State())
      ensures transcoderAvailable && Mp3Files(src, specific) != [] ==>
        accepted == old(ProcessedFiles(Mp3Files(src, specific), SoundCache(sounds, checksumFile), transcode, hash)).1
      ensures transcoderAvailable && Mp3Files(src, specific) != [] ==>
        Concluded(old(ProcessedState(State(), Mp3Files(src, specific), transcode, hash, artwork)), State(), accepted,
          Mp3Names(src), probe)
      ensures forall n :: n in accepted ==> n in Identifiers(Names(Mp3Files(src, specific)))
      ensures transcoderAvailable && Mp3Files(src, specific) != [] ==>
        && (forall f :: f in sounds ==> !IsOrphanSound(f, accepted))
        && (forall f :: f in textures ==> !IsOrphanTexture(f, accepted))
        && (forall f :: f in items ==> !IsOrphanItem(f, accepted))
      ensures forall n :: n in accepted && n != "" ==> SoundFileName(n) in sounds
      ensures forall n :: n in accepted && PlainDiscName(n) ==> ItemFileName(n) in items
      ensures old(soundDefs).Present? ==> soundDefs.Present? && forall n :: n in accepted ==> SoundKey(n) in soundDefs.content
      ensures accepted != [] && old(jukebox).Present? ==> forall n :: n in accepted ==> ItemId(n) in jukebox.content[CustomDiscState]
    {
      accepted := [];
      if !transcoderAvailable {
        return;
      }
      var files := Mp3Files(src, specific);
      if files == [] {
        return;
      }
      accepted := ProcessSelected(files, transcode, hash, artwork, probe);
    }

    /** `process_mp3_files` once it has files to process: the loop, then what follows it. */
    method ProcessSelected(files: seq<SourceFile>, transcode: Content -> Option<Content>, hash: Content -> string,
                           artwork: Content -> Option<Content>, probe: string -> Option<nat>)
      returns (accepted: seq<string>)
      modifies this`items, this`sounds, this`textures, this`checksumFile, this`jukebox, this`soundDefs,
        this`itemTexture, this`discScript
      ensures accepted == old(ProcessedFiles(files, SoundCache(sounds, checksumFile), transcode, hash)).1
      ensures Concluded(old(ProcessedState(State(), files, transcode, hash, artwork)), State(), accepted, Mp3Names(src), probe)
      ensures forall n :: n in accepted ==> n in Identifiers(Names(files))
      ensures forall f :: f in sounds ==> !IsOrphanSound(f, accepted)
      ensures forall f :: f in textures ==> !IsOrphanTexture(f, accepted)
      ensures forall f :: f in items ==> !IsOrphanItem(f, accepted)
      ensures forall n :: n in accepted && n != "" ==> SoundFileName(n) in sounds
      ensures forall n :: n in accepted && PlainDiscName(n) ==> ItemFileName(n) in items
      ensures old(soundDefs).Present? ==> soundDefs.Present? && forall n :: n in accepted ==> SoundKey(n) in soundDefs.content
      ensures accepted != [] && old(jukebox).Present? ==> forall n :: n in accepted ==> ItemId(n) in jukebox.content[CustomDiscState]
    {
      accepted := ProcessAll(files, transcode, hash, artwork);
      Conclude(accepted, probe);
    }

    /** What `process_mp3_files` does after its loop: the configuration files are updated when
        some disc was accepted, and the cleanup runs in any case. */
    method Conclude(accepted: seq<string>, probe: string -> Option<nat>)
      requires forall n :: n in accepted ==> IsIdentifier(n)
      requires forall n :: n in accepted ==> SoundFileName(n) in sounds && ItemFileName(n) in items
      modifies this`items, this`sounds, this`textures, this`jukebox, this`soundDefs, this`itemTexture, this`discScript
      ensures Concluded(old(State()), State(), accepted, Mp3Names(src), probe)
      ensures forall f :: f in sounds ==> !IsOrphanSound(f, accepted)
      ensures forall f :: f in textures ==> !IsOrphanTexture(f, accepted)
      ensures forall f :: f in items ==> !IsOrphanItem(f, accepted)
      ensures forall n :: n in accepted && n != "" ==> SoundFileName(n) in sounds
      ensures forall n :: n in accepted && PlainDiscName(n) ==> ItemFileName(n) in items
      ensures old(soundDefs).Present? ==> soundDefs.Present? && forall n :: n in accepted ==> SoundKey(n) in soundDefs.content
      ensures accepted != [] && old(jukebox).Present? ==> forall n :: n in accepted ==> ItemId(n) in jukebox.content[CustomDiscState]
    {
      ghost var before := State();
      if accepted != [] {
        UpdateConfigurations(accepted);
        if before.jukebox.Present? {
          CustomDiscValuesShape(CustomValuesOf(before.jukebox.content), accepted);
        }
      }
      ghost var middle := State();
      CleanupOldFiles(accepted, probe);
      ConcludedSteps(before, middle, State(), accepted, Mp3Names(src), probe);
      AcceptedFilesSurvive(accepted, middle.sounds, sounds, middle.items, items);
      if middle.soundDefs.Present? {
        AcceptedDefinitionsSurvive(accepted, middle.soundDefs.content);
      }
    }
  }

  /** Names derived from the files are among the files' identifiers. */
  lemma AcceptedAreIdentifiers(files: seq<SourceFile>, accepted: seq<string>)
    requires forall x :: x in accepted ==> exists i :: 0 <= i < |files| && x == Discs(files)[i].name
    ensures forall n :: n in accepted ==> IsIdentifier(n) && n in Identifiers(Names(files))
  {
    var ids := Identifiers(Names(files));
    forall n | n in accepted ensures IsIdentifier(n) && n in ids {
      var i :| 0 <= i < |files| && n == Discs(files)[i].name;
      SnakeCaseIsIdentifier(files[i].name);
      assert ids[i] == n;
    }
  }

  /** What the cleanup keeps of the accepted discs' own files. */
  lemma AcceptedFilesSurvive(accepted: seq<string>, sounds: map<string, Content>, kept: map<string, Content>,
                             items: map<string, ItemDescriptor>, keptItems: map<string, ItemDescriptor>)
    requires forall n :: n in accepted ==> SoundFileName(n) in sounds && ItemFileName(n) in items
    requires kept == map f | f in sounds && !IsOrphanSound(f, accepted) :: sounds[f]
    requires keptItems == map f | f in items && !IsOrphanItem(f, accepted) :: items[f]
    ensures forall n :: n in accepted && n != "" ==> SoundFileName(n) in kept
    ensures forall n :: n in accepted && PlainDiscName(n) ==> ItemFileName(n) in keptItems
  {
    forall n | n in accepted && n != "" ensures SoundFileName(n) in kept {
      SoundNameRoundTrip(n);
    }
    forall n | n in accepted && PlainDiscName(n) ensures ItemFileName(n) in keptItems {
      ItemNameRoundTrip(n);
    }
  }

  /** Once the sound definitions are updated for discs with identifier names, none of their
      entries is stale, so the cleanup that follows leaves them as they are. */
  lemma UpdatedHasNoStaleRecords(defs: SoundDefinitions, accepted: seq<string>, r: SoundDefinitions)
    requires forall n :: n in accepted ==> IsIdentifier(n)
    requires SoundDefinitionsUpdated(defs, accepted, r)
    ensures StaleRecords(r, accepted) == {}
  {
    forall k | k in r ensures !IsStaleRecord(k, accepted) {
      if !(k in defs && !IsStaleRecord(k, accepted)) {
        var n :| n in accepted && k == SoundKey(n);
        RecordNameOfSoundKey(n);
      }
    }
  }

  /** The accepted discs' sound definitions are not stale. */
  lemma AcceptedDefinitionsSurvive(accepted: seq<string>, defs: SoundDefinitions)
    requires forall n :: n in accepted ==> IsIdentifier(n)
    ensures forall n :: n in accepted ==> !IsStaleRecord(SoundKey(n), accepted)
  {
    forall n | n in accepted ensures !IsStaleRecord(SoundKey(n), accepted) {
      RecordNameOfSoundKey(n);
    }
  }
}
