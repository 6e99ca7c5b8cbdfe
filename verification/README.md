# Music disc generator and jukebox managers, in Dafny

This project models a Minecraft Bedrock add-on that turns a folder of MP3 files into custom music discs.

The first part is the generator (`music_disc_generator.py`). For each source file it does the following:

- It derives a snake-case disc identifier.
- It writes an item descriptor.
- It converts the sound to OGG, skipping the conversion when a checksum cache shows the `.ogg` file is up to date.
- It extracts artwork.

It then reconciles the configuration documents against the accepted discs:

- `jukebox.json`: the `custom_disc_1` block state.
- `sound_definitions.json`.
- `item_texture.json`.

Finally it deletes every sound, texture and item file of a disc that is no longer current, and rebuilds the `musicDiscs.js` disc table.

The second part is the jukebox block script. It comes in two revisions: the manager the add-on ships (`BP/scripts/jukebox/jukeboxManager.js`) and the manager template (`template/BP/scripts/jukebox/jukeboxManager.dist.js`). Each script:

- keeps the playing disc in block states;
- takes discs from the hoppers that feed the jukebox;
- outputs a finished disc to the hopper below;
- lets a player insert or eject a disc;
- tracks which jukeboxes are playing.

## Files and modules

- `text.dfy` (`Text`): the Python string operations the generator relies on, with the exact `str.isspace` set. The operations are `find`, `split(sep, 1)`, `replace`, `strip`, `PurePath.stem`, and the regex run-collapsing.
- `snake_case.dfy` (`SnakeCase`): `_to_snake_case`, step by step, and the shape of the identifiers it produces.
- `artists.dfy` (`Artists`): artist keys, titles and the artists table, read from file names.
- `documents.dfy` (`Documents`): the item descriptor and the three document reconcilers.
  - Each document is a `map` or `seq` value.
  - The reconcilers are loops over those values.
- `script_table.dfy` (`ScriptTable`): the `musicDiscs.js` table, as a list of entries rather than text.
- `generator.dfy` (`Generator`): class `Project`.
  - Its fields are the directories and documents the generator reads and rewrites.
  - Its methods are the conversion with the checksum cache, the per-file processing, the cleanup, and `process_mp3_files`.
- `block.dfy` (`Blocks`): the game API both managers drive.
  - Block permutations, and `withState`, which throws when the block does not allow a state value.
  - Class `JukeboxBlock`, whose permutation `setPermutation` replaces.
  - `clearDisc` and `getPlayingDisc`.
  - Hoppers and their containers, as arrays of slots.
- `jukebox_live.dfy` (`LiveJukebox`) and `jukebox_template.dfy` (`TemplateJukebox`): the two managers.
  - Each is a class holding the `playingJukeboxes` record.
  - Each has `setDisc`, `playDisc`, the branches of `tick`, and `interactWithJukebox`.

A JavaScript exception is modelled by the `Accepts` predicate. An unguarded step that throws ends the operation at that point. That step's effect and the effects of later steps do not happen. A `try { } catch { }` step that throws has no effect, and execution goes on after it.

## Model

| member | source | states |
|---|---|---|
| SnakeCase.DropExtension | music_disc_generator.py:58 | removes the last `.` and everything after it; a name without `.` is unchanged |
| SnakeCase.DropOneExtension | music_disc_generator.py:58 | a name whose last extension is dot-free loses exactly that extension, whatever dots the stem holds |
| SnakeCase.ReplaceSpecials | music_disc_generator.py:64 | every character outside `[a-zA-Z0-9]` becomes `_`, others are kept, length unchanged |
| SnakeCase.ToSnakeCaseSteps | music_disc_generator.py:55-73 | the identifier is the lower-casing of the six substitutions applied in the source's order |
| SnakeCase.ToSnakeCaseComposed | music_disc_generator.py:55-73 | the same pipeline as one composed expression |
| SnakeCase.JoinedSpecialsShape | music_disc_generator.py:61-67 | after steps 2-4 only ASCII letters, digits and single underscores remain |
| SnakeCase.TrimmedShape | music_disc_generator.py:70 | stripping keeps that shape and leaves no `_` at either end |
| SnakeCase.LoweredShape | music_disc_generator.py:73 | lower-casing that shape gives an identifier |
| SnakeCase.SnakeCaseIsIdentifier | music_disc_generator.py:55-73 | every derived name is `[a-z0-9_]*` with no `__` and no `_` at either end |
| SnakeCase.IdentifierIsFixedPoint | music_disc_generator.py:55-73 | an identifier is its own snake case |
| SnakeCase.SnakeCaseIdempotent | music_disc_generator.py:55-73 | deriving twice gives what deriving once gave |
| SnakeCase.WordUnchanged | music_disc_generator.py:61-67 | letters, digits and single underscores pass steps 2-4 unchanged |
| SnakeCase.ArtistStaysInIdentifier | music_disc_generator.py:55-73 | `artist - title.mp3` (alphanumeric words) becomes `artist_title` lower-cased: the artist is not dropped |
| SnakeCase.EmptyIdentifier | music_disc_generator.py:55-73 | every name whose stem holds no ASCII letter or digit, with any dot-free extension, gives the empty identifier |
| Text.CollapseRunsNoDouble | music_disc_generator.py:61 | collapsing runs that include `_` leaves no `__` |
| Text.CollapseRunsFixed | music_disc_generator.py:67 | a text without `__` whose only run characters are `_` is unchanged by collapsing |
| Text.StripWhereIsSlice | music_disc_generator.py:70 | `strip` returns a slice of the input with only stripped characters around it and none at its ends |
| Text.IndexOf | music_disc_generator.py:767 | `find`: the first position of the pattern, or none exactly when the text does not hold it |
| Text.SplitOnce | music_disc_generator.py:768 | `split(sep, 1)`: the parts around the first occurrence, none when there is no occurrence |
| Text.Stem | music_disc_generator.py:709 | `PurePath.stem`: the name, or the part before its last dot when a proper suffix exists |
| Text.ReplaceDoubleUnderscorePreservesCollapse | music_disc_generator.py:772-773 | one `replace("__", "_")` pass does not change the collapsed form |
| Text.ReplaceDoubleUnderscoreShrinks | music_disc_generator.py:772-773 | a pass shortens any text still holding `__`, so the loop ends |
| Artists.SqueezeUnderscores | music_disc_generator.py:772-773 | the `while "__"` loop ends with every underscore run squeezed to one and no `__` left |
| Artists.ArtistKey | music_disc_generator.py:769-773 | the key is the stripped artist part with spaces, `&` and `-` replaced and underscores squeezed |
| Artists.ArtistKeyShape | music_disc_generator.py:770-773 | a key holds no space, `&`, `-` or `__`, and its other characters come from the name |
| Artists.TitleCase | music_disc_generator.py:782 | `str.title()` on ASCII: letters after a non-letter are upper-cased, others lower-cased |
| Artists.DefaultTitleHasNoUnderscore | music_disc_generator.py:782 | the default title holds no `_` |
| Artists.Identifiers | music_disc_generator.py:785 | the identifier of each file, in order |
| Artists.FirstMatch | music_disc_generator.py:784-785 | the first file whose identifier is the disc name, or none exactly when no file has it |
| Artists.FindFirstMatch | music_disc_generator.py:784-796 | the loop up to its `break` finds exactly that first file |
| Artists.ParseStem | music_disc_generator.py:788-795 | artist key and stripped title when the stem holds ` - ` |
| Artists.GetArtistAndTitle | music_disc_generator.py:778-797 | returns the artist and title of the first matching file, with the defaults otherwise |
| Artists.FirstMatchAt | music_disc_generator.py:784-785 | the file at `i` is the match when it is the first with that identifier |
| Artists.ArtistAndTitleAt | music_disc_generator.py:784-797 | the result comes from the stem of the first matching file |
| Artists.DefaultsWithoutSeparator | music_disc_generator.py:780-797 | without a matching file holding ` - `, the result is `Unknown_Artist` and the default title |
| Artists.ArtistAndTitleFromName | music_disc_generator.py:786-795 | with a split at the first ` - `, the result is that artist's key and the stripped title |
| Artists.StemSplitAtFirst | music_disc_generator.py:788-789 | a stem split at its first separator parses to that artist and title |
| Artists.SplitPrefix | music_disc_generator.py:788 | two splits at a first occurrence of the separator are the same split |
| Artists.FirstMatchWins | music_disc_generator.py:796 | files after the first match do not change the result |
| Artists.ProcessedNameIsFound | music_disc_generator.py:784-785 | a disc derived from a file always finds a match at or before that file |
| Artists.ArtistEntries | music_disc_generator.py:765-773 | the table entry of each file, in order |
| Artists.ArtistOfFile | music_disc_generator.py:766-773 | one loop body: the key and stripped artist name, or nothing without ` - ` |
| Artists.CollectArtists | music_disc_generator.py:760-776 | the loop builds the table of the entries assigned in file order |
| Artists.TableOfSnoc | music_disc_generator.py:774 | one more entry assigns its key or leaves the table as it is |
| Artists.TableOfKeys | music_disc_generator.py:774 | a key is in the table exactly when some entry assigns it |
| Artists.TableOfLastWins | music_disc_generator.py:774 | a key's value comes from the last entry that assigns it |
| Artists.ArtistsOfKeys | music_disc_generator.py:765-774 | a key is in the artists table exactly when some file contributes it |
| Artists.ArtistEntryMatchesStem | music_disc_generator.py:766-771 | a file contributes a key exactly when its stem names an artist, and both parsers give the same key |
| Artists.ArtistsOfLastWins | music_disc_generator.py:774 | the name under a key comes from the last file that contributes the key |
| Artists.ArtistsOfKeyShape | music_disc_generator.py:770-774 | every key of the table has the artist-key shape |
| Documents.ItemIdInjective | music_disc_generator.py:205 | different discs have different `mymusic:music_disc_` ids |
| Documents.CreateItemJson | music_disc_generator.py:197-217 | format `1.21.40`, identifier equal to icon, stack size 1, category and group as written |
| Documents.ItemJsonRoundTrip | music_disc_generator.py:197-217 | the disc name and the display name can be read back from the descriptor |
| Documents.ItemJsonDistinct | music_disc_generator.py:205 | different discs get different item identifiers |
| Documents.KeptValues | music_disc_generator.py:234 | keeps exactly the values without the `my_music_disc:`/`moremusicdiscs:` disc prefixes |
| Documents.BaseValues | music_disc_generator.py:234-238 | the kept values, with `"none"` put first when it is missing |
| Documents.ItemIds | music_disc_generator.py:242 | the item id of each disc, in order |
| Documents.ItemIdsHold | music_disc_generator.py:242 | a value is among the ids exactly when it is some disc's id |
| Documents.UpdateCustomDiscValues | music_disc_generator.py:230-245 | the list `CustomDiscValues` defines: base values, then each disc id not yet present, in disc order; all ids present; nothing else added; only the base part can repeat |
| Documents.AppendedValues | music_disc_generator.py:240-245 | what any such extension holds, and that repeats stay in the base part |
| Documents.AppendMissingExtends | music_disc_generator.py:240-245 | appending the missing ids keeps the earlier values as a prefix, adds only ids, and leaves every id present |
| Documents.CustomDiscValuesShape | music_disc_generator.py:230-245 | the rebuilt list starts with the base values, holds every disc id, `"none"` and the kept values and nothing else, and repeats only inside the base |
| Documents.UpdateJukeboxJson | music_disc_generator.py:219-257 | succeeds exactly when the document is present, so it fails when the document is missing or unreadable, and then leaves it alone; otherwise `custom_disc_1` becomes `CustomDiscValues` of its old list, with the full shape above, and no other state changes |
| Documents.RecordDefinition | music_disc_generator.py:286-301 | category `record` and one sound at `sounds/music/game/records/<name>` |
| Documents.CollectStaleRecords | music_disc_generator.py:271-276 | collects exactly the `record.` keys whose derived name is not current |
| Documents.DeleteKeys | music_disc_generator.py:279-281 | deletes exactly the collected keys and counts them |
| Documents.RemoveStaleRecords | music_disc_generator.py:271-281 | what is left, how many went, and nothing changed exactly when none went |
| Documents.UpdateSoundDefinitionMap | music_disc_generator.py:271-302 | every current disc has a key; non-stale entries are kept; a stale key survives only as a current disc's key |
| Documents.RecordNameOfSoundKey | music_disc_generator.py:274 | a dot-free name is read back from `record.<name>` |
| Documents.RecordKeysAfterUpdate | music_disc_generator.py:271-302 | with dot-free names, a `record.` key remains exactly when it is a current disc's key or derives a current name |
| Documents.DoubledRecordKeySurvives | music_disc_generator.py:274-276 | `record.record.a` is not stale when `a` is current, because `replace` removes both prefixes |
| Documents.UpdateSoundDefinitions | music_disc_generator.py:259-311 | succeeds exactly when the document is present (fails when missing or unreadable, leaving it alone); otherwise the written map satisfies every clause of `UpdateSoundDefinitionMap` |
| Documents.CleanupSoundDefinitions | music_disc_generator.py:649-682 | writes only when some stale key exists, and then writes the map without them; a present file stays present and has no stale key afterwards |
| Documents.GeneratedIdsAreNeverFiltered | music_disc_generator.py:328 | the `mymusic:` ids the generator adds are never removed by either filter |
| Documents.CollectStaleTextures | music_disc_generator.py:326-331 | collects exactly the filtered keys whose derived name is not current |
| Documents.UpdateTextureMap | music_disc_generator.py:326-345 | stale keys go; each disc has a key, with its path when new; other entries are kept; nothing else is added |
| Documents.UpdateItemTexture | music_disc_generator.py:313-354 | succeeds exactly when the document is present (fails when missing or unreadable, leaving it alone); otherwise the written map satisfies every clause of `UpdateTextureMap` |
| ScriptTable.TickLength | music_disc_generator.py:606-623 | 3000 when the disc's `.ogg` file is absent |
| ScriptTable.CustomDisc | music_disc_generator.py:602-634 | key `my_music_disc:music_disc_<name>`, sound `record.<name>`, volume 0.75 |
| ScriptTable.CustomDiscs | music_disc_generator.py:602-634 | one entry per accepted disc, in order |
| ScriptTable.CustomDiscsSnoc | music_disc_generator.py:602-634 | one more disc appends its entry |
| ScriptTable.AssignArtists | music_disc_generator.py:422-423 | the artists of the files come after the fixed ones, and on a clash the file's name wins |
| ScriptTable.BuildCustomDisc | music_disc_generator.py:603-634 | the loop body builds that disc's entry |
| ScriptTable.AppendCustomDiscs | music_disc_generator.py:602-634 | the loop appends the entries of the accepted discs in order |
| ScriptTable.BuildDiscScript | music_disc_generator.py:389-647 | the table is rebuilt from scratch: fixed and file artists, the vanilla discs, then the accepted discs |
| ScriptTable.VanillaArtistsResolve | music_disc_generator.py:403-599 | each vanilla entry names a fixed artist, at full volume |
| ScriptTable.CustomArtistResolves | music_disc_generator.py:765-774 | a disc whose matching file holds ` - ` names an artist key that the table defines |
| ScriptTable.UnknownArtistIsNotFixed | music_disc_generator.py:403-419 | `Unknown_Artist` is not defined by the fixed artists |
| ScriptTable.EntryKeysDistinct | music_disc_generator.py:428-634 | with distinct disc names no two entries of the table share a key |
| ScriptTable.ScriptKeyInjective | music_disc_generator.py:626 | different discs get different table keys |
| ScriptTable.VanillaKeysDistinct | music_disc_generator.py:428-599 | the vanilla keys are pairwise distinct |
| ScriptTable.VanillaIsNotScriptKey | music_disc_generator.py:428-599 | no vanilla key is a generated key |
| ScriptTable.GeneratedItemsHaveNoEntry | music_disc_generator.py:626 | the `mymusic:` item ids never appear as `my_music_disc:` table keys |
| Generator.SoundNameRoundTrip | music_disc_generator.py:361-363 | the cleanup derives `n` back from `n.ogg` when `n` is not empty |
| Generator.EmptyNameSoundIsOrphan | music_disc_generator.py:361-363 | `.ogg` of the empty name has no stem, so the cleanup deletes it |
| Generator.TextureNameRoundTrip | music_disc_generator.py:369-371 | the cleanup derives `n` back from `music_disc_n.png` for plain names |
| Generator.ItemNameRoundTrip | music_disc_generator.py:377-379 | the cleanup derives `n` back from `music_disc_n.item.json` for plain names |
| Generator.DoubledPrefixTextureIsMisread | music_disc_generator.py:370 | a name starting with `music_disc_` loses that part too when read back from its texture |
| Generator.DoubledPrefixItemIsMisread | music_disc_generator.py:378 | the same for item files |
| Generator.Suffix | music_disc_generator.py:79 | `PurePath.suffix`: stem and suffix rebuild the name |
| Generator.Mp3Files | music_disc_generator.py:75-92 | the named file if it exists with suffix `.mp3` in any case; otherwise every `*.mp3` file |
| Generator.Mp3Names | music_disc_generator.py:762 | the names of the `*.mp3` files |
| Generator.LoadChecksums | music_disc_generator.py:142-150 | a missing or unreadable cache is empty |
| Generator.Conversion | music_disc_generator.py:160-195 | succeeds exactly when the `.ogg` file is up to date or the transcoding succeeds; success leaves it up to date; failure changes nothing; no sound file is lost |
| Generator.Discs | music_disc_generator.py:704-709 | one disc per file, in order, named by the file's identifier |
| Generator.ProcessStep | music_disc_generator.py:724-726 | the accepted names grow by at most the disc's name, at the end |
| Generator.Processed | music_disc_generator.py:704-726 | after `n` discs at most `n` names are accepted |
| Generator.ProcessedFiles | music_disc_generator.py:704-735 | at most one accepted name per file |
| Generator.AcceptanceRule | music_disc_generator.py:724-726 | disc `i` is appended exactly when its `.ogg` file is up to date after the earlier discs, or its transcoding succeeds |
| Generator.ProcessedPrefix | music_disc_generator.py:704-726 | the names accepted from a prefix of the files begin the names accepted from all of them, so acceptance follows file order |
| Generator.AcceptedNamesFromDiscs | music_disc_generator.py:704-726 | every accepted name is some disc's name and its `.ogg` file exists afterwards |
| Generator.TranscodedIsAccepted | music_disc_generator.py:704-726 | a file whose transcoding succeeds is accepted, whatever the other files |
| Generator.Project.ConvertMp3ToOgg | music_disc_generator.py:160-195 | an up-to-date cache skips the conversion with success; otherwise only a successful transcode writes the `.ogg` file and records its checksum; success leaves the cache up to date |
| Generator.Project.ProcessFile | music_disc_generator.py:709-730 | item file written, accepted exactly when up to date or transcoded, artwork written when extracted |
| Generator.Project.ProcessNext | music_disc_generator.py:704-731 | the new project state and names are one `Pass` of the file's disc: the `ProcessStep` outcome for the sound files, checksum cache and names, the item file written, the texture written when artwork is extracted, nothing else changed |
| Generator.Project.ProcessAll | music_disc_generator.py:704-735 | the accepted names are those of `ProcessedFiles`; the new project state is `ProcessedState`: sound files and checksum cache of `ProcessedFiles`, item files of `ItemsWritten`, textures of `ArtworkWritten` over the files' discs, documents untouched; accepted discs are identifiers of the files, each with its sound and item file |
| Generator.ItemsWrittenFiles | music_disc_generator.py:714-721 | after the loop every disc has its item file, no other item file is new, and the last disc's file holds its descriptor |
| Generator.ArtworkWrittenFiles | music_disc_generator.py:728-730 | after the loop a disc has a texture file when its artwork can be extracted, and no other texture file is new |
| Generator.PassOnParts | music_disc_generator.py:714-730 | one pass touches only the sound files, checksum cache, names, item files and textures, each as its own step says |
| Generator.PassesApart | music_disc_generator.py:704-735 | the loop, taken apart: sounds, cache and names as `Processed`, items as `ItemsWritten`, textures as `ArtworkWritten`, documents as before |
| Generator.LoopOutcome | music_disc_generator.py:704-735 | the passes over all files end in `ProcessedState` with the names of `ProcessedFiles`, which are identifiers of the files with their sound and item files |
| Generator.Project.UpdateConfigurations | music_disc_generator.py:737-748 | `Configured`: a present `jukebox.json` gets `CustomDiscValues` of its old list; present sound definitions and texture data satisfy every clause of their reconcilers; absent ones and every file and cache are untouched |
| Generator.Project.CleanupOldFiles | music_disc_generator.py:356-387 | `CleanedUp`: exactly the orphan sound, texture and item files go; sound definitions lose their stale keys and have none left; `musicDiscs.js` is `RebuiltScript` from the sound files that remain; checksum cache, `jukebox.json` and texture data are untouched |
| Generator.Project.UpdateMusicDiscsJs | music_disc_generator.py:389-647 | a missing `musicDiscs.js` stays missing; any other is replaced by the table built from scratch, with one entry per vanilla disc and per given disc |
| Generator.Project.DeleteOrphanSounds | music_disc_generator.py:360-365 | deletes exactly the `.ogg` files whose stem is not current |
| Generator.Project.DeleteOrphanTextures | music_disc_generator.py:368-373 | deletes exactly the `music_disc_*.png` files whose name is not current |
| Generator.Project.DeleteOrphanItems | music_disc_generator.py:376-381 | deletes exactly the `music_disc_*.item.json` files whose name is not current |
| Generator.Project.ProcessMp3Files | music_disc_generator.py:684-757 | without ffmpeg or files the whole project state is unchanged. Otherwise the accepted discs are those of `ProcessedFiles`, and the final state is `Concluded` from `ProcessedState`: every file, document, the checksum cache and `musicDiscs.js` as stated there; no orphan file remains; accepted discs keep their sound and item files |
| Generator.Project.ProcessSelected | music_disc_generator.py:704-752 | the same, for a non-empty list of files: `Concluded` from `ProcessedState` |
| Generator.Project.Conclude | music_disc_generator.py:737-752 | `Concluded`: configuration updated only when a disc was accepted; with none, every `record.` definition goes; cleanup always runs; nothing stale or orphaned remains; `musicDiscs.js` rebuilt unless missing; what survives |
| Generator.ConcludedSteps | music_disc_generator.py:737-752 | the updates (when a disc was accepted) followed by the cleanup give `Concluded` |
| Generator.UpdatedHasNoStaleRecords | music_disc_generator.py:649-682 | sound definitions just updated for identifier names hold no stale key, so the cleanup leaves them alone |
| Generator.AcceptedAreIdentifiers | music_disc_generator.py:708 | names derived from some of the files are identifiers of those files |
| Generator.AcceptedFilesSurvive | music_disc_generator.py:356-381 | the cleanup keeps an accepted disc's sound (non-empty name) and item file (plain name) |
| Generator.AcceptedDefinitionsSurvive | music_disc_generator.py:660-667 | an accepted disc's `record.` key is never stale |
| Blocks.WithState | BP/scripts/jukebox/jukeboxManager.js:370 | succeeds exactly when the state allows the value; sets it, changes no other state, keeps validity |
| Blocks.SetEach | BP/scripts/jukebox/jukeboxManager.js:380-385 | a guarded loop sets each listed state that allows the value and leaves the rest |
| Blocks.SetEachUntil | BP/scripts/jukebox/jukeboxManager.js:371-373 | an unguarded loop completes exactly when every state allows the value, and then equals the guarded loop |
| Blocks.Cleared | BP/scripts/jukebox/jukeboxManager.js:369-374 | `clearDisc` completes exactly when `playing_disc` allows false and every state allows `"none"` |
| Blocks.JukeboxBlock.SetState | BP/scripts/jukebox/jukeboxManager.js:370 | reports whether `withState` succeeded and applies it only then |
| Blocks.ClearDisc | BP/scripts/jukebox/jukeboxManager.js:369-374 | the block ends as `Cleared` says, stopping at the first refusal |
| Blocks.UntilStops | BP/scripts/jukebox/jukeboxManager.js:371-373 | after a refusal the rest of the loop has no effect |
| Blocks.ClearedHasNoDisc | BP/scripts/jukebox/jukeboxManager.js:369-374 | after a completed `clearDisc`, `playing_disc` is false and no disc is reported |
| Blocks.FirstSet | BP/scripts/jukebox/jukeboxManager.js:350-355 | the first state whose value is not `"none"` |
| Blocks.PlayingDisc | BP/scripts/jukebox/jukeboxManager.js:348-358 | no disc exactly when every state holds `"none"`; otherwise a state's non-`"none"` value |
| Blocks.GetPlayingDisc | BP/scripts/jukebox/jukeboxManager.js:348-358 | the loop with its `break` returns that disc |
| Blocks.OnlyOneSet | BP/scripts/jukebox/jukeboxManager.js:348-358 | with every other state `"none"`, the disc is the value of the one remaining state |
| Blocks.FeedsFrom | BP/scripts/jukebox/jukeboxManager.js:171-187 | a side exactly for facings 0, 2, 3, 4, 5 |
| Blocks.FeedingSides | BP/scripts/jukebox/jukeboxManager.js:139-193 | the sides whose hopper points into the jukebox, in order |
| Blocks.FeedingSidesAscending | BP/scripts/jukebox/jukeboxManager.js:138-139 | filtering keeps the order of the directions |
| Blocks.FeedingHoppers | BP/scripts/jukebox/jukeboxManager.js:135-195 | every connected hopper is one of the blocks around the jukebox |
| Blocks.GetConnectedHoppers | BP/scripts/jukebox/jukeboxManager.js:135-195 | the loop returns the hoppers of exactly those sides, in that order |
| Blocks.FeedingSidesSnoc | BP/scripts/jukebox/jukeboxManager.js:139-193 | one more side appends its hopper exactly when it feeds the jukebox |
| Blocks.ConnectedHoppers | BP/scripts/jukebox/jukeboxManager.js:135-195 | at most five hoppers, a side is included exactly when its hopper feeds the jukebox, order Up, North, South, East, West |
| Blocks.ConnectedInventories | BP/scripts/jukebox/jukeboxManager.js:135-195 | the connected hoppers' containers are among the surrounding blocks' |
| Blocks.FindDisc | BP/scripts/jukebox/jukeboxManager.js:64-86 | the first slot in hopper-then-slot order holding a known disc, or none when no slot does |
| Blocks.EmptySlots | BP/scripts/jukebox/jukeboxManager.js:54 | zero exactly when every slot is full |
| Blocks.FirstEmpty | BP/scripts/jukebox/jukeboxManager.js:57 | the first empty slot, none exactly when there is no empty slot |
| Blocks.AddItem | BP/scripts/jukebox/jukeboxManager.js:57 | the item goes to the first empty slot and nothing else changes |
| Blocks.OutputHopper | BP/scripts/jukebox/jukeboxManager.js:196-207 | the block below exactly when it is a hopper |
| LiveJukebox.Route | BP/scripts/jukebox/jukeboxManager.js:388-415 | `my_music_disc:` to `custom_disc_1`; the 15 listed vanilla discs to `vanilla_disc_1`; other `minecraft:` ids to `vanilla_disc_2`; other ids nowhere |
| LiveJukebox.AfterSetDisc | BP/scripts/jukebox/jukeboxManager.js:375-416 | `playing_disc` true, the routed state holds the id when allowed, other disc states `"none"` when allowed |
| LiveJukebox.SetDisc | BP/scripts/jukebox/jukeboxManager.js:375-416 | the unguarded first step decides completion; the block ends as `AfterSetDisc` says |
| LiveJukebox.SetDiscPlays | BP/scripts/jukebox/jukeboxManager.js:375-416 | afterwards the disc reported is the id when it was routed to a state that allows it, and none otherwise |
| LiveJukebox.JukeboxManager.constructor | BP/scripts/jukebox/jukeboxManager.js:26 | no jukebox is recorded as playing |
| LiveJukebox.JukeboxManager.PlayDisc | BP/scripts/jukebox/jukeboxManager.js:208-221 | the jukebox is recorded as playing, then `setDisc` runs |
| LiveJukebox.JukeboxManager.ResetUnrecorded | BP/scripts/jukebox/jukeboxManager.js:35-43 | an unrecorded jukebox gets `playing_disc` false |
| LiveJukebox.JukeboxManager.OutputDisc | BP/scripts/jukebox/jukeboxManager.js:44-59 | `OutputDone`: without a hopper with a free slot, or for a non-item id, nothing changes; otherwise the disc goes to the first empty slot and the jukebox is cleared |
| LiveJukebox.JukeboxManager.TakeDisc | BP/scripts/jukebox/jukeboxManager.js:60-86 | `TookDisc`: takes at most one disc, the first known one; it plays, and its slot is emptied only when `setDisc` did not throw; no other slot changes |
| LiveJukebox.JukeboxManager.Intake | BP/scripts/jukebox/jukeboxManager.js:60-87 | `TookDisc` on the hoppers that feed the jukebox (no hopper: nothing taken, nothing changes); every other container around or below is unchanged |
| LiveJukebox.JukeboxManager.MoveDisc | BP/scripts/jukebox/jukeboxManager.js:44-87 | a jukebox holding a disc has the `OutputDone` effect for that disc, takes nothing and leaves the other containers alone; an empty one has the `Intake` effect |
| LiveJukebox.JukeboxManager.Tick | BP/scripts/jukebox/jukeboxManager.js:29-88 | no player: nothing; playing: only the mark check. Holding a disc: the `OutputDone` effect for that disc. Empty: the `TakeDisc` outcome on the connected hoppers (`taken`); no other container changes |
| LiveJukebox.JukeboxManager.Interact | BP/scripts/jukebox/jukeboxManager.js:93-134 | an empty jukebox plays a known held disc and empties the hand outside creative; a full one drops its disc, clears, and loses its mark |
| TemplateJukebox.States | template/BP/scripts/jukebox/jukeboxManager.dist.js:13-16 | the two vanilla states first, then the custom states |
| TemplateJukebox.AfterSetDisc | template/BP/scripts/jukebox/jukeboxManager.dist.js:332-341 | each state that allows the id holds it, the others keep their value, `playing_disc` true when there is a state |
| TemplateJukebox.SetDisc | template/BP/scripts/jukebox/jukeboxManager.dist.js:332-341 | completes exactly when `playing_disc` allows true or there are no states; the block ends as `AfterSetDisc` says |
| TemplateJukebox.AfterSetDiscSnoc | template/BP/scripts/jukebox/jukeboxManager.dist.js:334-340 | one more pass sets `playing_disc`, then offers the id to the next state |
| TemplateJukebox.SetDiscPlays | template/BP/scripts/jukebox/jukeboxManager.dist.js:332-341 | on an empty jukebox, the disc reported afterwards is the id exactly when some state allows it |
| TemplateJukebox.JukeboxManager.constructor | template/BP/scripts/jukebox/jukeboxManager.dist.js:31 | no jukebox is recorded as playing |
| TemplateJukebox.JukeboxManager.PlayDisc | template/BP/scripts/jukebox/jukeboxManager.dist.js:224-231 | the jukebox is recorded as playing, then `setDisc` runs |
| TemplateJukebox.JukeboxManager.OutputDisc | template/BP/scripts/jukebox/jukeboxManager.dist.js:52-69 | `OutputDone`: with a hopper with a free slot the jukebox is always cleared and the item is added only for a string id; without one nothing changes |
| TemplateJukebox.JukeboxManager.TakeDisc | template/BP/scripts/jukebox/jukeboxManager.dist.js:70-97 | `TookDisc`: takes at most one disc, the first known one; its slot is emptied only when `setDisc` did not throw; no other slot changes |
| TemplateJukebox.JukeboxManager.Intake | template/BP/scripts/jukebox/jukeboxManager.dist.js:70-97 | as in the live manager |
| TemplateJukebox.JukeboxManager.MoveDisc | template/BP/scripts/jukebox/jukeboxManager.dist.js:52-97 | as in the live manager, with the template's `OutputDone` effect |
| TemplateJukebox.JukeboxManager.Tick | template/BP/scripts/jukebox/jukeboxManager.dist.js:36-98 | the same branches as the live manager, with the template's `OutputDone` effect |
| TemplateJukebox.JukeboxManager.Eject | template/BP/scripts/jukebox/jukeboxManager.dist.js:129-143 | drops an item only for a string id, always clears, deletes the mark once the clearing completed |
| TemplateJukebox.JukeboxManager.Interact | template/BP/scripts/jukebox/jukeboxManager.dist.js:105-144 | an empty jukebox plays a known held disc; a full one ejects |

## Left out

- Process calls are parameters. The transcoder's availability is a flag; `transcode`, the artwork extractor, the MD5 `hash` and the duration `probe` are functions of the file contents or name.
- File reads and writes, JSON (de)serialisation and console output are left out. Each document is a value that is Missing, Unreadable or Present. Key order in JSON objects and the pretty-printed text of `musicDiscs.js` are not modelled: the table is a list of typed entries.
- ScriptTable.CustomArtistResolves: shows only that the artist key is in the table, not that the generated module parses. The script refers to the artist as the member access `artistNames.<key>`, and it writes titles and artist names between double quotes without escaping. So a key that is not a JavaScript identifier (`AC.DC`, `2Pac`, a key holding `'`, `(` or `!`) yields an invalid module. So does a `"` in a title or an artist name. The table is kept as typed entries, not as emitted text.
- ScriptTable.TickLength: the `int(duration * 20)` conversion is floating point, so the probe returns whole ticks directly.
- `_extract_artwork`'s fallback image and its ffmpeg variants are left out. They collapse into one optional picture.
- Exceptions inside the per-file loop of `process_mp3_files` are left out. The modelled steps cannot fail other than by returning false.
- Text.IsSpace: Python's `str.isspace` set is modelled exactly. Case mapping is modelled only for ASCII letters. `str.lower()` and `str.title()` on other scripts are left out.
- Generator.Project.ProcessMp3Files: the run summary and printed lists are left out.
- Timers, sounds, particles, action-bar titles, note particles, random impulses and player look-ups are left out. `playDisc` timeouts, `startSoundLoop`, `playNotes` and `stopSoundInRadius` are game effects with no state in the model. Whether a player is within 40 blocks is a parameter of `Tick`.
- The `data` part of `getPlayingDisc`'s result (`musicDiscs[data]`) is left out. A disc is its id.
- LiveJukebox.JukeboxManager.Interact: assumes a disc in the jukebox is a key of `musicDiscs`. Otherwise `disc.data.sound` throws before the drop, which is not modelled.
- LiveJukebox.JukeboxManager.PlayDisc: the `playSound` call is inside `try { } catch { }` and has no state, so it is left out.
- TemplateJukebox.JukeboxManager.PlayDisc: the unguarded `playSound` is assumed not to throw.
- Blocks.IsItemId: which ids the game's item registry accepts is not modelled. Any non-empty string is taken as an item id.
- TemplateJukebox.JukeboxManager.constructor: the custom disc states that the template's `{{CUSTOM_DISC_STATES}}` placeholders stand for are a constructor parameter. The code that fills the placeholders is not part of this model, and neither is any splitting of discs over several states.
- `breakJukebox`, `getInventory` lookups through components, and the `getBlock` exceptions are left out. A neighbour that `getBlock` cannot return is absent from the `around` map.
- `BP/scripts/jukebox/old.js`, `main.js`, `blockComponents.js` and the `musicDiscs` data file are not part of this model. The set of `musicDiscs` keys is the `known` parameter.

## Quirks of the code

- `"A - Song1.mp3"` becomes `a_song1`: the artist stays in the identifier (`SnakeCase.ArtistStaysInIdentifier`).
- Item ids use the `mymusic:` namespace. The `jukebox.json` and `item_texture.json` filters remove only `my_music_disc:` and `moremusicdiscs:` entries, so stale `mymusic:` entries are never removed there (`Documents.GeneratedIdsAreNeverFiltered`).
- `musicDiscs.js` keys are `my_music_disc:music_disc_<name>`, which are not the item ids the generator writes (`ScriptTable.GeneratedItemsHaveNoEntry`).
- Deriving a name with `replace` removes every occurrence of the prefix. So:
  - `record.record.a` survives as if it were `a` (`Documents.DoubledRecordKeySurvives`);
  - a disc whose name starts with `music_disc_` loses its texture and item file in the cleanup (`Generator.DoubledPrefixItemIsMisread`).
- A disc whose name is empty loses its `.ogg` file in the cleanup (`Generator.EmptyNameSoundIsOrphan`).
- A disc without ` - ` in its file name refers to `Unknown_Artist`, which the table does not define (`ScriptTable.UnknownArtistIsNotFixed`).
- Without ffmpeg or without source files, `process_mp3_files` returns before the cleanup.
- In both managers, `getPlayingDisc` treats a state the block lacks (`undefined`) as a disc.
- The template's `setDisc` does not reset the disc states first.
- No code splits discs over several block states, so the disc states are a fixed list.
