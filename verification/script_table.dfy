/** The disc table the generator writes into `musicDiscs.js`: the artist names, the vanilla discs
    and one entry per accepted disc. The model is the table itself, not its JavaScript text. */
module ScriptTable {
  import opened Text
  import opened Artists
  import Documents

  /** `sound` of an entry; the volume is in hundredths. */
  datatype Sound = Sound(volumePercent: nat, id: string, tickLength: nat)

  /** One `musicDiscs` entry: its key, `musicName`, the `artistNames` key it refers to, `sound`. */
  datatype DiscEntry = DiscEntry(key: string, musicName: string, artist: string, sound: Sound)

  datatype DiscScript = DiscScript(artistNames: map<string, string>, discs: seq<DiscEntry>)

  /** The artists the file always starts with. */
  const FixedArtists: map<string, string> := map[
    "C418" := "C418",
    "Lena_Raine" := "Lena Raine",
    "Samuel_Aberg" := "Samuel Åberg",
    "Aaron_Cherof" := "Aaron Cherof",
    "Laudividni" := "Laudividni",
    "Firch" := "Firch",
    "The_Bling_Bling_Cheese" := "The Bling-Bling Cheese",
    "Someone_zy2sh" := "@Someone-zy2sh",
    "The_Musical_Sparrow" := "The Musical Sparrow",
    "T_en_M" := "T_en_M",
    "Naps_the_Block_Music" := "Naps the Block Music",
    "Thaetaa_Terraainn" := "Thaetaa-Terrainn",
    "Doom_On_A_Spoon" := "Doom_On_A_Spoon",
    "Gamingtunes" := "Gamingtunes",
    "Gwyd" := "Gwyd",
    "Antimo_And_Wells" := "Antimo & Wells"]

  function VanillaDisc(name: string, musicName: string, artist: string, ticks: nat): DiscEntry {
    DiscEntry("minecraft:music_disc_" + name, musicName, artist, Sound(100, "record." + name, ticks))
  }

  /** The vanilla discs, in the order they are written. */
  const VanillaDiscs: seq<DiscEntry> := [
    VanillaDisc("13", "13", "C418", 3580),
    VanillaDisc("cat", "cat", "C418", 3700),
    VanillaDisc("blocks", "blocks", "C418", 6960),
    VanillaDisc("chirp", "chirp", "C418", 3740),
    VanillaDisc("far", "far", "C418", 3540),
    VanillaDisc("mall", "mall", "C418", 3980),
    VanillaDisc("mellohi", "mellohi", "C418", 1980),
    VanillaDisc("stal", "stal", "C418", 3060),
    VanillaDisc("strad", "strad", "C418", 3800),
    VanillaDisc("ward", "ward", "C418", 5080),
    VanillaDisc("11", "11", "C418", 1460),
    VanillaDisc("wait", "wait", "C418", 4800),
    VanillaDisc("otherside", "otherside", "Lena_Raine", 3960),
    VanillaDisc("5", "5", "Samuel_Aberg", 3600),
    VanillaDisc("pigstep", "Pigstep", "Lena_Raine", 3000),
    VanillaDisc("relic", "Relic", "Aaron_Cherof", 4400),
    VanillaDisc("creator", "Creator", "Lena_Raine", 3560),
    VanillaDisc("creator_music_box", "Creator (Music Box)", "Lena_Raine", 1500),
    VanillaDisc("precipice", "Precipice", "Aaron_Cherof", 6000)]

  const DefaultTickLength: nat := 3000

  /** The key prefix of the generated entries. */
  const ScriptDiscPrefix: string := "my_music_disc:music_disc_"

  function ScriptKey(discName: string): string {
    ScriptDiscPrefix + discName
  }

  /** The length in ticks: what the probe reports for the disc's `.ogg` file when that file
      exists and the probe succeeds, otherwise 3000. */
  function TickLength(discName: string, oggFiles: set<string>, probe: string -> Option<nat>): (ticks: nat)
    ensures discName + ".ogg" !in oggFiles ==> ticks == DefaultTickLength
  {
    var ogg := discName + ".ogg";
    if ogg in oggFiles && probe(ogg).Some? then probe(ogg).value else DefaultTickLength
  }

  /** The entry of an accepted disc. */
  function CustomDisc(discName: string, files: seq<string>, oggFiles: set<string>, probe: string -> Option<nat>): (e: DiscEntry)
    ensures e.key == ScriptKey(discName)
    ensures e.sound.id == Documents.SoundKey(discName) && e.sound.volumePercent == 75
  {
    var (artist, title) := ArtistAndTitle(discName, files);
    DiscEntry(ScriptKey(discName), title, artist, Sound(75, "record." + discName, TickLength(discName, oggFiles, probe)))
  }

  /** The entries of the accepted discs, in order. */
  function CustomDiscs(discNames: seq<string>, files: seq<string>, oggFiles: set<string>, probe: string -> Option<nat>)
    : (discs: seq<DiscEntry>)
    ensures |discs| == |discNames|
    ensures forall i :: 0 <= i < |discNames| ==> discs[i] == CustomDisc(discNames[i], files, oggFiles, probe)
  {
    seq(|discNames|, i requires 0 <= i < |discNames| => CustomDisc(discNames[i], files, oggFiles, probe))
  }

  /** One more disc appends its entry. */
  lemma CustomDiscsSnoc(discNames: seq<string>, i: nat, files: seq<string>, oggFiles: set<string>, probe: string -> Option<nat>)
    requires i < |discNames|
    ensures CustomDiscs(discNames[..i + 1], files, oggFiles, probe)
      == CustomDiscs(discNames[..i], files, oggFiles, probe) + [CustomDisc(discNames[i], files, oggFiles, probe)]
  {
    var longer := CustomDiscs(discNames[..i + 1], files, oggFiles, probe);
    var shorter := CustomDiscs(discNames[..i], files, oggFiles, probe);
    forall k | 0 <= k < i ensures longer[k] == shorter[k] {
      assert discNames[..i + 1][k] == discNames[..i][k];
    }
  }

  /** The loop that assigns the artists of the `.mp3` files after the fixed ones: on a clash the
      assigned name wins. */
  method AssignArtists(fixed: map<string, string>, artists: map<string, string>) returns (names: map<string, string>)
    ensures names == fixed + artists
  {
    names := fixed;
    var pending := artists.Keys;
    while pending != {}
      invariant pending <= artists.Keys
      invariant names == fixed + (artists - pending)
      decreases |pending|
    {
      var key :| key in pending;
      names := names[key := artists[key]];
      pending := pending - {key};
    }
  }

  /** The entry of one accepted disc, as the loop body builds it. */
  method BuildCustomDisc(discName: string, files: seq<string>, oggFiles: set<string>, probe: string -> Option<nat>)
    returns (entry: DiscEntry)
    ensures entry == CustomDisc(discName, files, oggFiles, probe)
  {
    var artist, title := GetArtistAndTitle(discName, files);
    var ogg := discName + ".ogg";
    var ticks := DefaultTickLength;
    if ogg in oggFiles {
      var probed := probe(ogg);
      if probed.Some? {
        ticks := probed.value;
      }
    }
    entry := DiscEntry(ScriptKey(discName), title, artist, Sound(75, "record." + discName, ticks));
  }

  /** The loop that appends one entry per accepted disc, in order. */
  method AppendCustomDiscs(base: seq<DiscEntry>, discNames: seq<string>, files: seq<string>, oggFiles: set<string>, probe: string -> Option<nat>)
    returns (discs: seq<DiscEntry>)
    ensures discs == base + CustomDiscs(discNames, files, oggFiles, probe)
  {
    discs := base;
    for i := 0 to |discNames|
      invariant discs == base + CustomDiscs(discNames[..i], files, oggFiles, probe)
    {
      var entry := BuildCustomDisc(discNames[i], files, oggFiles, probe);
      discs := discs + [entry];
      CustomDiscsSnoc(discNames, i, files, oggFiles, probe);
    }
    assert discNames[..|discNames|] == discNames;
  }

  /** `_update_music_discs_js` on an existing file: the table is rebuilt from scratch, the
      `.mp3` artists after the fixed ones, the vanilla discs before the accepted ones. */
  method BuildDiscScript(discNames: seq<string>, files: seq<string>, oggFiles: set<string>, probe: string -> Option<nat>)
    returns (script: DiscScript)
    ensures script.artistNames == FixedArtists + ArtistsOf(files)
    ensures script.discs == VanillaDiscs + CustomDiscs(discNames, files, oggFiles, probe)
  {
    var artistsDict := CollectArtists(files);
    var names := AssignArtists(FixedArtists, artistsDict);
    var discs := AppendCustomDiscs(VanillaDiscs, discNames, files, oggFiles, probe);
    script := DiscScript(names, discs);
  }

  /** Every vanilla entry refers to one of the fixed artists. */
  lemma VanillaArtistsResolve(i: nat)
    requires i < |VanillaDiscs|
    ensures VanillaDiscs[i].artist in FixedArtists
    ensures VanillaDiscs[i].sound.volumePercent == 100
  {
    assert "C418" in FixedArtists && "Lena_Raine" in FixedArtists;
    assert "Samuel_Aberg" in FixedArtists && "Aaron_Cherof" in FixedArtists;
  }

  /** The artist of an accepted disc whose first matching file holds the separator is a key of
      the `.mp3` artists table. Whether the emitted member access `artistNames.<artist>` is
      valid JavaScript depends on the key's spelling, which the table does not record. */
  lemma CustomArtistResolves(discName: string, files: seq<string>, i: nat)
    requires FirstMatch(discName, files) == Some(i)
    requires Contains(Stem(files[i]), Separator)
    ensures ArtistAndTitle(discName, files).0 in ArtistsOf(files)
  {
    ArtistAndTitleAt(discName, files, i);
    ArtistEntryMatchesStem(files[i]);
    var key := ArtistEntry(files[i]).value.0;
    ArtistsOfKeys(files, key);
  }

  /** Without such a file the entry refers to `Unknown_Artist`, which is not a fixed artist:
      unless an `.mp3` file names that artist, the entry's `artist` is undefined. */
  lemma UnknownArtistIsNotFixed()
    ensures UnknownArtist !in FixedArtists
  {
    assert UnknownArtist[0] == 'U';
  }

  /** No two entries of a rebuilt table share a key when the disc names are distinct. */
  lemma EntryKeysDistinct(discNames: seq<string>, discs: seq<DiscEntry>, i: nat, j: nat)
    requires forall a, b :: 0 <= a < b < |discNames| ==> discNames[a] != discNames[b]
    requires |discs| == |VanillaDiscs| + |discNames|
    requires discs[..|VanillaDiscs|] == VanillaDiscs
    requires forall k :: 0 <= k < |discNames| ==> discs[|VanillaDiscs| + k].key == ScriptKey(discNames[k])
    requires i < j < |discs|
    ensures discs[i].key != discs[j].key
  {
    var v := |VanillaDiscs|;
    if j < v {
      assert discs[i] == VanillaDiscs[i] && discs[j] == VanillaDiscs[j];
      VanillaKeysDistinct(i, j);
    } else if i < v {
      assert discs[i] == VanillaDiscs[i];
      VanillaIsNotScriptKey(i, discNames[j - v]);
    } else {
      ScriptKeyInjective(discNames[i - v], discNames[j - v]);
    }
  }

  lemma ScriptKeyInjective(a: string, b: string)
    requires a != b
    ensures ScriptKey(a) != ScriptKey(b)
  {
    var p := ScriptDiscPrefix;
    assert ScriptKey(a) == p + a && ScriptKey(b) == p + b;
    assert a == (p + a)[|p|..] && b == (p + b)[|p|..];
  }

  lemma VanillaKeysDistinct(i: nat, j: nat)
    requires i < j < |VanillaDiscs|
    ensures VanillaDiscs[i].key != VanillaDiscs[j].key
  {
    var p := "minecraft:music_disc_";
    var names := ["13", "cat", "blocks", "chirp", "far", "mall", "mellohi", "stal", "strad", "ward",
      "11", "wait", "otherside", "5", "pigstep", "relic", "creator", "creator_music_box", "precipice"];
    assert forall k :: 0 <= k < |VanillaDiscs| ==> VanillaDiscs[k].key == p + names[k];
    assert names[i] == (p + names[i])[|p|..] && names[j] == (p + names[j])[|p|..];
  }

  lemma VanillaIsNotScriptKey(i: nat, discName: string)
    requires i < |VanillaDiscs|
    ensures VanillaDiscs[i].key != ScriptKey(discName)
  {
    assert VanillaDiscs[i].key[1] == 'i';
    assert ScriptKey(discName)[1] == 'y';
  }

  /** The table's keys use `my_music_disc:` while the items the generator writes are
      `mymusic:` items, so no generated item has an entry in this table. */
  lemma GeneratedItemsHaveNoEntry(discName: string, other: string)
    ensures Documents.ItemId(discName) != ScriptKey(other)
  {
    assert Documents.ItemId(discName)[2] == 'm';
    assert ScriptKey(other)[2] == '_';
  }
}
