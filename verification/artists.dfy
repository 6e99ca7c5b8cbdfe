/** Artist keys and titles read from the names of the source files
    (`_get_artist_and_title_from_mp3` and `_get_artists_from_mp3_files`). */
module Artists {
  import opened Text
  import opened SnakeCase

  /** The separator between artist and title in a file name. */
  const Separator: string := " - "

  const UnknownArtist: string := "Unknown_Artist"

  /** Spaces, `&` and `-` become `_`, in that order. */
  function Underscored(name: string): string {
    ReplaceAll(ReplaceAll(ReplaceAll(name, " ", "_"), "&", "_"), "-", "_")
  }

  /** The artist key of an (already stripped) artist name. */
  function ArtistKeyOf(name: string): string {
    CollapseRuns(Underscored(name), IsUnderscore)
  }

  /** The `while "__" in key: key = key.replace("__", "_")` loop: it squeezes every run of
      underscores to one. */
  method SqueezeUnderscores(s: string) returns (r: string)
    ensures r == CollapseRuns(s, IsUnderscore)
    ensures !Contains(r, "__")
  {
    r := s;
    while Contains(r, "__")
      invariant CollapseRuns(r, IsUnderscore) == CollapseRuns(s, IsUnderscore)
      decreases |r|
    {
      ReplaceDoubleUnderscoreShrinks(r);
      ReplaceDoubleUnderscorePreservesCollapse(r);
      r := ReplaceAll(r, "__", "_");
    }
    ContainsDoubleUnderscore(r);
    CollapseRunsFixed(r, IsUnderscore);
  }

  /** The artist key of the raw artist part of a file name. */
  method ArtistKey(artistPart: string) returns (key: string)
    ensures key == ArtistKeyOf(Strip(artistPart))
  {
    var name := Strip(artistPart);
    key := SqueezeUnderscores(Underscored(name));
  }

  /** An artist key holds no space, `&`, `-` or `__`; every other character comes from the name. */
  lemma ArtistKeyShape(name: string)
    ensures var k := ArtistKeyOf(name);
      && ' ' !in k && '&' !in k && '-' !in k
      && NoDoubleUnderscore(k)
      && forall c :: c in k ==> c == '_' || c in name
  {
    var s1 := ReplaceAll(name, " ", "_");
    var s2 := ReplaceAll(s1, "&", "_");
    var s3 := ReplaceAll(s2, "-", "_");
    var k := CollapseRuns(s3, IsUnderscore);
    forall c | true
      ensures c in s3 ==> c == '_' || c in name
      ensures ' ' !in s3 && '&' !in s3 && '-' !in s3
    {
      ReplaceAllChar(name, ' ', "_", c);
      ReplaceAllChar(s1, '&', "_", c);
      ReplaceAllChar(s2, '-', "_", c);
      ReplaceAllChar(s1, '&', "_", ' ');
      ReplaceAllChar(s2, '-', "_", ' ');
      ReplaceAllChar(s2, '-', "_", '&');
    }
    forall c | c in k ensures c == '_' || c in s3 {
      CollapseRunsChars(s3, IsUnderscore, c);
    }
    CollapseRunsNoDouble(s3, IsUnderscore);
  }

  /** Python's `str.title()` on ASCII text: a letter is upper-cased when it starts a word (no
      letter before it) and lower-cased otherwise; other characters are kept. */
  function TitleCase(s: string): (r: string)
    ensures |r| == |s|
    ensures forall i :: 0 <= i < |s| ==>
      r[i] == if i > 0 && IsAsciiLetter(s[i - 1]) then LowerChar(s[i]) else UpperChar(s[i])
  {
    TitleFrom(s, false)
  }

  function TitleFrom(s: string, afterLetter: bool): (r: string)
    ensures |r| == |s|
    ensures forall i :: 0 <= i < |s| ==>
      r[i] == if (if i == 0 then afterLetter else IsAsciiLetter(s[i - 1])) then LowerChar(s[i]) else UpperChar(s[i])
  {
    if s == [] then []
    else [if afterLetter then LowerChar(s[0]) else UpperChar(s[0])] + TitleFrom(s[1..], IsAsciiLetter(s[0]))
  }

  /** The title used when no file gives one: `disc_name.replace("_", " ").title()`. */
  function DefaultTitle(discName: string): string {
    TitleCase(ReplaceAll(discName, "_", " "))
  }

  /** A default title has no underscore left. */
  lemma DefaultTitleHasNoUnderscore(discName: string)
    ensures '_' !in DefaultTitle(discName)
  {
    var spaced := ReplaceAll(discName, "_", " ");
    ReplaceAllChar(discName, '_', " ", '_');
    var t := TitleCase(spaced);
    forall i | 0 <= i < |t| ensures t[i] != '_' {
      assert spaced[i] in spaced;
      if i > 0 {
        assert IsAsciiLetter(spaced[i - 1]) || !IsAsciiLetter(spaced[i - 1]);
      }
      assert t[i] == UpperChar(spaced[i]) || t[i] == LowerChar(spaced[i]);
    }
  }

  /** The identifiers of the files, in order. */
  function Identifiers(files: seq<string>): (ids: seq<string>)
    ensures |ids| == |files|
    ensures forall i :: 0 <= i < |files| ==> ids[i] == ToSnakeCase(files[i])
  {
    if files == [] then [] else [ToSnakeCase(files[0])] + Identifiers(files[1..])
  }

  /** Python's `xs.index(x)` when `x` occurs, `None` otherwise. */
  function FirstIndex(x: string, xs: seq<string>): (r: Option<nat>)
    ensures r.Some? ==> r.value < |xs| && xs[r.value] == x
    ensures r.Some? ==> forall j :: 0 <= j < r.value ==> xs[j] != x
    ensures r.None? <==> x !in xs
  {
    if xs == [] then None
    else if xs[0] == x then Some(0)
    else match FirstIndex(x, xs[1..])
      case None => None
      case Some(k) => Some(k + 1)
  }

  /** The index of the first file whose identifier is `discName`. */
  function FirstMatch(discName: string, files: seq<string>): (r: Option<nat>)
    ensures r.Some? ==> r.value < |files| && ToSnakeCase(files[r.value]) == discName
    ensures r.Some? ==> forall j :: 0 <= j < r.value ==> ToSnakeCase(files[j]) != discName
    ensures r.None? <==> forall j :: 0 <= j < |files| ==> ToSnakeCase(files[j]) != discName
  {
    var ids := Identifiers(files);
    var r := FirstIndex(discName, ids);
    assert r.None? <==> forall j :: 0 <= j < |files| ==> ids[j] != discName;
    r
  }

  /** Artist key and stripped title from the stem of a file name that holds the separator. */
  function StemArtistAndTitle(stem: string): Option<(string, string)> {
    match SplitOnce(stem, Separator)
    case None => None
    case Some(parts) => Some((ArtistKeyOf(Strip(parts.0)), Strip(parts.1)))
  }

  /** `_get_artist_and_title_from_mp3`: the first file with the right identifier decides; its
      name gives artist and title when it holds the separator, and the defaults apply otherwise. */
  function ArtistAndTitle(discName: string, files: seq<string>): (string, string) {
    var defaults := (UnknownArtist, DefaultTitle(discName));
    match FirstMatch(discName, files)
    case None => defaults
    case Some(i) =>
      match StemArtistAndTitle(Stem(files[i]))
      case None => defaults
      case Some(pair) => pair
  }

  /** Artist key and title from the stem of the matching file, when it holds the separator. */
  method ParseStem(stem: string) returns (r: Option<(string, string)>)
    ensures r == StemArtistAndTitle(stem)
  {
    r := None;
    if Contains(stem, Separator) {
      var parts := SplitOnce(stem, Separator).value;
      var artist := ArtistKey(parts.0);
      var title := Strip(parts.1);
      r := Some((artist, title));
    }
  }

  /** The loop of `_get_artist_and_title_from_mp3` up to its `break`: the first file whose
      identifier is `discName`. */
  method FindFirstMatch(discName: string, files: seq<string>) returns (found: Option<nat>)
    ensures found == FirstMatch(discName, files)
  {
    var i := 0;
    while i < |files|
      invariant i <= |files|
      invariant forall j :: 0 <= j < i ==> ToSnakeCase(files[j]) != discName
    {
      if ToSnakeCase(files[i]) == discName {
        FirstMatchAt(discName, files, i);
        return Some(i);
      }
      i := i + 1;
    }
    return None;
  }

  method GetArtistAndTitle(discName: string, files: seq<string>) returns (artist: string, title: string)
    ensures (artist, title) == ArtistAndTitle(discName, files)
  {
    artist := UnknownArtist;
    title := DefaultTitle(discName);
    var found := FindFirstMatch(discName, files);
    if found.Some? {
      var parsed := ParseStem(Stem(files[found.value]));
      if parsed.Some? {
        artist, title := parsed.value.0, parsed.value.1;
      }
      ArtistAndTitleAt(discName, files, found.value);
    }
  }

  /** The first file with the identifier is the match. */
  lemma FirstMatchAt(discName: string, files: seq<string>, i: nat)
    requires i < |files| && ToSnakeCase(files[i]) == discName
    requires forall j :: 0 <= j < i ==> ToSnakeCase(files[j]) != discName
    ensures FirstMatch(discName, files) == Some(i)
  {
  }

  lemma ArtistAndTitleAt(discName: string, files: seq<string>, i: nat)
    requires FirstMatch(discName, files) == Some(i)
    ensures var parsed := StemArtistAndTitle(Stem(files[i]));
      ArtistAndTitle(discName, files) == if parsed.Some? then parsed.value else (UnknownArtist, DefaultTitle(discName))
  {
  }

  /** Without a matching file, or when the first matching file has no separator, the artist is
      unknown and the title is the title-cased identifier. */
  lemma DefaultsWithoutSeparator(discName: string, files: seq<string>)
    requires forall j :: 0 <= j < |files| && ToSnakeCase(files[j]) == discName ==>
      !Contains(Stem(files[j]), Separator)
    ensures ArtistAndTitle(discName, files) == (UnknownArtist, DefaultTitle(discName))
  {
  }

  /** With a separator in the first matching file, the title is the stripped text after its first
      separator, and the artist key comes from the stripped text before it. */
  lemma ArtistAndTitleFromName(discName: string, files: seq<string>, i: nat, artistPart: string, titlePart: string)
    requires i < |files| && ToSnakeCase(files[i]) == discName
    requires forall j :: 0 <= j < i ==> ToSnakeCase(files[j]) != discName
    requires Stem(files[i]) == artistPart + Separator + titlePart
    requires forall j :: 0 <= j < |artistPart| ==> !StartsWith(Stem(files[i])[j..], Separator)
    ensures ArtistAndTitle(discName, files) == (ArtistKeyOf(Strip(artistPart)), Strip(titlePart))
    ensures var artist := ArtistAndTitle(discName, files).0;
      ' ' !in artist && '&' !in artist && '-' !in artist && !Contains(artist, "__")
  {
    FirstMatchAt(discName, files, i);
    ArtistAndTitleAt(discName, files, i);
    StemSplitAtFirst(Stem(files[i]), artistPart, titlePart);
    var key := ArtistKeyOf(Strip(artistPart));
    ArtistKeyShape(Strip(artistPart));
    ContainsDoubleUnderscore(key);
  }

  /** A stem split at the first separator gives that artist part and title part. */
  lemma StemSplitAtFirst(stem: string, artistPart: string, titlePart: string)
    requires stem == artistPart + Separator + titlePart
    requires forall j :: 0 <= j < |artistPart| ==> !StartsWith(stem[j..], Separator)
    ensures StemArtistAndTitle(stem) == Some((ArtistKeyOf(Strip(artistPart)), Strip(titlePart)))
  {
    assert stem[|artistPart|..][..|Separator|] == Separator;
    ContainsSuffix(stem, |artistPart|, Separator);
    var parts := SplitOnce(stem, Separator).value;
    SplitPrefix(stem, artistPart, titlePart, parts.0, parts.1);
  }

  lemma {:induction false} ContainsSuffix(s: string, k: nat, p: string)
    requires k <= |s| && Contains(s[k..], p)
    ensures Contains(s, p)
    decreases k
  {
    if k > 0 {
      assert s[1..][k - 1..] == s[k..];
      ContainsSuffix(s[1..], k - 1, p);
    }
  }

  /** Two splits of `s` at a first occurrence of the separator are the same split. */
  lemma SplitPrefix(s: string, a: string, b: string, a': string, b': string)
    requires s == a + Separator + b && s == a' + Separator + b'
    requires forall j :: 0 <= j < |a| ==> !StartsWith(s[j..], Separator)
    requires forall j :: 0 <= j < |a'| ==> !StartsWith(s[j..], Separator)
    ensures a == a' && b == b'
  {
    assert s[|a|..][..|Separator|] == Separator;
    assert s[|a'|..][..|Separator|] == Separator;
    assert |a| == |a'|;
    assert a == s[..|a|] && a' == s[..|a'|];
    assert b == s[|a| + |Separator|..] && b' == s[|a'| + |Separator|..];
  }

  /** The files after the first match do not matter. */
  lemma FirstMatchWins(discName: string, files: seq<string>, more: seq<string>)
    requires FirstMatch(discName, files).Some?
    ensures ArtistAndTitle(discName, files + more) == ArtistAndTitle(discName, files)
  {
    var i := FirstMatch(discName, files).value;
    IdentifiersAppend(files, more);
    assert Identifiers(files)[i] == discName;
    FirstIndexAppend(discName, Identifiers(files), Identifiers(more));
    assert FirstMatch(discName, files + more) == Some(i);
    assert (files + more)[i] == files[i];
    ArtistAndTitleAt(discName, files, i);
    ArtistAndTitleAt(discName, files + more, i);
  }

  lemma {:induction false} IdentifiersAppend(files: seq<string>, more: seq<string>)
    ensures Identifiers(files + more) == Identifiers(files) + Identifiers(more)
    decreases |files|
  {
    if files != [] {
      assert (files + more)[1..] == files[1..] + more;
      IdentifiersAppend(files[1..], more);
    } else {
      assert files + more == more;
    }
  }

  lemma {:induction false} FirstIndexAppend(x: string, xs: seq<string>, ys: seq<string>)
    requires x in xs
    ensures FirstIndex(x, xs + ys) == FirstIndex(x, xs)
    decreases |xs|
  {
    if xs[0] != x {
      assert (xs + ys)[1..] == xs[1..] + ys;
      FirstIndexAppend(x, xs[1..], ys);
    }
  }

  /** A disc whose identifier came from one of the files always finds a matching file, at that
      file or before it. */
  lemma ProcessedNameIsFound(files: seq<string>, k: nat)
    requires k < |files|
    ensures var m := FirstMatch(ToSnakeCase(files[k]), files); m.Some? && m.value <= k
  {
  }

  /** The entry a file contributes to the artists table: key and stripped artist name. */
  function ArtistEntry(name: string): Option<(string, string)> {
    match SplitOnce(Stem(name), Separator)
    case None => None
    case Some(parts) =>
      var artist := Strip(parts.0);
      Some((ArtistKeyOf(artist), artist))
  }

  /** The entries of the files, in order. */
  function ArtistEntries(files: seq<string>): (entries: seq<Option<(string, string)>>)
    ensures |entries| == |files|
    ensures forall i :: 0 <= i < |files| ==> entries[i] == ArtistEntry(files[i])
  {
    if files == [] then [] else [ArtistEntry(files[0])] + ArtistEntries(files[1..])
  }

  /** A dictionary filled by assigning the entries in order. */
  function TableOf(entries: seq<Option<(string, string)>>): map<string, string>
    decreases |entries|
  {
    if entries == [] then map[]
    else
      var table := TableOf(entries[..|entries| - 1]);
      match entries[|entries| - 1]
      case None => table
      case Some(entry) => table[entry.0 := entry.1]
  }

  /** `_get_artists_from_mp3_files`: each file with a separator sets its key; later files win. */
  function ArtistsOf(files: seq<string>): map<string, string> {
    TableOf(ArtistEntries(files))
  }

  /** The body of the loop of `_get_artists_from_mp3_files` for one file. */
  method ArtistOfFile(name: string) returns (entry: Option<(string, string)>)
    ensures entry == ArtistEntry(name)
  {
    entry := None;
    var stem := Stem(name);
    if Contains(stem, Separator) {
      var parts := SplitOnce(stem, Separator).value;
      var artistName := Strip(parts.0);
      var key := ArtistKey(parts.0);
      entry := Some((key, artistName));
    }
  }

  method CollectArtists(files: seq<string>) returns (artists: map<string, string>)
    ensures artists == ArtistsOf(files)
  {
    ghost var entries := ArtistEntries(files);
    artists := map[];
    for i := 0 to |files|
      invariant artists == TableOf(entries[..i])
    {
      var entry := ArtistOfFile(files[i]);
      TableOfSnoc(entries, i);
      if entry.Some? {
        artists := artists[entry.value.0 := entry.value.1];
      }
    }
    assert entries[..|files|] == entries;
  }

  /** One more entry assigns its key, or leaves the table as it is. */
  lemma TableOfSnoc(entries: seq<Option<(string, string)>>, i: nat)
    requires i < |entries|
    ensures TableOf(entries[..i + 1]) ==
      if entries[i].Some? then TableOf(entries[..i])[entries[i].value.0 := entries[i].value.1]
      else TableOf(entries[..i])
  {
    assert entries[..i + 1][..i] == entries[..i];
  }

  /** A key is in the table exactly when some entry assigns it. */
  lemma {:induction false} TableOfKeys(entries: seq<Option<(string, string)>>, key: string)
    ensures key in TableOf(entries) <==>
      exists i :: 0 <= i < |entries| && entries[i].Some? && entries[i].value.0 == key
    decreases |entries|
  {
    if entries != [] {
      var init := entries[..|entries| - 1];
      TableOfKeys(init, key);
      assert forall i :: 0 <= i < |init| ==> init[i] == entries[i];
    }
  }

  /** The value under a key comes from the last entry that assigns it. */
  lemma {:induction false} TableOfLastWins(entries: seq<Option<(string, string)>>, i: nat)
    requires i < |entries| && entries[i].Some?
    requires forall j :: i < j < |entries| && entries[j].Some? ==> entries[j].value.0 != entries[i].value.0
    ensures entries[i].value.0 in TableOf(entries) && TableOf(entries)[entries[i].value.0] == entries[i].value.1
    decreases |entries|
  {
    if i < |entries| - 1 {
      var init := entries[..|entries| - 1];
      assert init[i] == entries[i];
      assert forall j :: i < j < |init| ==> init[j] == entries[j];
      TableOfLastWins(init, i);
    }
  }

  /** A key is in the artists table exactly when some file contributes it. */
  lemma ArtistsOfKeys(files: seq<string>, key: string)
    ensures key in ArtistsOf(files) <==>
      exists i :: 0 <= i < |files| && ArtistEntry(files[i]).Some? && ArtistEntry(files[i]).value.0 == key
  {
    TableOfKeys(ArtistEntries(files), key);
  }

  /** A file contributes to the artists table exactly when its stem names an artist, under the
      same key. */
  lemma ArtistEntryMatchesStem(name: string)
    ensures ArtistEntry(name).Some? <==> StemArtistAndTitle(Stem(name)).Some?
    ensures ArtistEntry(name).Some? ==> ArtistEntry(name).value.0 == StemArtistAndTitle(Stem(name)).value.0
  {
  }

  /** The artist name stored under a key comes from the last file that contributes that key. */
  lemma ArtistsOfLastWins(files: seq<string>, i: nat)
    requires i < |files| && ArtistEntry(files[i]).Some?
    requires forall j :: i < j < |files| && ArtistEntry(files[j]).Some? ==>
      ArtistEntry(files[j]).value.0 != ArtistEntry(files[i]).value.0
    ensures var entry := ArtistEntry(files[i]).value;
      entry.0 in ArtistsOf(files) && ArtistsOf(files)[entry.0] == entry.1
  {
    TableOfLastWins(ArtistEntries(files), i);
  }

  /** Every key of the table has the artist-key shape. */
  lemma ArtistsOfKeyShape(files: seq<string>, key: string)
    requires key in ArtistsOf(files)
    ensures ' ' !in key && '&' !in key && '-' !in key && NoDoubleUnderscore(key)
  {
    ArtistsOfKeys(files, key);
    var i :| 0 <= i < |files| && ArtistEntry(files[i]).Some? && ArtistEntry(files[i]).value.0 == key;
    var parts := SplitOnce(Stem(files[i]), Separator).value;
    ArtistKeyShape(Strip(parts.0));
  }
}
