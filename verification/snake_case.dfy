/** The disc identifier derived from a source file name (`_to_snake_case`). */
module SnakeCase {
  import opened Text

  /** `re.sub(r'\.[^.]*$', '', text)`: drops the last `.` and everything after it. */
  function DropExtension(text: string): (r: string)
    ensures '.' !in text ==> r == text
    ensures '.' in text ==> |r| < |text| && r == text[..|r|] && text[|r|] == '.' && '.' !in text[|r| + 1..]
  {
    match LastIndexOf(text, '.')
    case None => text
    case Some(i) => text[..i]
  }

  /** A name whose last extension is `extension` loses exactly that extension; the stem may
      hold dots of its own. */
  lemma DropOneExtension(stem: string, extension: string)
    requires '.' !in extension
    ensures DropExtension(stem + "." + extension) == stem
  {
    var text := stem + "." + extension;
    assert text[|stem|] == '.';
    assert text[|stem| + 1..] == extension;
    var r := DropExtension(text);
    assert r == text[..|stem|] == stem;
  }

  /** `re.sub(r'[^a-zA-Z0-9]', '_', text)`. */
  function ReplaceSpecials(s: string): (r: string)
    ensures |r| == |s|
    ensures forall i :: 0 <= i < |s| ==> r[i] == if IsAsciiAlnum(s[i]) then s[i] else '_'
  {
    seq(|s|, i requires 0 <= i < |s| => if IsAsciiAlnum(s[i]) then s[i] else '_')
  }

  /** The six substitutions of `_to_snake_case`. */
  datatype Step =
    | DropExtensionStep      // re.sub(r'\.[^.]*$', '', text)
    | JoinSeparators         // re.sub(r'[_\s]+', '_', text)
    | ReplaceSpecialChars    // re.sub(r'[^a-zA-Z0-9]', '_', text)
    | JoinUnderscores        // re.sub(r'_+', '_', text)
    | TrimUnderscores        // text.strip('_')
    | LowerCase              // text.lower()

  function ApplyStep(step: Step, text: string): string {
    match step
    case DropExtensionStep => DropExtension(text)
    case JoinSeparators => CollapseRuns(text, IsUnderscoreOrSpace)
    case ReplaceSpecialChars => ReplaceSpecials(text)
    case JoinUnderscores => CollapseRuns(text, IsUnderscore)
    case TrimUnderscores => StripWhere(text, IsUnderscore)
    case LowerCase => Lower(text)
  }

  /** The steps applied one after the other, first step first. */
  function RunSteps(steps: seq<Step>, text: string): string
    decreases |steps|
  {
    if steps == [] then text else RunSteps(steps[1..], ApplyStep(steps[0], text))
  }

  /** The order in which `_to_snake_case` applies the steps. */
  const Pipeline: seq<Step> :=
    [DropExtensionStep, JoinSeparators, ReplaceSpecialChars, JoinUnderscores, TrimUnderscores, LowerCase]

  function ToSnakeCase(text: string): string {
    RunSteps(Pipeline, text)
  }

  /** The six steps, given their intermediate results. */
  lemma ToSnakeCaseSteps(text: string, noExtension: string, spacesJoined: string,
                         specialsReplaced: string, underscoresJoined: string, trimmed: string)
    requires DropExtension(text) == noExtension
    requires CollapseRuns(noExtension, IsUnderscoreOrSpace) == spacesJoined
    requires ReplaceSpecials(spacesJoined) == specialsReplaced
    requires CollapseRuns(specialsReplaced, IsUnderscore) == underscoresJoined
    requires StripWhere(underscoresJoined, IsUnderscore) == trimmed
    ensures ToSnakeCase(text) == Lower(trimmed)
  {
    var p := Pipeline;
    assert p[1..][0] == JoinSeparators && p[1..][1..] == p[2..];
    assert p[2..][0] == ReplaceSpecialChars && p[2..][1..] == p[3..];
    assert p[3..][0] == JoinUnderscores && p[3..][1..] == p[4..];
    assert p[4..][0] == TrimUnderscores && p[4..][1..] == p[5..];
    assert p[5..][0] == LowerCase && p[5..][1..] == [];
    calc {
      RunSteps(p, text);
      RunSteps(p[1..], noExtension);
      RunSteps(p[2..], spacesJoined);
      RunSteps(p[3..], specialsReplaced);
      RunSteps(p[4..], underscoresJoined);
      RunSteps(p[5..], trimmed);
      RunSteps([], Lower(trimmed));
    }
  }

  /** `_to_snake_case` as one composed expression. */
  lemma ToSnakeCaseComposed(text: string)
    ensures ToSnakeCase(text) == Lower(StripWhere(CollapseRuns(ReplaceSpecials(
      CollapseRuns(DropExtension(text), IsUnderscoreOrSpace)), IsUnderscore), IsUnderscore))
  {
    var noExtension := DropExtension(text);
    var spacesJoined := CollapseRuns(noExtension, IsUnderscoreOrSpace);
    var specialsReplaced := ReplaceSpecials(spacesJoined);
    var underscoresJoined := CollapseRuns(specialsReplaced, IsUnderscore);
    ToSnakeCaseSteps(text, noExtension, spacesJoined, specialsReplaced, underscoresJoined,
      StripWhere(underscoresJoined, IsUnderscore));
  }

  predicate IsIdentifierChar(c: char) {
    IsAsciiLower(c) || IsDigit(c) || c == '_'
  }

  /** The shape every derived identifier has: `[a-z0-9_]*`, no `__`, no `_` at either end. */
  predicate IsIdentifier(s: string) {
    && (forall c :: c in s ==> IsIdentifierChar(c))
    && NoDoubleUnderscore(s)
    && (s != [] ==> s[0] != '_' && s[|s| - 1] != '_')
  }

  /** Steps 3 and 4 leave only ASCII letters, digits and single underscores. */
  lemma JoinedSpecialsShape(s: string)
    ensures var u := CollapseRuns(ReplaceSpecials(s), IsUnderscore);
      (forall c :: c in u ==> IsAsciiAlnum(c) || c == '_') && NoDoubleUnderscore(u)
  {
    var t := ReplaceSpecials(s);
    forall c | c in CollapseRuns(t, IsUnderscore) ensures IsAsciiAlnum(c) || c == '_' {
      CollapseRunsChars(t, IsUnderscore, c);
    }
    CollapseRunsNoDouble(t, IsUnderscore);
  }

  /** Step 5 keeps the shape and removes underscores from both ends. */
  lemma TrimmedShape(u: string)
    requires forall c :: c in u ==> IsAsciiAlnum(c) || c == '_'
    requires NoDoubleUnderscore(u)
    ensures var t := StripWhere(u, IsUnderscore);
      && (forall k :: 0 <= k < |t| ==> IsAsciiAlnum(t[k]) || t[k] == '_')
      && NoDoubleUnderscore(t)
      && (t != [] ==> t[0] != '_' && t[|t| - 1] != '_')
  {
    var t := StripWhere(u, IsUnderscore);
    var i := StripWhereIsSlice(u, IsUnderscore);
    forall k | 0 <= k < |t| ensures IsAsciiAlnum(t[k]) || t[k] == '_' {
      assert t[k] == u[i + k];
      assert u[i + k] in u;
    }
    forall k | 0 <= k < |t| - 1 ensures !(t[k] == '_' && t[k + 1] == '_') {
      assert t[k] == u[i + k] && t[k + 1] == u[i + k + 1];
    }
  }

  /** Step 6 turns that shape into an identifier. */
  lemma LoweredShape(t: string)
    requires forall k :: 0 <= k < |t| ==> IsAsciiAlnum(t[k]) || t[k] == '_'
    requires NoDoubleUnderscore(t)
    requires t != [] ==> t[0] != '_' && t[|t| - 1] != '_'
    ensures IsIdentifier(Lower(t))
  {
    var r := Lower(t);
    forall c | c in r ensures IsIdentifierChar(c) {
      var k :| 0 <= k < |r| && r[k] == c;
      assert r[k] == LowerChar(t[k]);
    }
    forall k | 0 <= k < |r| - 1 ensures !(r[k] == '_' && r[k + 1] == '_') {
      assert r[k] == LowerChar(t[k]) && r[k + 1] == LowerChar(t[k + 1]);
    }
  }

  lemma SnakeCaseIsIdentifier(text: string)
    ensures IsIdentifier(ToSnakeCase(text))
  {
    ToSnakeCaseComposed(text);
    var spacesJoined := CollapseRuns(DropExtension(text), IsUnderscoreOrSpace);
    JoinedSpecialsShape(spacesJoined);
    var underscoresJoined := CollapseRuns(ReplaceSpecials(spacesJoined), IsUnderscore);
    TrimmedShape(underscoresJoined);
    LoweredShape(StripWhere(underscoresJoined, IsUnderscore));
  }

  lemma IdentifierCharsAreAlnum(w: string)
    requires IsIdentifier(w)
    ensures forall i :: 0 <= i < |w| ==> IsAsciiAlnum(w[i]) || w[i] == '_'
    ensures forall i :: 0 <= i < |w| ==> LowerChar(w[i]) == w[i]
    ensures forall c :: c in w && IsUnderscoreOrSpace(c) ==> c == '_'
    ensures '.' !in w
  {
    forall i | 0 <= i < |w| ensures IsIdentifierChar(w[i]) {
      assert w[i] in w;
    }
  }

  /** An identifier is its own snake case: the source's normaliser changes nothing in it. */
  lemma IdentifierIsFixedPoint(w: string)
    requires IsIdentifier(w)
    ensures ToSnakeCase(w) == w
  {
    IdentifierCharsAreAlnum(w);
    ToSnakeCaseComposed(w);
    assert DropExtension(w) == w;
    CollapseRunsFixed(w, IsUnderscoreOrSpace);
    assert ReplaceSpecials(w) == w;
    CollapseRunsFixed(w, IsUnderscore);
    assert w != [] ==> KeptFrom(w, IsUnderscore) == 0 && KeptTo(w, IsUnderscore) == |w|;
    assert Lower(w) == w;
  }

  /** Normalising twice gives what normalising once gave. */
  lemma SnakeCaseIdempotent(text: string)
    ensures ToSnakeCase(ToSnakeCase(text)) == ToSnakeCase(text)
  {
    SnakeCaseIsIdentifier(text);
    IdentifierIsFixedPoint(ToSnakeCase(text));
  }

  lemma ReplaceSpecialsAppend(x: string, y: string)
    ensures ReplaceSpecials(x + y) == ReplaceSpecials(x) + ReplaceSpecials(y)
  {
  }

  /** Letters, digits and underscores pass steps 2 to 4 unchanged when no `__` occurs. */
  lemma WordUnchanged(w: string)
    requires forall c :: c in w ==> IsAsciiAlnum(c) || c == '_'
    requires NoDoubleUnderscore(w)
    ensures CollapseRuns(w, IsUnderscoreOrSpace) == w
    ensures ReplaceSpecials(w) == w
    ensures CollapseRuns(w, IsUnderscore) == w
  {
    CollapseRunsFixed(w, IsUnderscoreOrSpace);
    CollapseRunsFixed(w, IsUnderscore);
    forall i | 0 <= i < |w| ensures ReplaceSpecials(w)[i] == w[i] {
      assert w[i] in w;
    }
  }

  /** A text of ASCII letters and digits. */
  predicate IsAlnumWord(w: string) {
    w != [] && forall i :: 0 <= i < |w| ==> IsAsciiAlnum(w[i])
  }

  lemma AlnumWordChars(w: string)
    requires IsAlnumWord(w)
    ensures forall c :: c in w ==> IsAsciiAlnum(c)
    ensures NoDoubleUnderscore(w) && '.' !in w
    ensures ReplaceSpecials(w) == w
  {
    forall c | c in w ensures IsAsciiAlnum(c) {
      var i :| 0 <= i < |w| && w[i] == c;
    }
  }

  /** Runs of separators or underscores do not occur in a word. */
  lemma AlnumWordCollapsed(w: string)
    requires IsAlnumWord(w)
    ensures CollapseRuns(w, IsUnderscoreOrSpace) == w && CollapseRuns(w, IsUnderscore) == w
    ensures !IsUnderscoreOrSpace(w[0]) && !IsUnderscoreOrSpace(w[|w| - 1])
    ensures w[0] != '_' && w[|w| - 1] != '_'
  {
    AlnumWordChars(w);
    CollapseRunsFixed(w, IsUnderscoreOrSpace);
    CollapseRunsFixed(w, IsUnderscore);
  }

  /** Step 2 on `artist - title`: each separator run becomes one `_`, the dash stays. */
  lemma ArtistSpacesJoined(artist: string, title: string)
    requires IsAlnumWord(artist) && IsAlnumWord(title)
    ensures CollapseRuns(artist + ([' '] + (['-'] + ([' '] + title))), IsUnderscoreOrSpace)
      == artist + (['_'] + (['-'] + (['_'] + title)))
  {
    AlnumWordCollapsed(artist);
    AlnumWordCollapsed(title);
    SeparatorJoined(title);
    CollapseRunsAppend(artist, [' '] + (['-'] + ([' '] + title)), IsUnderscoreOrSpace);
  }

  lemma SeparatorJoined(y: string)
    requires y != [] && !IsUnderscoreOrSpace(y[0])
    ensures CollapseRuns([' '] + (['-'] + ([' '] + y)), IsUnderscoreOrSpace)
      == ['_'] + (['-'] + (['_'] + CollapseRuns(y, IsUnderscoreOrSpace)))
  {
    CollapseRunsRun([' '], y, IsUnderscoreOrSpace);
    var rest := ['-'] + ([' '] + y);
    assert rest[1..] == [' '] + y;
    CollapseRunsRun([' '], rest, IsUnderscoreOrSpace);
  }

  /** Steps 3 and 4: the dash becomes `_` and the three underscores collapse into one. */
  lemma ArtistUnderscoresJoined(artist: string, title: string)
    requires IsAlnumWord(artist) && IsAlnumWord(title)
    ensures CollapseRuns(ReplaceSpecials(artist + (['_'] + (['-'] + (['_'] + title)))), IsUnderscore)
      == artist + (['_'] + title)
  {
    AlnumWordCollapsed(artist);
    AlnumWordCollapsed(title);
    DashReplaced(artist, title);
    CollapseRunsRun(['_', '_', '_'], title, IsUnderscore);
    CollapseRunsAppend(artist, ['_', '_', '_'] + title, IsUnderscore);
  }

  lemma DashReplaced(artist: string, title: string)
    requires IsAlnumWord(artist) && IsAlnumWord(title)
    ensures ReplaceSpecials(artist + (['_'] + (['-'] + (['_'] + title)))) == artist + (['_', '_', '_'] + title)
  {
    AlnumWordChars(artist);
    AlnumWordChars(title);
    var dash := ['_', '-', '_'];
    assert ReplaceSpecials(dash) == ['_', '_', '_'];
    assert ['_'] + (['-'] + (['_'] + title)) == dash + title;
    ReplaceSpecialsAppend(dash, title);
    ReplaceSpecialsAppend(artist, dash + title);
  }

  /** Steps 5 and 6: nothing to trim, and lower-casing goes character by character. */
  lemma ArtistTrimmedLowered(artist: string, title: string)
    requires IsAlnumWord(artist) && IsAlnumWord(title)
    ensures Lower(StripWhere(artist + (['_'] + title), IsUnderscore)) == Lower(artist) + "_" + Lower(title)
  {
    AlnumWordCollapsed(artist);
    AlnumWordCollapsed(title);
    var s := artist + (['_'] + title);
    assert s[0] == artist[0] && s[|s| - 1] == title[|title| - 1];
    NothingToStrip(s, IsUnderscore);
    LowerAppend(artist, ['_'] + title);
    LowerAppend(['_'], title);
  }

  lemma NothingToStrip(s: string, strip: char -> bool)
    requires s != [] && !strip(s[0]) && !strip(s[|s| - 1])
    ensures StripWhere(s, strip) == s
  {
    assert KeptFrom(s, strip) == 0 && KeptTo(s, strip) == |s|;
  }

  lemma LowerAppend(x: string, y: string)
    ensures Lower(x + y) == Lower(x) + Lower(y)
  {
  }

  /** The artist part of a file name stays in its identifier: `"A - Song1.mp3"` becomes
      `a_song1`, not `song1`. */
  lemma ArtistStaysInIdentifier(artist: string, title: string)
    requires IsAlnumWord(artist) && IsAlnumWord(title)
    ensures ToSnakeCase(artist + " - " + title + ".mp3") == Lower(artist) + "_" + Lower(title)
  {
    var stem := artist + ([' '] + (['-'] + ([' '] + title)));
    assert artist + " - " + title + ".mp3" == stem + "." + "mp3";
    StemHasNoDot(artist, title);
    DropOneExtension(stem, "mp3");
    ArtistSpacesJoined(artist, title);
    ArtistUnderscoresJoined(artist, title);
    ArtistTrimmedLowered(artist, title);
    var spaced := artist + (['_'] + (['-'] + (['_'] + title)));
    var joined := artist + (['_'] + title);
    ToSnakeCaseSteps(stem + "." + "mp3", stem, spaced, ReplaceSpecials(spaced), joined,
                     StripWhere(joined, IsUnderscore));
  }

  lemma StemHasNoDot(artist: string, title: string)
    requires IsAlnumWord(artist) && IsAlnumWord(title)
    ensures '.' !in artist + ([' '] + (['-'] + ([' '] + title)))
  {
    AlnumWordChars(artist);
    AlnumWordChars(title);
  }

  /** A file name whose stem holds no ASCII letter or digit, with any extension, normalises
      to the empty identifier: every character of the stem becomes part of a `_` run, and the
      runs are stripped. */
  lemma EmptyIdentifier(stem: string, extension: string)
    requires forall c :: c in stem ==> !IsAsciiAlnum(c)
    requires '.' !in extension
    ensures ToSnakeCase(stem + "." + extension) == ""
  {
    DropOneExtension(stem, extension);
    var joined := CollapseRuns(stem, IsUnderscoreOrSpace);
    forall c | c in joined ensures !IsAsciiAlnum(c) {
      CollapseRunsChars(stem, IsUnderscoreOrSpace, c);
    }
    var replaced := ReplaceSpecials(joined);
    assert forall k :: 0 <= k < |replaced| ==> joined[k] in joined && replaced[k] == '_';
    var collapsed := CollapseRuns(replaced, IsUnderscore);
    forall k | 0 <= k < |collapsed| ensures collapsed[k] == '_' {
      CollapseRunsChars(replaced, IsUnderscore, collapsed[k]);
    }
    assert KeptFrom(collapsed, IsUnderscore) == |collapsed|;
    ToSnakeCaseSteps(stem + "." + extension, stem, joined, replaced, collapsed, []);
  }
}
