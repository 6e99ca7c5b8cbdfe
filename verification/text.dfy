/** String operations of Python's `str` and `re` that the generator relies on,
    written out over `seq<char>`. */
module Text {

  datatype Option<+T> = None | Some(value: T)

  /** Python's `str.isspace()`, which is also the set the regex class `\s` matches. */
  predicate IsSpace(c: char) {
    || c == ' '
    || ('\t' <= c <= '\r')
    || ('\U{1c}' <= c <= '\U{1f}')
    || c == '\U{85}' || c == '\U{a0}' || c == '\U{1680}'
    || ('\U{2000}' <= c <= '\U{200a}')
    || c == '\U{2028}' || c == '\U{2029}' || c == '\U{202f}' || c == '\U{205f}' || c == '\U{3000}'
  }

  predicate IsUnderscore(c: char) { c == '_' }

  predicate IsUnderscoreOrSpace(c: char) { c == '_' || IsSpace(c) }

  predicate IsAsciiUpper(c: char) { 'A' <= c <= 'Z' }

  predicate IsAsciiLower(c: char) { 'a' <= c <= 'z' }

  predicate IsAsciiLetter(c: char) { IsAsciiUpper(c) || IsAsciiLower(c) }

  predicate IsDigit(c: char) { '0' <= c <= '9' }

  /** The regex class `[a-zA-Z0-9]`. */
  predicate IsAsciiAlnum(c: char) { IsAsciiLetter(c) || IsDigit(c) }

  function LowerChar(c: char): char {
    if IsAsciiUpper(c) then (c as int + 32) as char else c
  }

  function UpperChar(c: char): char {
    if IsAsciiLower(c) then (c as int - 32) as char else c
  }

  /** ASCII lowering of every character. */
  function Lower(s: string): (r: string)
    ensures |r| == |s|
    ensures forall i :: 0 <= i < |s| ==> r[i] == LowerChar(s[i])
  {
    seq(|s|, i requires 0 <= i < |s| => LowerChar(s[i]))
  }

  predicate StartsWith(s: string, p: string) {
    |p| <= |s| && s[..|p|] == p
  }

  predicate EndsWith(s: string, p: string) {
    |p| <= |s| && s[|s| - |p|..] == p
  }

  /** Python's `p in s` for strings. */
  predicate Contains(s: string, p: string)
    decreases |s|
  {
    StartsWith(s, p) || (s != [] && Contains(s[1..], p))
  }

  /** No two adjacent underscores, i.e. `"__" not in s`. */
  predicate NoDoubleUnderscore(s: string) {
    forall i :: 0 <= i < |s| - 1 ==> !(s[i] == '_' && s[i + 1] == '_')
  }

  lemma {:induction false} ContainsDoubleUnderscore(s: string)
    ensures Contains(s, "__") <==> !NoDoubleUnderscore(s)
    decreases |s|
  {
    if |s| >= 2 {
      ContainsDoubleUnderscore(s[1..]);
      assert NoDoubleUnderscore(s) <==> !(s[0] == '_' && s[1] == '_') && NoDoubleUnderscore(s[1..]) by {
        if NoDoubleUnderscore(s[1..]) && !(s[0] == '_' && s[1] == '_') {
          forall i | 0 <= i < |s| - 1 ensures !(s[i] == '_' && s[i + 1] == '_') {
            if i > 0 { assert s[i] == s[1..][i - 1] && s[i + 1] == s[1..][i]; }
          }
        }
        if NoDoubleUnderscore(s) {
          forall i | 0 <= i < |s[1..]| - 1 ensures !(s[1..][i] == '_' && s[1..][i + 1] == '_') {
            assert s[1..][i] == s[i + 1] && s[1..][i + 1] == s[i + 2];
          }
        }
      }
    } else if |s| == 1 {
      assert !StartsWith(s[1..], "__");
    }
  }

  /** Python's `s.find(p)`: the first index at which `p` occurs. */
  function IndexOf(s: string, p: string): (r: Option<nat>)
    ensures r.Some? ==> r.value + |p| <= |s| && s[r.value..r.value + |p|] == p
    ensures r.Some? ==> forall j :: 0 <= j < r.value ==> !StartsWith(s[j..], p)
    ensures r.None? <==> !Contains(s, p)
    decreases |s|
  {
    if StartsWith(s, p) then Some(0)
    else if s == [] then None
    else match IndexOf(s[1..], p)
      case None => None
      case Some(k) =>
        assert forall j :: 1 <= j < k + 1 ==> s[j..] == s[1..][j - 1..];
        assert s[k + 1..k + 1 + |p|] == s[1..][k..k + |p|];
        Some(k + 1)
  }

  /** Python's `s.rfind(c)` for one character. */
  function LastIndexOf(s: string, c: char): (r: Option<nat>)
    ensures r.Some? ==> r.value < |s| && s[r.value] == c && c !in s[r.value + 1..]
    ensures r.None? <==> c !in s
  {
    if s == [] then None
    else if s[|s| - 1] == c then Some(|s| - 1)
    else
      var r := LastIndexOf(s[..|s| - 1], c);
      assert s == s[..|s| - 1] + [s[|s| - 1]];
      r
  }

  /** `PurePath(name).stem`: the name without its last suffix, where a suffix needs a `.` that is
      neither the first nor the last character. */
  function Stem(name: string): (r: string)
    ensures r == name || (|r| > 0 && |r| < |name| - 1 && name[..|r|] == r && name[|r|] == '.' && '.' !in name[|r| + 1..])
    ensures (exists i :: 0 < i < |name| - 1 && name[i] == '.' && '.' !in name[i + 1..]) ==> r != name
  {
    match LastIndexOf(name, '.')
    case Some(i) => if 0 < i < |name| - 1 then name[..i] else name
    case None => name
  }

  /** `s.split(sep, 1)` when `sep` occurs: the parts before and after the first occurrence. */
  function SplitOnce(s: string, sep: string): (r: Option<(string, string)>)
    ensures r.None? <==> !Contains(s, sep)
    ensures r.Some? ==> s == r.value.0 + sep + r.value.1
    ensures r.Some? ==> forall j :: 0 <= j < |r.value.0| ==> !StartsWith(s[j..], sep)
  {
    match IndexOf(s, sep)
    case None => None
    case Some(i) =>
      assert s == s[..i] + s[i..i + |sep|] + s[i + |sep|..];
      Some((s[..i], s[i + |sep|..]))
  }

  /** Python's `s.replace(pat, rep)`: every non-overlapping occurrence, scanning left to right. */
  function ReplaceAll(s: string, pat: string, rep: string): string
    requires pat != []
    decreases |s|
  {
    if |s| < |pat| then s
    else if s[..|pat|] == pat then rep + ReplaceAll(s[|pat|..], pat, rep)
    else [s[0]] + ReplaceAll(s[1..], pat, rep)
  }

  lemma {:induction false} ReplaceAllAbsent(s: string, pat: string, rep: string)
    requires pat != []
    requires !Contains(s, pat)
    ensures ReplaceAll(s, pat, rep) == s
    decreases |s|
  {
    if |s| >= |pat| {
      ReplaceAllAbsent(s[1..], pat, rep);
    }
  }

  /** Replacing at a leading occurrence. */
  lemma ReplaceAllLeading(y: string, pat: string, rep: string)
    requires pat != []
    ensures ReplaceAll(pat + y, pat, rep) == rep + ReplaceAll(y, pat, rep)
  {
    assert (pat + y)[..|pat|] == pat && (pat + y)[|pat|..] == y;
  }

  /** A prefix at none of whose positions the pattern starts is copied unchanged. */
  lemma {:induction false} ReplaceAllSkip(x: string, y: string, pat: string, rep: string)
    requires pat != []
    requires forall j :: 0 <= j < |x| ==> !StartsWith((x + y)[j..], pat)
    ensures ReplaceAll(x + y, pat, rep) == x + ReplaceAll(y, pat, rep)
    decreases |x|
  {
    if x != [] {
      var s := x + y;
      var t := x[1..] + y;
      assert s[1..] == t;
      forall j | 0 <= j < |x[1..]| ensures !StartsWith(t[j..], pat) {
        assert t[j..] == s[j + 1..];
      }
      ReplaceAllSkip(x[1..], y, pat, rep);
      if |s| < |pat| {
        ReplaceAllShort(y, pat, rep);
      } else {
        assert s[0..] == s;
        assert s[..|pat|] != pat;
        assert ReplaceAll(s, pat, rep) == [s[0]] + ReplaceAll(t, pat, rep);
        assert x == [x[0]] + x[1..];
      }
    } else {
      assert x + y == y;
    }
  }

  lemma ReplaceAllShort(y: string, pat: string, rep: string)
    requires pat != [] && |y| < |pat|
    ensures ReplaceAll(y, pat, rep) == y
  {
  }

  /** A text that does not hold `p` has no position at which `p` starts. */
  lemma {:induction false} NoStartFromNotContains(s: string, p: string)
    requires !Contains(s, p)
    ensures forall j :: 0 <= j <= |s| ==> !StartsWith(s[j..], p)
    decreases |s|
  {
    if s != [] {
      NoStartFromNotContains(s[1..], p);
      forall j | 1 <= j <= |s| ensures !StartsWith(s[j..], p) {
        assert s[j..] == s[1..][j - 1..];
      }
    }
  }

  /** A text at none of whose positions `p` starts does not hold `p`. */
  lemma {:induction false} NotContainsFromNoStart(s: string, p: string)
    requires forall j :: 0 <= j <= |s| ==> !StartsWith(s[j..], p)
    ensures !Contains(s, p)
    decreases |s|
  {
    assert s[0..] == s;
    if s != [] {
      forall j | 0 <= j <= |s[1..]| ensures !StartsWith(s[1..][j..], p) {
        assert s[1..][j..] == s[j + 1..];
      }
      NotContainsFromNoStart(s[1..], p);
    }
  }

  /** A dot-free pattern found in neither part is not found across a boundary made by a dot. */
  lemma NoMatchAcrossDot(n: string, t: string, p: string)
    requires p != [] && '.' !in p
    requires t != [] && t[0] == '.'
    requires !Contains(n, p) && !Contains(t, p)
    ensures !Contains(n + t, p)
  {
    NoStartFromNotContains(n, p);
    NoStartFromNotContains(t, p);
    var s := n + t;
    forall j | 0 <= j <= |s| ensures !StartsWith(s[j..], p) {
      if j >= |n| {
        assert s[j..] == t[j - |n|..];
      } else if j + |p| <= |n| {
        assert s[j..][..|p|] == n[j..][..|p|];
      } else if |p| <= |s[j..]| {
        assert s[j..][|n| - j] == '.';
        assert p[|n| - j] != '.';
      }
    }
    NotContainsFromNoStart(s, p);
  }

  /** The stem of `n.e` is `n` when neither is empty and `e` holds no dot. */
  lemma StemOfDotted(n: string, e: string)
    requires n != [] && e != [] && '.' !in e
    ensures Stem(n + "." + e) == n
  {
    var name := n + "." + e;
    assert name[|n|] == '.' && name[|n| + 1..] == e;
    assert 0 < |n| < |name| - 1 && '.' !in name[|n| + 1..];
    var r := Stem(name);
    forall k | |r| < k < |name| ensures name[k] != '.' {
      assert name[k] == name[|r| + 1..][k - |r| - 1];
    }
    forall k | |n| < k < |name| ensures name[k] != '.' {
      assert name[k] == e[k - |n| - 1];
    }
    assert r == name[..|n|] == n;
  }

  /** Replacing one character by a text that does not hold it leaves none of it behind,
      and introduces no character that neither `s` nor `rep` holds. */
  lemma {:induction false} ReplaceAllChar(s: string, c: char, rep: string, x: char)
    requires c !in rep
    ensures c !in ReplaceAll(s, [c], rep)
    ensures x in ReplaceAll(s, [c], rep) ==> x in s || x in rep
    decreases |s|
  {
    if |s| >= 1 {
      ReplaceAllChar(s[1..], c, rep, x);
      if s[..1] != [c] {
        assert s[0] != c;
      }
    }
  }

  /** `text.strip(chars)`, with the stripped set given as a predicate. */
  function StripWhere(s: string, strip: char -> bool): string {
    var i, j := KeptFrom(s, strip), KeptTo(s, strip);
    if i < j then s[i..j] else []
  }

  /** The index of the first character that is not stripped (`|s|` when there is none). */
  function KeptFrom(s: string, strip: char -> bool): (i: nat)
    ensures i <= |s|
    ensures forall k :: 0 <= k < i ==> strip(s[k])
    ensures i < |s| ==> !strip(s[i])
  {
    if s != [] && strip(s[0]) then
      var i := 1 + KeptFrom(s[1..], strip);
      assert forall k :: 1 <= k < i ==> s[k] == s[1..][k - 1];
      i
    else 0
  }

  /** One past the last character that is not stripped (`0` when there is none). */
  function KeptTo(s: string, strip: char -> bool): (j: nat)
    ensures j <= |s|
    ensures forall k :: j <= k < |s| ==> strip(s[k])
    ensures j > 0 ==> !strip(s[j - 1])
  {
    if s != [] && strip(s[|s| - 1]) then KeptTo(s[..|s| - 1], strip) else |s|
  }

  /** The stripped text is a slice of `s` starting at `i`: everything before it and after it is
      stripped, and its own ends are not. */
  lemma StripWhereIsSlice(s: string, strip: char -> bool) returns (i: nat)
    ensures i + |StripWhere(s, strip)| <= |s|
    ensures StripWhere(s, strip) == s[i..i + |StripWhere(s, strip)|]
    ensures forall k :: 0 <= k < i ==> strip(s[k])
    ensures forall k :: i + |StripWhere(s, strip)| <= k < |s| ==> strip(s[k])
    ensures var r := StripWhere(s, strip); r != [] ==> !strip(r[0]) && !strip(r[|r| - 1])
  {
    var j := KeptTo(s, strip);
    i := KeptFrom(s, strip);
    if j <= i {
      i := |s|;
    }
  }

  /** Python's `s.strip()`: whitespace off both ends. */
  function Strip(s: string): string {
    StripWhere(s, IsSpace)
  }

  /** Replaces every maximal run of characters satisfying `inRun` by a single `_`:
      the regex substitution `re.sub(r'[...]+', '_', s)`. */
  function CollapseRuns(s: string, inRun: char -> bool): (r: string)
    ensures |r| <= |s|
  {
    if s == [] then []
    else if !inRun(s[0]) then [s[0]] + CollapseRuns(s[1..], inRun)
    else if |s| > 1 && inRun(s[1]) then CollapseRuns(s[1..], inRun)
    else "_" + CollapseRuns(s[1..], inRun)
  }

  /** Collapsing distributes over a split point that ends outside a run. */
  lemma {:induction false} CollapseRunsAppend(x: string, y: string, inRun: char -> bool)
    requires x != [] ==> !inRun(x[|x| - 1])
    ensures CollapseRuns(x + y, inRun) == CollapseRuns(x, inRun) + CollapseRuns(y, inRun)
    decreases |x|
  {
    if x == [] {
      assert x + y == y;
    } else {
      var s, t := x + y, x[1..];
      assert s[1..] == t + y;
      assert s[0] == x[0];
      CollapseRunsAppend(t, y, inRun);
      if !inRun(x[0]) {
        assert CollapseRuns(s, inRun) == [x[0]] + (CollapseRuns(t, inRun) + CollapseRuns(y, inRun));
      } else {
        assert |x| > 1 && s[1] == x[1];
        assert t[|t| - 1] == x[|x| - 1];
        if inRun(x[1]) {
          assert CollapseRuns(s, inRun) == CollapseRuns(t, inRun) + CollapseRuns(y, inRun);
        } else {
          assert CollapseRuns(s, inRun) == "_" + (CollapseRuns(t, inRun) + CollapseRuns(y, inRun));
        }
      }
    }
  }

  /** A whole run followed by a character outside the runs becomes one `_`. */
  lemma {:induction false} CollapseRunsRun(x: string, y: string, inRun: char -> bool)
    requires x != [] && forall k :: 0 <= k < |x| ==> inRun(x[k])
    requires y != [] ==> !inRun(y[0])
    ensures CollapseRuns(x + y, inRun) == "_" + CollapseRuns(y, inRun)
    decreases |x|
  {
    var s := x + y;
    assert s[0] == x[0] && s[1..] == x[1..] + y;
    if |x| > 1 {
      assert s[1] == x[1];
      CollapseRunsRun(x[1..], y, inRun);
    } else {
      assert s[1..] == y;
    }
  }

  lemma {:induction false} CollapseRunsHead(s: string, inRun: char -> bool)
    requires s != []
    ensures CollapseRuns(s, inRun) != []
    ensures CollapseRuns(s, inRun)[0] == if inRun(s[0]) then '_' else s[0]
    decreases |s|
  {
    if inRun(s[0]) && |s| > 1 && inRun(s[1]) {
      CollapseRunsHead(s[1..], inRun);
    }
  }

  /** Every character of the result is `_` or a character of `s` outside the runs. */
  lemma {:induction false} CollapseRunsChars(s: string, inRun: char -> bool, c: char)
    ensures c in CollapseRuns(s, inRun) ==> c == '_' || (c in s && !inRun(c))
    decreases |s|
  {
    if s != [] {
      CollapseRunsChars(s[1..], inRun, c);
    }
  }

  /** When `_` itself is a run character, the result never holds `__`. */
  lemma {:induction false} CollapseRunsNoDouble(s: string, inRun: char -> bool)
    requires inRun('_')
    ensures NoDoubleUnderscore(CollapseRuns(s, inRun))
    decreases |s|
  {
    if s != [] {
      var t := s[1..];
      CollapseRunsNoDouble(t, inRun);
      var rt := CollapseRuns(t, inRun);
      var r := CollapseRuns(s, inRun);
      if !inRun(s[0]) {
        assert r == [s[0]] + rt;
        assert s[0] != '_';
        forall i | 0 <= i < |r| - 1 ensures !(r[i] == '_' && r[i + 1] == '_') {
          if i > 0 { assert r[i] == rt[i - 1] && r[i + 1] == rt[i]; }
        }
      } else if |s| > 1 && inRun(s[1]) {
      } else {
        assert r == "_" + rt;
        if t != [] {
          CollapseRunsHead(t, inRun);
          assert rt[0] != '_';
        }
        forall i | 0 <= i < |r| - 1 ensures !(r[i] == '_' && r[i + 1] == '_') {
          if i > 0 { assert r[i] == rt[i - 1] && r[i + 1] == rt[i]; }
        }
      }
    }
  }

  /** A text with no `__` whose only run characters are underscores is left as it is. */
  lemma {:induction false} CollapseRunsFixed(s: string, inRun: char -> bool)
    requires NoDoubleUnderscore(s)
    requires forall c :: c in s && inRun(c) ==> c == '_'
    ensures CollapseRuns(s, inRun) == s
    decreases |s|
  {
    if s != [] {
      var t := s[1..];
      assert NoDoubleUnderscore(t) by {
        forall i | 0 <= i < |t| - 1 ensures !(t[i] == '_' && t[i + 1] == '_') {
          assert t[i] == s[i + 1] && t[i + 1] == s[i + 2];
        }
      }
      CollapseRunsFixed(t, inRun);
      assert s == [s[0]] + t;
      assert s[0] in s && (|s| > 1 ==> s[1] in s);
      assert |s| > 1 ==> !(s[0] == '_' && s[1] == '_');
    }
  }

  /** Prepending one character to a text and collapsing underscore runs only depends on the
      collapsed text. */
  function ConsCollapsed(c: char, y: string): string {
    if c == '_' && y != [] && y[0] == '_' then y else [c] + y
  }

  lemma CollapseUnderscoresCons(c: char, x: string)
    ensures CollapseRuns([c] + x, IsUnderscore) == ConsCollapsed(c, CollapseRuns(x, IsUnderscore))
  {
    assert ([c] + x)[1..] == x;
    if x != [] {
      CollapseRunsHead(x, IsUnderscore);
    }
  }

  /** One pass of `s.replace("__", "_")` does not change what collapsing underscore runs gives. */
  lemma {:induction false} ReplaceDoubleUnderscorePreservesCollapse(s: string)
    ensures CollapseRuns(ReplaceAll(s, "__", "_"), IsUnderscore) == CollapseRuns(s, IsUnderscore)
    decreases |s|
  {
    if |s| >= 2 {
      if s[..2] == "__" {
        var t := s[2..];
        ReplaceDoubleUnderscorePreservesCollapse(t);
        var rt := ReplaceAll(t, "__", "_");
        assert ReplaceAll(s, "__", "_") == "_" + rt;
        CollapseUnderscoresCons('_', rt);
        assert s == [s[0]] + ([s[1]] + t);
        CollapseUnderscoresCons('_', [s[1]] + t);
        CollapseUnderscoresCons('_', t);
      } else {
        var t := s[1..];
        ReplaceDoubleUnderscorePreservesCollapse(t);
        assert ReplaceAll(s, "__", "_") == [s[0]] + ReplaceAll(t, "__", "_");
        CollapseUnderscoresCons(s[0], ReplaceAll(t, "__", "_"));
        assert s == [s[0]] + t;
        CollapseUnderscoresCons(s[0], t);
      }
    }
  }

  /** One pass of `s.replace("__", "_")` shortens any text holding `__`. */
  lemma {:induction false} ReplaceDoubleUnderscoreShrinks(s: string)
    ensures |ReplaceAll(s, "__", "_")| <= |s|
    ensures Contains(s, "__") ==> |ReplaceAll(s, "__", "_")| < |s|
    decreases |s|
  {
    if |s| >= 2 {
      if s[..2] == "__" {
        ReplaceDoubleUnderscoreShrinks(s[2..]);
      } else {
        ReplaceDoubleUnderscoreShrinks(s[1..]);
      }
    } else if |s| == 1 {
      assert !Contains(s[1..], "__");
    }
  }
}
