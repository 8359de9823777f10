/**
 * The server's filename normaliser (UploadController::normalizeFilename):
 * split the original name into file name and extension as PHP's pathinfo
 * does, replace every character outside [A-Za-z0-9_-] of the file name by
 * '_', collapse runs of '_', trim '_' from both ends, cut to 180 characters,
 * then append '_' + time() + '_' + an 8-character random token + '.' + the
 * lower-cased extension. time() and Str::random(8) are parameters.
 *
 * PHP strings are byte strings and the pattern has no /u flag, so each
 * `char` here stands for one byte of the name.
 */
module FilenameNormalizer {
  import opened Wrappers

  /** Str::limit($normalized, 180, ''). */
  const STEM_LIMIT: nat := 180

  predicate IsAllowed(c: char)
  {
    ('A' <= c <= 'Z') || ('a' <= c <= 'z') || ('0' <= c <= '9') || c == '_' || c == '-'
  }

  /** The characters PHP's trim and rtrim strip by default: " \t\n\r\0\x0B". */
  predicate IsBlank(c: char)
  {
    c == ' ' || c == '\t' || c == '\n' || c == '\r' || c == '\0' || c as int == 11
  }

  predicate AllAllowed(s: string)
  {
    forall i :: 0 <= i < |s| ==> IsAllowed(s[i])
  }

  /** Positions `i` and `i + 1` of `s` both hold '_'. */
  predicate DoubleUnderscoreAt(s: string, i: int)
    requires 0 <= i < |s| - 1
  {
    s[i] == '_' && s[i + 1] == '_'
  }

  predicate NoDoubleUnderscore(s: string)
  {
    forall i :: 0 <= i < |s| - 1 ==> !DoubleUnderscoreAt(s, i)
  }

  /** What the normaliser promises of the part before the unique suffix. */
  predicate IsSafeStem(s: string)
  {
    && AllAllowed(s)
    && NoDoubleUnderscore(s)
    && (s == [] || s[0] != '_')
    && |s| <= STEM_LIMIT
  }

  // ---------------------------------------------------------------------
  // pathinfo($filename, PATHINFO_EXTENSION / PATHINFO_FILENAME)
  // ---------------------------------------------------------------------

  /** Position of the last occurrence of `c` in `s`, if any (memrchr). */
  function LastIndexOf(s: string, c: char): (r: Option<nat>)
    ensures r.Some? ==> r.value < |s| && s[r.value] == c
    ensures r.Some? ==> forall j :: r.value < j < |s| ==> s[j] != c
    ensures r.None? ==> c !in s
  {
    if s == [] then None
    else if s[|s| - 1] == c then Some(|s| - 1)
    else
      var r := LastIndexOf(s[..|s| - 1], c);
      assert s == s[..|s| - 1] + [s[|s| - 1]];
      r
  }

  /** The path with its trailing '/' characters removed. */
  function TrimTrailingSlashes(s: string): (r: string)
    ensures |r| <= |s| && r == s[..|r|]
    ensures r == [] || r[|r| - 1] != '/'
    ensures forall i :: |r| <= i < |s| ==> s[i] == '/'
  {
    if s != [] && s[|s| - 1] == '/' then TrimTrailingSlashes(s[..|s| - 1]) else s
  }

  /** PHP's basename on a POSIX system: the last '/'-separated component. */
  function Basename(path: string): (r: string)
    ensures '/' !in r
  {
    var t := TrimTrailingSlashes(path);
    match LastIndexOf(t, '/')
    case None => t
    case Some(i) => t[i + 1..]
  }

  /** PATHINFO_EXTENSION: what follows the last '.' of the basename, or "" when it has none. */
  function Extension(path: string): (r: string)
    ensures '/' !in r && '.' !in r
  {
    var b := Basename(path);
    match LastIndexOf(b, '.')
    case None => ""
    case Some(i) => b[i + 1..]
  }

  /** PATHINFO_FILENAME: the basename up to its last '.', or all of it. */
  function FileName(path: string): (r: string)
    ensures '/' !in r
  {
    var b := Basename(path);
    match LastIndexOf(b, '.')
    case None => b
    case Some(i) => b[..i]
  }

  /**
   * The basename is what follows the last '/' of the path once its trailing
   * '/' characters are gone: a suffix of it, preceded by '/' unless it is
   * the whole of it.
   */
  lemma BasenameIsLastSegment(path: string)
    ensures var t := TrimTrailingSlashes(path); var b := Basename(path);
      && |b| <= |t| && b == t[|t| - |b|..]
      && (|b| < |t| ==> t[|t| - |b| - 1] == '/')
  {
    var t := TrimTrailingSlashes(path);
    match LastIndexOf(t, '/')
    case None =>
      assert Basename(path) == t == t[0..];
    case Some(i) =>
      SuffixAfter(t, i, Basename(path));
      assert t[i] == '/';
  }

  /** What follows position i of t is the suffix of t of its own length. */
  lemma SuffixAfter(t: string, i: nat, b: string)
    requires i < |t| && b == t[i + 1..]
    ensures |b| < |t| && |t| - |b| - 1 == i && b == t[|t| - |b|..]
  {
  }

  /**
   * The basename splits into FILENAME and EXTENSION around its last '.';
   * one without a '.' is its FILENAME, with an empty EXTENSION.
   */
  lemma PathInfoSplit(path: string)
    ensures '.' in Basename(path) ==> FileName(path) + "." + Extension(path) == Basename(path)
    ensures '.' !in Basename(path) ==> FileName(path) == Basename(path) && Extension(path) == ""
  {
    var b := Basename(path);
    match LastIndexOf(b, '.')
    case None =>
    case Some(i) =>
      assert b[..i] + "." + b[i + 1..] == b;
  }

  lemma BasenameOfPlainName(s: string)
    requires '/' !in s
    ensures Basename(s) == s
  {
    assert TrimTrailingSlashes(s) == s;
  }

  // ---------------------------------------------------------------------
  // The string pipeline
  // ---------------------------------------------------------------------

  /** preg_replace('/[^A-Za-z0-9_\-]/', '_', $s). */
  function ReplaceDisallowed(s: string): (r: string)
    ensures |r| == |s| && AllAllowed(r)
    ensures forall i :: 0 <= i < |s| && IsAllowed(s[i]) ==> r[i] == s[i]
    ensures forall i :: 0 <= i < |s| && !IsAllowed(s[i]) ==> r[i] == '_'
  {
    seq(|s|, i requires 0 <= i < |s| => if IsAllowed(s[i]) then s[i] else '_')
  }

  /** The characters of `s` other than '_', in order. */
  ghost function DropUnderscores(s: string): string
  {
    if s == [] then [] else (if s[0] == '_' then [] else [s[0]]) + DropUnderscores(s[1..])
  }

  /**
   * One flag per character of `s` other than '_', in order: whether a '_'
   * comes right before it (`after` says whether one comes before `s`).
   */
  ghost function UnderscoreBefore(s: string, after: bool): seq<bool>
  {
    if s == [] then []
    else if s[0] == '_' then UnderscoreBefore(s[1..], true)
    else [after] + UnderscoreBefore(s[1..], false)
  }

  /** preg_replace('/_+/', '_', $s): every run of '_' becomes a single '_'. */
  function CollapseUnderscores(s: string): (r: string)
    ensures |r| <= |s|
    ensures |r| == 0 <==> |s| == 0
    ensures AllAllowed(s) ==> AllAllowed(r)
    ensures NoDoubleUnderscore(r)
  {
    if |s| <= 1 then s
    else if s[0] == '_' && s[1] == '_' then CollapseUnderscores(s[1..])
    else
      var t := CollapseUnderscores(s[1..]);
      PrependKeepsNoDouble(s[0], t);
      [s[0]] + t
  }

  /** Putting a character in front of a string without "__" adds none, unless both are '_'. */
  lemma PrependKeepsNoDouble(c: char, t: string)
    requires NoDoubleUnderscore(t)
    requires c == '_' && t != [] ==> t[0] != '_'
    ensures NoDoubleUnderscore([c] + t)
  {
    var r := [c] + t;
    forall i | 0 <= i < |r| - 1 ensures !DoubleUnderscoreAt(r, i) {
      if i > 0 {
        assert r[i] == t[i - 1] && r[i + 1] == t[i] && !DoubleUnderscoreAt(t, i - 1);
      }
    }
  }

  /** ltrim($s, '_'). */
  function TrimLeadingUnderscores(s: string): (r: string)
    ensures |r| <= |s|
    ensures r == [] || r[0] != '_'
    ensures forall i :: 0 <= i < |s| - |r| ==> s[i] == '_'
  {
    if s != [] && s[0] == '_' then TrimLeadingUnderscores(s[1..]) else s
  }

  /** rtrim($s, '_'). */
  function TrimTrailingUnderscores(s: string): (r: string)
    ensures |r| <= |s| && forall i :: 0 <= i < |r| ==> r[i] == s[i]
    ensures r == [] || r[|r| - 1] != '_'
    ensures forall i :: |r| <= i < |s| ==> s[i] == '_'
  {
    if s != [] && s[|s| - 1] == '_' then TrimTrailingUnderscores(s[..|s| - 1]) else s
  }

  /** trim($s, '_'): the part of `s` between its leading and its trailing run of '_'. */
  function TrimUnderscores(s: string): (r: string)
    ensures r == [] || (r[0] != '_' && r[|r| - 1] != '_')
  {
    TrimTrailingUnderscores(TrimLeadingUnderscores(s))
  }

  /** What trim keeps is a contiguous part of `s`, starting after its leading run of '_'. */
  lemma TrimUnderscoresIsSlice(s: string)
    ensures var k := |s| - |TrimLeadingUnderscores(s)|;
      k + |TrimUnderscores(s)| <= |s| && TrimUnderscores(s) == s[k..k + |TrimUnderscores(s)|]
  {
    var left := TrimLeadingUnderscores(s);
    LeadingTrimIsSuffix(s);
    TrimSlice(s, left, |s| - |left|, TrimTrailingUnderscores(left));
  }

  /** ... and what it drops on either side of that part is '_' only. */
  lemma TrimDropsUnderscores(s: string)
    ensures var k := |s| - |TrimLeadingUnderscores(s)|;
      && (forall i :: 0 <= i < k ==> s[i] == '_')
      && (forall i :: k + |TrimUnderscores(s)| <= i < |s| ==> s[i] == '_')
  {
    var left := TrimLeadingUnderscores(s);
    LeadingTrimIsSuffix(s);
    TrimSlice(s, left, |s| - |left|, TrimTrailingUnderscores(left));
  }

  /** ltrim keeps a suffix of `s`. */
  lemma {:induction false} LeadingTrimIsSuffix(s: string)
    ensures TrimLeadingUnderscores(s) == s[|s| - |TrimLeadingUnderscores(s)|..]
  {
    if s != [] && s[0] == '_' {
      LeadingTrimIsSuffix(s[1..]);
      var r := TrimLeadingUnderscores(s);
      assert s[1..][|s[1..]| - |r|..] == s[|s| - |r|..];
    }
  }

  lemma TrimSlice(s: string, left: string, k: nat, r: string)
    requires k <= |s| && left == s[k..]
    requires |r| <= |left| && forall i :: 0 <= i < |r| ==> r[i] == left[i]
    requires forall i :: |r| <= i < |left| ==> left[i] == '_'
    ensures r == s[k..k + |r|]
    ensures forall i :: k + |r| <= i < |s| ==> s[i] == '_'
  {
    assert forall i :: 0 <= i < |r| ==> r[i] == s[k + i];
    assert forall i :: k + |r| <= i < |s| ==> s[i] == left[i - k];
  }

  /** rtrim($s): strip trailing blanks. */
  function TrimTrailingBlanks(s: string): (r: string)
    ensures |r| <= |s| && r == s[..|r|]
    ensures (forall i :: 0 <= i < |s| ==> !IsBlank(s[i])) ==> r == s
    ensures r == [] || !IsBlank(r[|r| - 1])
    ensures forall i :: |r| <= i < |s| ==> IsBlank(s[i])
  {
    if s != [] && IsBlank(s[|s| - 1]) then TrimTrailingBlanks(s[..|s| - 1]) else s
  }

  /** Str::limit($s, $limit, ''): the string itself when short enough, else rtrim of its first $limit characters. */
  function Limit(s: string, limit: nat): (r: string)
    ensures |r| <= limit && |r| <= |s| && r == s[..|r|]
    ensures |s| <= limit ==> r == s
    ensures |s| > limit ==> (r == [] || !IsBlank(r[|r| - 1])) && forall i :: |r| <= i < limit ==> IsBlank(s[i])
  {
    if |s| <= limit then s else TrimTrailingBlanks(s[..limit])
  }

  /**
   * The normalised file name, before the unique suffix. It is made of
   * [A-Za-z0-9_-] only, never holds "__", never starts with '_' and has at
   * most 180 characters; in particular it holds neither '/' nor '.'.
   */
  function Stem(filename: string): (r: string)
    ensures IsSafeStem(r)
    ensures '/' !in r && '.' !in r
  {
    var collapsed := CollapseUnderscores(ReplaceDisallowed(FileName(filename)));
    var r := Limit(TrimUnderscores(collapsed), STEM_LIMIT);
    assert IsSafeStem(r) by {
      TrimKeepsSafety(collapsed);
      LimitKeepsSafety(TrimUnderscores(collapsed));
    }
    AllowedHasNoSeparator(r);
    r
  }

  function DigitChar(d: nat): (c: char)
    requires d < 10
    ensures '0' <= c <= '9'
  {
    ('0' as int + d) as char
  }

  /** The decimal notation of `n`, as PHP writes time() in a string. */
  function Decimal(n: nat): (r: string)
    ensures |r| >= 1
    ensures forall i :: 0 <= i < |r| ==> '0' <= r[i] <= '9'
    ensures r[0] == '0' ==> n == 0
  {
    if n < 10 then [DigitChar(n)] else Decimal(n / 10) + [DigitChar(n % 10)]
  }

  /** The number a string of decimal digits denotes. */
  function DecimalValue(s: string): nat
    requires forall i :: 0 <= i < |s| ==> '0' <= s[i] <= '9'
  {
    if s == [] then 0 else 10 * DecimalValue(s[..|s| - 1]) + (s[|s| - 1] as int - '0' as int)
  }

  /** strtolower: ASCII upper-case letters to lower case, every other byte unchanged. */
  function Lower(s: string): (r: string)
    ensures |r| == |s|
    ensures forall i :: 0 <= i < |r| ==> !('A' <= r[i] <= 'Z')
    ensures forall i :: 0 <= i < |s| && !('A' <= s[i] <= 'Z') ==> r[i] == s[i]
    ensures forall i :: 0 <= i < |s| && 'A' <= s[i] <= 'Z' ==> r[i] == (s[i] as int + 32) as char
  {
    seq(|s|, i requires 0 <= i < |s| => if 'A' <= s[i] <= 'Z' then (s[i] as int + 32) as char else s[i])
  }

  /** The name under which the upload is stored: stem_time_token.ext. */
  function NormalizeFilename(filename: string, time: nat, token: string): string
  {
    Stem(filename) + "_" + Decimal(time) + "_" + token + "." + Lower(Extension(filename))
  }

  // ---------------------------------------------------------------------
  // Properties
  // ---------------------------------------------------------------------

  /** Reading back the decimal notation of `n` gives `n`. */
  lemma {:induction false} DecimalRoundTrip(n: nat)
    ensures DecimalValue(Decimal(n)) == n
  {
    if n >= 10 {
      DecimalRoundTrip(n / 10);
      var s := Decimal(n);
      assert s[..|s| - 1] == Decimal(n / 10);
    }
  }

  lemma SubstringKeepsSafety(s: string, a: nat, b: nat)
    requires a <= b <= |s|
    requires AllAllowed(s) && NoDoubleUnderscore(s)
    ensures AllAllowed(s[a..b]) && NoDoubleUnderscore(s[a..b])
  {
    var t := s[a..b];
    forall i | 0 <= i < |t| - 1 ensures !DoubleUnderscoreAt(t, i) {
      assert t[i] == s[a + i] && t[i + 1] == s[a + i + 1] && !DoubleUnderscoreAt(s, a + i);
    }
  }

  /** Trimming '_' keeps a safe string safe and leaves it not starting with '_'. */
  lemma TrimKeepsSafety(s: string)
    requires AllAllowed(s) && NoDoubleUnderscore(s)
    ensures var t := TrimUnderscores(s);
      AllAllowed(t) && NoDoubleUnderscore(t) && (t == [] || t[0] != '_')
  {
    LeadingTrimKeepsSafety(s);
    TrailingTrimKeepsSafety(TrimLeadingUnderscores(s));
  }

  lemma LeadingTrimKeepsSafety(s: string)
    requires AllAllowed(s) && NoDoubleUnderscore(s)
    ensures AllAllowed(TrimLeadingUnderscores(s)) && NoDoubleUnderscore(TrimLeadingUnderscores(s))
  {
    var left := TrimLeadingUnderscores(s);
    LeadingTrimIsSuffix(s);
    assert left == s[|s| - |left|..|s|];
    SubstringKeepsSafety(s, |s| - |left|, |s|);
  }

  lemma TrailingTrimKeepsSafety(left: string)
    requires AllAllowed(left) && NoDoubleUnderscore(left) && (left == [] || left[0] != '_')
    ensures var t := TrimTrailingUnderscores(left);
      AllAllowed(t) && NoDoubleUnderscore(t) && (t == [] || t[0] != '_')
  {
    var t := TrimTrailingUnderscores(left);
    SubstringKeepsSafety(left, 0, |t|);
    assert t == left[..|t|];
  }

  /** Str::limit keeps a safe string safe: the cut is a prefix and there is no blank to strip. */
  lemma LimitKeepsSafety(t: string)
    requires AllAllowed(t) && NoDoubleUnderscore(t) && (t == [] || t[0] != '_')
    ensures IsSafeStem(Limit(t, STEM_LIMIT))
  {
    if |t| > STEM_LIMIT {
      var cut := t[..STEM_LIMIT];
      SubstringKeepsSafety(t, 0, STEM_LIMIT);
      forall i | 0 <= i < |cut| ensures !IsBlank(cut[i]) {
        assert IsAllowed(cut[i]);
      }
      assert TrimTrailingBlanks(cut) == cut;
    }
  }

  /** Each step of the pipeline leaves a clean stem as it is. */
  lemma PipelineKeepsClean(name: string)
    requires IsSafeStem(name) && (name == [] || name[|name| - 1] != '_')
    ensures Limit(TrimUnderscores(CollapseUnderscores(ReplaceDisallowed(name))), STEM_LIMIT) == name
  {
    ReplaceKeepsAllowed(name);
    CollapseKeepsClean(name);
    TrimKeepsTrimmed(name);
  }

  lemma ReplaceKeepsAllowed(s: string)
    requires AllAllowed(s)
    ensures ReplaceDisallowed(s) == s
  {
  }

  lemma TrimKeepsTrimmed(s: string)
    requires s == [] || (s[0] != '_' && s[|s| - 1] != '_')
    ensures TrimUnderscores(s) == s
  {
    assert TrimLeadingUnderscores(s) == s;
  }

  /** A name whose file name is already a clean stem keeps it unchanged. */
  lemma StemKeepsCleanName(filename: string)
    requires IsSafeStem(FileName(filename))
    requires FileName(filename) == [] || FileName(filename)[|FileName(filename)| - 1] != '_'
    ensures Stem(filename) == FileName(filename)
  {
    PipelineKeepsClean(FileName(filename));
  }

  lemma TailKeepsNoDouble(s: string)
    requires s != [] && NoDoubleUnderscore(s)
    ensures NoDoubleUnderscore(s[1..])
  {
    forall i | 0 <= i < |s[1..]| - 1 ensures !DoubleUnderscoreAt(s[1..], i) {
      assert s[1..][i] == s[i + 1] && s[1..][i + 1] == s[i + 2] && !DoubleUnderscoreAt(s, i + 1);
    }
  }

  /** Collapsing keeps the first and the last character. */
  lemma {:induction false} CollapseKeepsEnds(s: string)
    ensures var r := CollapseUnderscores(s);
            s != [] ==> r[0] == s[0] && r[|r| - 1] == s[|s| - 1]
  {
    if |s| > 1 {
      CollapseKeepsEnds(s[1..]);
      var t := CollapseUnderscores(s[1..]);
      assert s[1..][0] == s[1] && s[1..][|s| - 2] == s[|s| - 1];
      if !(s[0] == '_' && s[1] == '_') {
        assert CollapseUnderscores(s) == [s[0]] + t;
      }
    }
  }

  /** Collapsing a string that holds no "__" changes nothing. */
  lemma {:induction false} CollapseKeepsClean(s: string)
    requires NoDoubleUnderscore(s)
    ensures CollapseUnderscores(s) == s
  {
    if |s| > 1 {
      TailKeepsNoDouble(s);
      CollapseKeepsClean(s[1..]);
      assert !DoubleUnderscoreAt(s, 0);
      assert CollapseUnderscores(s) == [s[0]] + s[1..];
    }
  }

  /** A position holding `c` with no `c` after it is the last occurrence of `c`. */
  lemma LastIndexAt(s: string, i: nat, c: char)
    requires i < |s| && s[i] == c && forall j :: i < j < |s| ==> s[j] != c
    ensures LastIndexOf(s, c) == Some(i)
  {
    var r := LastIndexOf(s, c);
    assert r.Some? by {
      assert s[i] in s;
    }
  }

  lemma NotInJoin(c: char, a: string, b: string)
    requires c !in a && c !in b
    ensures c !in a + b
  {
  }

  /** pathinfo splits head.ext back into head and ext when neither holds '.' or '/'. */
  lemma PathInfoOfJoin(head: string, ext: string)
    requires '/' !in head && '.' !in head && '/' !in ext && '.' !in ext
    ensures '/' !in head + "." + ext
    ensures Extension(head + "." + ext) == ext
    ensures FileName(head + "." + ext) == head
  {
    var r := head + "." + ext;
    NotInJoin('/', head, ".");
    NotInJoin('/', head + ".", ext);
    BasenameOfPlainName(r);
    assert r[|head| + 1..] == ext;
    LastIndexAt(r, |head|, '.');
    assert r[..|head|] == head;
  }

  lemma AllowedHasNoSeparator(t: string)
    requires AllAllowed(t)
    ensures '/' !in t && '.' !in t
  {
    assert forall i :: 0 <= i < |t| ==> IsAllowed(t[i]);
  }

  /** Lower-casing adds neither '/' nor '.'. */
  lemma LowerHasNoSeparator(e: string)
    requires '/' !in e && '.' !in e
    ensures '/' !in Lower(e) && '.' !in Lower(e)
  {
    var ext := Lower(e);
    assert forall i :: 0 <= i < |e| ==> ext[i] == e[i] || 'A' <= e[i] <= 'Z';
  }

  /** stem_time_token holds neither '/' nor '.'. */
  lemma HeadHasNoSeparator(stem: string, digits: string, token: string)
    requires '/' !in stem && '.' !in stem && '/' !in token && '.' !in token
    requires forall i :: 0 <= i < |digits| ==> '0' <= digits[i] <= '9'
    ensures '/' !in stem + "_" + digits + "_" + token && '.' !in stem + "_" + digits + "_" + token
  {
    assert '/' !in digits && '.' !in digits;
    NotInJoin('/', stem, "_");
    NotInJoin('/', stem + "_", digits);
    NotInJoin('/', stem + "_" + digits, "_");
    NotInJoin('/', stem + "_" + digits + "_", token);
    NotInJoin('.', stem, "_");
    NotInJoin('.', stem + "_", digits);
    NotInJoin('.', stem + "_" + digits, "_");
    NotInJoin('.', stem + "_" + digits + "_", token);
  }

  /**
   * pathinfo of the stored name gives back the pieces: its extension is the
   * lower-cased original extension (even when that is empty) and its file
   * name is stem_time_token. The name has no '/', so the file stays directly
   * under uploads/. Str::random draws letters and digits, so the token holds
   * neither '.' nor '/'.
   */
  lemma NormalizedNameParts(filename: string, time: nat, token: string)
    requires '.' !in token && '/' !in token
    ensures '/' !in NormalizeFilename(filename, time, token)
    ensures Extension(NormalizeFilename(filename, time, token)) == Lower(Extension(filename))
    ensures FileName(NormalizeFilename(filename, time, token)) == Stem(filename) + "_" + Decimal(time) + "_" + token
  {
    LowerHasNoSeparator(Extension(filename));
    HeadHasNoSeparator(Stem(filename), Decimal(time), token);
    PathInfoOfJoin(Stem(filename) + "_" + Decimal(time) + "_" + token, Lower(Extension(filename)));
  }

  lemma DistinctMiddles(head: string, middle1: string, middle2: string, dot: string, ext: string)
    requires |middle1| == |middle2| && middle1 != middle2
    ensures head + middle1 + dot + ext != head + middle2 + dot + ext
  {
    assert (head + middle1 + dot + ext)[|head|..|head| + |middle1|] == middle1;
    assert (head + middle2 + dot + ext)[|head|..|head| + |middle2|] == middle2;
  }

  /** Two sessions that draw different tokens in the same second get different names. */
  lemma DistinctTokensGiveDistinctNames(filename: string, time: nat, token1: string, token2: string)
    requires |token1| == |token2| && token1 != token2
    ensures NormalizeFilename(filename, time, token1) != NormalizeFilename(filename, time, token2)
  {
    DistinctMiddles(Stem(filename) + "_" + Decimal(time) + "_", token1, token2, ".", Lower(Extension(filename)));
  }

  /**
   * Collapsing keeps every character other than '_', in order, and keeps a
   * '_' in front of exactly those that had one; with NoDoubleUnderscore and
   * the kept first and last characters this fixes the result completely.
   */
  lemma {:induction false} CollapseKeepsLetters(s: string)
    ensures DropUnderscores(CollapseUnderscores(s)) == DropUnderscores(s)
    ensures forall after :: UnderscoreBefore(CollapseUnderscores(s), after) == UnderscoreBefore(s, after)
  {
    if |s| > 1 {
      var t := CollapseUnderscores(s[1..]);
      CollapseKeepsLetters(s[1..]);
      if s[0] == '_' && s[1] == '_' {
        assert DropUnderscores(s) == DropUnderscores(s[1..]);
        forall after ensures UnderscoreBefore(s, after) == UnderscoreBefore(s[1..], after) {
          assert s[1..][0] == '_';
          assert UnderscoreBefore(s[1..], after) == UnderscoreBefore(s[1..][1..], true);
        }
      } else {
        var r := [s[0]] + t;
        assert r[0] == s[0] && r[1..] == t;
        assert DropUnderscores(r) == (if s[0] == '_' then [] else [s[0]]) + DropUnderscores(t);
      }
    }
  }

  /** A character that does not start "__" stays in front of the collapsed rest. */
  lemma CollapseCons(c: char, t: string)
    requires t != [] && !(c == '_' && t[0] == '_')
    ensures CollapseUnderscores([c] + t) == [c] + CollapseUnderscores(t)
  {
    var s := [c] + t;
    assert s[0] == c && s[1] == t[0] && s[1..] == t;
  }

  /** Collapsing a clean prefix that does not end with '_' leaves it in front. */
  lemma {:induction false} CollapseAfterClean(x: string, y: string)
    requires x != [] && NoDoubleUnderscore(x) && x[|x| - 1] != '_'
    ensures CollapseUnderscores(x + y) == x + CollapseUnderscores(y)
  {
    var t := x[1..];
    assert x == [x[0]] + t;
    if |x| > 1 {
      TailKeepsNoDouble(x);
      CollapseAfterClean(t, y);
      assert !DoubleUnderscoreAt(x, 0);
      assert x + y == [x[0]] + (t + y);
      CollapseCons(x[0], t + y);
      assert [x[0]] + (t + CollapseUnderscores(y)) == x + CollapseUnderscores(y);
    } else if y != [] {
      assert x + y == [x[0]] + y;
      CollapseCons(x[0], y);
    } else {
      assert x + y == x;
      assert CollapseUnderscores(x) == x && CollapseUnderscores(y) == [];
    }
  }

  // The example "My Report (final).PDF", step by step. Literals are passed
  // in as equal parameters so that the verifier does not evaluate the
  // recursive functions on them eagerly.

  lemma ReportReplace(raw: string)
    requires raw == "My Report (final)"
    ensures ReplaceDisallowed(raw) == "My_Report" + "__final_"
  {
  }

  lemma ReportCollapseTail(b: string, c: string)
    requires b == "__final_" && c == "_final_"
    ensures CollapseUnderscores(b) == c
  {
    assert b[1..] == c;
    CollapseKeepsClean(c);
  }

  lemma ReportCollapse(raw: string, a: string, b: string, c: string)
    requires raw == "My Report (final)" && a == "My_Report" && b == "__final_" && c == "_final_"
    ensures CollapseUnderscores(ReplaceDisallowed(raw)) == a + c
  {
    ReportReplace(raw);
    assert NoDoubleUnderscore(a);
    CollapseAfterClean(a, b);
    ReportCollapseTail(b, c);
  }

  lemma ReportTrim(collapsed: string, trimmed: string)
    requires collapsed == "My_Report" + "_final_" && trimmed == "My_Report_final"
    ensures TrimUnderscores(collapsed) == trimmed
  {
    assert TrimLeadingUnderscores(collapsed) == collapsed;
    ReportTrimTrailing(collapsed, trimmed);
  }

  lemma ReportTrimTrailing(collapsed: string, trimmed: string)
    requires collapsed == "My_Report" + "_final_" && trimmed == "My_Report_final"
    ensures TrimTrailingUnderscores(collapsed) == trimmed
  {
    assert collapsed[|collapsed| - 1] == '_';
    assert collapsed[..|collapsed| - 1] == trimmed;
    assert TrimTrailingUnderscores(trimmed) == trimmed;
  }

  lemma ReportPathInfo(name: string)
    requires name == "My Report (final).PDF"
    ensures FileName(name) == "My Report (final)"
    ensures Extension(name) == "PDF"
  {
    BasenameOfPlainName(name);
    assert LastIndexOf(name, '.') == Some(17);
  }

  lemma ReportLower(ext: string)
    requires ext == "PDF"
    ensures Lower(ext) == "pdf"
  {
  }

  /** "My Report (final).PDF" is stored as My_Report_final_<time>_<token>.pdf. */
  lemma ReportExample(name: string, time: nat, token: string)
    requires name == "My Report (final).PDF"
    ensures NormalizeFilename(name, time, token) == "My_Report_final" + "_" + Decimal(time) + "_" + token + ".pdf"
  {
    ReportPathInfo(name);
    ReportCollapse("My Report (final)", "My_Report", "__final_", "_final_");
    ReportTrim("My_Report" + "_final_", "My_Report_final");
    ReportLower("PDF");
    var stem := "My_Report_final";
    assert Limit(stem, STEM_LIMIT) == stem;
    var r := NormalizeFilename(name, time, token);
    assert r == Stem(name) + "_" + Decimal(time) + "_" + token + "." + Lower(Extension(name));
    ReportJoin(Stem(name), Decimal(time), token, Lower(Extension(name)));
  }

  lemma ReportJoin(stem: string, digits: string, token: string, ext: string)
    requires stem == "My_Report_final" && ext == "pdf"
    ensures stem + "_" + digits + "_" + token + "." + ext == "My_Report_final" + "_" + digits + "_" + token + ".pdf"
  {
  }

  /**
   * The cut to 180 characters comes after the trim, so a stem can end with
   * '_': 179 letters followed by " b" keep their '_' as the 180th character,
   * and the stored name then holds "__" before the time.
   */
  lemma StemCanEndWithUnderscore(letters: string)
    requires |letters| == 179
    requires forall i :: 0 <= i < |letters| ==> 'a' <= letters[i] <= 'z'
    ensures |Stem(letters + " b")| == STEM_LIMIT
    ensures Stem(letters + " b")[STEM_LIMIT - 1] == '_'
  {
    var name := letters + " b";
    var replaced := letters + "_b";
    LettersThenBlank(letters, name, replaced);
    CollapseKeepsClean(replaced);
    CutAfterUnderscore(letters, replaced);
  }

  lemma CutAfterUnderscore(letters: string, replaced: string)
    requires |letters| == 179
    requires forall i :: 0 <= i < |letters| ==> 'a' <= letters[i] <= 'z'
    requires replaced == letters + "_b"
    ensures Limit(replaced, STEM_LIMIT) == replaced[..STEM_LIMIT]
    ensures replaced[STEM_LIMIT - 1] == '_'
  {
    var cut := replaced[..STEM_LIMIT];
    forall i | 0 <= i < |cut| ensures !IsBlank(cut[i]) {
      if i < 179 { assert cut[i] == letters[i]; }
    }
  }

  lemma LettersThenBlank(letters: string, name: string, replaced: string)
    requires |letters| == 179
    requires forall i :: 0 <= i < |letters| ==> 'a' <= letters[i] <= 'z'
    requires name == letters + " b" && replaced == letters + "_b"
    ensures ReplaceDisallowed(FileName(name)) == replaced
    ensures NoDoubleUnderscore(replaced)
    ensures TrimUnderscores(replaced) == replaced
  {
    assert FileName(name) == name by {
      assert forall i :: 0 <= i < |name| ==> name[i] == ' ' || name[i] == 'b' || 'a' <= name[i] <= 'z';
      PlainFileName(name);
    }
    assert ReplaceDisallowed(name) == replaced;
    LettersThenUnderscore(letters, replaced);
  }

  lemma LettersThenUnderscore(letters: string, replaced: string)
    requires |letters| == 179
    requires forall i :: 0 <= i < |letters| ==> 'a' <= letters[i] <= 'z'
    requires replaced == letters + "_b"
    ensures NoDoubleUnderscore(replaced)
    ensures TrimUnderscores(replaced) == replaced
  {
    forall i | 0 <= i < |replaced| - 1 ensures !DoubleUnderscoreAt(replaced, i) {
      if i < 179 { assert replaced[i] == letters[i]; }
    }
    assert replaced[0] == letters[0];
    assert TrimLeadingUnderscores(replaced) == replaced;
  }

  /** A name with no '/' and no '.' is its own PATHINFO_FILENAME. */
  lemma PlainFileName(name: string)
    requires '/' !in name && '.' !in name
    ensures FileName(name) == name
  {
    BasenameOfPlainName(name);
  }
}
