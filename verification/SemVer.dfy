/** The version check of a desktop manifest: a regular expression followed by a second look at the prerelease
    identifiers, against the grammar of Semantic Versioning 2.0.0. Strings are sequences of bytes. */
module SemVer {
  import opened Regexes

  // ----- The pattern -----

  const NUMBER := Or(Lit('0'), Then(One(PositiveDigit), Star(One(Digit))))
  const IDENTIFIER := Plus(One(IdentifierChar))
  const ITEM := Then(Lit('.'), IDENTIFIER)
  const DOTTED := Then(IDENTIFIER, Star(ITEM))
  const CORE := Then(NUMBER, Then(Lit('.'), Then(NUMBER, Then(Lit('.'), NUMBER))))
  const SUFFIX := Then(Maybe(Then(Lit('-'), DOTTED)), Maybe(Then(Lit('+'), DOTTED)))
  const VERSION_PATTERN := Then(CORE, SUFFIX)

  // ----- The check as the validator makes it -----

  /** Where c first occurs in s, or |s|. */
  function IndexOf(s: string, c: char): (i: nat)
    ensures i <= |s|
    ensures i < |s| ==> s[i] == c
    ensures forall k :: 0 <= k < i ==> s[k] != c
  {
    if s == "" || s[0] == c then 0 else 1 + IndexOf(s[1..], c)
  }

  /** Split at the first separator only. */
  function SplitOnce(s: string, separator: char): seq<string> {
    var i := IndexOf(s, separator);
    if i == |s| then [s] else [s[..i], s[i + 1..]]
  }

  /** Split at every separator. */
  function SplitAll(s: string, separator: char): seq<string>
    decreases |s|
  {
    var i := IndexOf(s, separator);
    if i == |s| then [s] else [s[..i]] + SplitAll(s[i + 1..], separator)
  }

  /** Cut digits off both ends. */
  function TrimDigits(s: string): string
    decreases |s|
  {
    if s != "" && IsDigit(s[0]) then TrimDigits(s[1..])
    else if s != "" && IsDigit(s[|s| - 1]) then TrimDigits(s[..|s| - 1])
    else s
  }

  /** A numeric identifier with a needless leading zero. */
  predicate LeadingZero(id: string) {
    |id| > 1 && id[0] == '0' && TrimDigits(id) == ""
  }

  predicate NoLeadingZeros(parts: seq<string>) {
    forall i :: 0 <= i < |parts| ==> !LeadingZero(parts[i])
  }

  predicate PrereleaseAllowed(version: string) {
    var parts := SplitOnce(SplitOnce(version, '+')[0], '-');
    |parts| == 2 ==> NoLeadingZeros(SplitAll(parts[1], '.'))
  }

  ghost predicate AcceptsVersion(version: string) {
    |version| <= 128 && Matches(VERSION_PATTERN, version) && PrereleaseAllowed(version)
  }

  // ----- The grammar of SemVer 2.0.0 -----

  predicate IsDigits(s: string) { s != "" && forall i :: 0 <= i < |s| ==> IsDigit(s[i]) }

  predicate IsIdentifierChars(s: string) { s != "" && forall i :: 0 <= i < |s| ==> IsIdentifierChar(s[i]) }

  predicate IsNumericIdentifier(s: string) {
    s == "0" || (s != "" && IsPositiveDigit(s[0]) && (|s| == 1 || IsDigits(s[1..])))
  }

  /** Has a character that is not a digit, with identifier characters or nothing on either side. */
  ghost predicate IsAlphanumericIdentifier(s: string) {
    exists i :: 0 <= i < |s| && (IsLetter(s[i]) || s[i] == '-')
                && (i == 0 || IsIdentifierChars(s[..i])) && (i + 1 == |s| || IsIdentifierChars(s[i + 1..]))
  }

  ghost predicate IsPrereleaseIdentifier(s: string) { IsAlphanumericIdentifier(s) || IsNumericIdentifier(s) }

  ghost predicate IsBuildIdentifier(s: string) { IsAlphanumericIdentifier(s) || IsDigits(s) }

  ghost predicate IsDotSeparated(s: string, one: string -> bool)
    decreases |s|
  {
    one(s) || exists i :: 0 <= i < |s| && s[i] == '.' && one(s[..i]) && IsDotSeparated(s[i + 1..], one)
  }

  ghost predicate IsVersionCore(s: string) {
    exists i, j :: 0 <= i < j < |s| && s[i] == '.' && s[j] == '.'
                   && IsNumericIdentifier(s[..i]) && IsNumericIdentifier(s[i + 1..j]) && IsNumericIdentifier(s[j + 1..])
  }

  /** What may follow the version core. */
  ghost predicate IsSuffix(t: string, pre: string -> bool, build: string -> bool) {
    || t == ""
    || (t[0] == '-' && IsDotSeparated(t[1..], pre))
    || (t[0] == '+' && IsDotSeparated(t[1..], build))
    || (t[0] == '-' && exists j :: 1 <= j < |t| && t[j] == '+'
                                   && IsDotSeparated(t[1..j], pre) && IsDotSeparated(t[j + 1..], build))
  }

  ghost predicate IsVersion(s: string, pre: string -> bool, build: string -> bool) {
    exists i :: 0 <= i <= |s| && IsVersionCore(s[..i]) && IsSuffix(s[i..], pre, build)
  }

  ghost predicate IsSemVer(s: string) {
    IsVersion(s, x => IsPrereleaseIdentifier(x), x => IsBuildIdentifier(x))
  }

  // ----- The pattern describes versions whose identifiers may have leading zeros -----

  lemma IdentifierIsChars(s: string)
    ensures Matches(IDENTIFIER, s) <==> IsIdentifierChars(s)
  {
    PlusOfClass(IdentifierChar, s);
  }

  lemma NumberIsNumeric(s: string)
    ensures Matches(NUMBER, s) <==> IsNumericIdentifier(s)
  {
    OneFirst(PositiveDigit, Star(One(Digit)), s);
    if s != "" {
      StarOfClass(Digit, s[1..]);
    }
  }

  lemma ItemIsDotChars(s: string)
    ensures Matches(ITEM, s) <==> s != "" && s[0] == '.' && IsIdentifierChars(s[1..])
  {
    OneFirst(Just('.'), IDENTIFIER, s);
    if s != "" {
      IdentifierIsChars(s[1..]);
    }
  }

  /** The tail of a dotted list. */
  lemma {:induction false} DottedTail(s: string)
    ensures Matches(Star(ITEM), s) <==> s == "" || (s[0] == '.' && IsDotSeparated(s[1..], IsIdentifierChars))
    decreases |s|, 0
  {
    if s != "" {
      if Matches(Star(ITEM), s) {
        var i :| 1 <= i <= |s| && Matches(ITEM, s[..i]) && Matches(Star(ITEM), s[i..]);
        ItemIsDotChars(s[..i]);
        DottedTail(s[i..]);
        var t := s[1..];
        assert s[..i][1..] == t[..i - 1];
        if i < |s| {
          assert t[i - 1] == s[i] && t[i..] == s[i..][1..];
        } else {
          assert t[..i - 1] == t;
        }
      }
      if s[0] == '.' && IsDotSeparated(s[1..], IsIdentifierChars) {
        var t := s[1..];
        DottedIsSeparated(t);
        var i := ThenSplits(IDENTIFIER, Star(ITEM), t);
        IdentifierIsChars(t[..i]);
        assert s[..i + 1][1..] == t[..i] && s[i + 1..] == t[i..];
        ItemIsDotChars(s[..i + 1]);
      }
    }
  }

  lemma {:induction false} DottedIsSeparated(s: string)
    ensures Matches(DOTTED, s) <==> IsDotSeparated(s, IsIdentifierChars)
    decreases |s|, 1
  {
    var tail := Star(ITEM);
    if Matches(DOTTED, s) {
      var i :| 0 <= i <= |s| && Matches(IDENTIFIER, s[..i]) && Matches(tail, s[i..]);
      IdentifierIsChars(s[..i]);
      DottedTail(s[i..]);
      if i < |s| {
        assert s[i..][1..] == s[i + 1..];
      } else {
        assert s[..i] == s;
      }
    }
    if IsIdentifierChars(s) {
      assert s[..|s|] == s && s[|s|..] == "";
      IdentifierIsChars(s);
      assert Matches(tail, s[|s|..]);
    } else if IsDotSeparated(s, IsIdentifierChars) {
      var i :| 0 <= i < |s| && s[i] == '.' && IsIdentifierChars(s[..i]) && IsDotSeparated(s[i + 1..], IsIdentifierChars);
      IdentifierIsChars(s[..i]);
      assert i > 0 && s[i..][1..] == s[i + 1..];
      DottedTail(s[i..]);
    }
  }

  /** A number ends and a dot stands at position i. */
  ghost predicate NumberDotAt(s: string, i: int) {
    0 <= i < |s| && s[i] == '.' && IsNumericIdentifier(s[..i])
  }

  lemma NumberDotSplits(r: Regex, s: string) returns (i: nat)
    requires Matches(Then(NUMBER, Then(Lit('.'), r)), s)
    ensures NumberDotAt(s, i) && Matches(r, s[i + 1..])
  {
    i := ThenSplits(NUMBER, Then(Lit('.'), r), s);
    OneFirst(Just('.'), r, s[i..]);
    assert s[i..][1..] == s[i + 1..];
    NumberIsNumeric(s[..i]);
  }

  lemma NumberDotJoins(r: Regex, s: string, i: nat)
    requires NumberDotAt(s, i) && Matches(r, s[i + 1..])
    ensures Matches(Then(NUMBER, Then(Lit('.'), r)), s)
  {
    NumberIsNumeric(s[..i]);
    assert s[i..][1..] == s[i + 1..];
    OneFirst(Just('.'), r, s[i..]);
    ThenAt(NUMBER, Then(Lit('.'), r), s, i);
  }

  lemma CoreIsVersionCore(s: string)
    ensures Matches(CORE, s) <==> IsVersionCore(s)
  {
    if Matches(CORE, s) {
      CoreSplits(s);
    }
    if IsVersionCore(s) {
      CoreJoins(s);
    }
  }

  lemma CoreSplits(s: string)
    requires Matches(CORE, s)
    ensures IsVersionCore(s)
  {
    var i := NumberDotSplits(Then(NUMBER, Then(Lit('.'), NUMBER)), s);
    var t := s[i + 1..];
    var k := NumberDotSplits(NUMBER, t);
    var j := i + 1 + k;
    NumberIsNumeric(t[k + 1..]);
    assert t[..k] == s[i + 1..j] && t[k + 1..] == s[j + 1..] && t[k] == s[j];
  }

  lemma CoreJoins(s: string)
    requires IsVersionCore(s)
    ensures Matches(CORE, s)
  {
    var i, j :| 0 <= i < j < |s| && s[i] == '.' && s[j] == '.'
                && IsNumericIdentifier(s[..i]) && IsNumericIdentifier(s[i + 1..j]) && IsNumericIdentifier(s[j + 1..]);
    LaterPieces(s, i, j);
    CoreJoinsAt(s[i + 1..], j - i - 1, s[i + 1..j], s[j + 1..]);
    NumberDotJoins(Then(NUMBER, Then(Lit('.'), NUMBER)), s, i);
  }

  lemma LaterPieces(s: string, i: nat, j: nat)
    requires i < j < |s| && s[j] == '.'
    ensures s[i + 1..] == s[i + 1..j] + "." + s[j + 1..]
  {}

  lemma CoreJoinsAt(t: string, k: nat, minor: string, patch: string)
    requires t == minor + "." + patch && k == |minor| && IsNumericIdentifier(minor) && IsNumericIdentifier(patch)
    ensures Matches(Then(NUMBER, Then(Lit('.'), NUMBER)), t)
  {
    assert t[..k] == minor && t[k + 1..] == patch && t[k] == '.';
    NumberIsNumeric(patch);
    NumberDotJoins(NUMBER, t, k);
  }

  /** An optional part introduced by c. */
  lemma MaybeListed(c: char, s: string)
    ensures Matches(Maybe(Then(Lit(c), DOTTED)), s) <==> s == "" || (s[0] == c && IsDotSeparated(s[1..], IsIdentifierChars))
  {
    OneFirst(Just(c), DOTTED, s);
    if s != "" {
      DottedIsSeparated(s[1..]);
    }
  }

  /** The prerelease part, if any, ends at j, where a plus sign or the end of the text follows. */
  ghost predicate CutAt(t: string, j: int, pre: string -> bool, build: string -> bool) {
    && 0 <= j <= |t|
    && (j == 0 || (t[0] == '-' && IsDotSeparated(t[1..j], pre)))
    && (j == |t| || (t[j] == '+' && IsDotSeparated(t[j + 1..], build)))
  }

  lemma PartsMatch(t: string, j: nat)
    requires j <= |t|
    ensures Matches(Maybe(Then(Lit('-'), DOTTED)), t[..j]) && Matches(Maybe(Then(Lit('+'), DOTTED)), t[j..])
            <==> CutAt(t, j, IsIdentifierChars, IsIdentifierChars)
  {
    MaybeListed('-', t[..j]);
    MaybeListed('+', t[j..]);
    assert j > 0 ==> t[..j][1..] == t[1..j];
    assert j < |t| ==> t[j..][1..] == t[j + 1..];
  }

  lemma SuffixCuts(t: string, pre: string -> bool, build: string -> bool)
    ensures IsSuffix(t, pre, build) <==> exists j :: CutAt(t, j, pre, build)
  {
    if IsSuffix(t, pre, build) {
      var j: nat;
      if t == "" || t[0] == '+' {
        j := 0;
      } else if IsDotSeparated(t[1..], pre) {
        j := |t|;
        assert t[1..j] == t[1..];
      } else {
        j :| 1 <= j < |t| && t[j] == '+' && IsDotSeparated(t[1..j], pre) && IsDotSeparated(t[j + 1..], build);
      }
      assert CutAt(t, j, pre, build);
    }
    if j :| CutAt(t, j, pre, build) {
      if j == |t| && t != "" {
        assert t[1..j] == t[1..];
      }
    }
  }

  lemma SuffixIsSuffix(t: string)
    ensures Matches(SUFFIX, t) <==> IsSuffix(t, IsIdentifierChars, IsIdentifierChars)
  {
    var pre, build := Maybe(Then(Lit('-'), DOTTED)), Maybe(Then(Lit('+'), DOTTED));
    SuffixCuts(t, IsIdentifierChars, IsIdentifierChars);
    if Matches(SUFFIX, t) {
      var j := ThenSplits(pre, build, t);
      PartsMatch(t, j);
    }
    if j :| CutAt(t, j, IsIdentifierChars, IsIdentifierChars) {
      PartsMatch(t, j);
      ThenAt(pre, build, t, j);
    }
  }

  lemma PatternIsVersion(s: string)
    ensures Matches(VERSION_PATTERN, s) <==> IsVersion(s, IsIdentifierChars, IsIdentifierChars)
  {
    forall i | 0 <= i <= |s|
      ensures Matches(CORE, s[..i]) <==> IsVersionCore(s[..i])
    {
      CoreIsVersionCore(s[..i]);
    }
    forall i | 0 <= i <= |s|
      ensures Matches(SUFFIX, s[i..])
              <==> IsSuffix(s[i..], IsIdentifierChars, IsIdentifierChars)
    {
      SuffixIsSuffix(s[i..]);
    }
  }

  // ----- The second look finds exactly the prerelease identifiers -----

  lemma {:induction false} TrimmedToNothing(s: string)
    ensures TrimDigits(s) == "" <==> forall i :: 0 <= i < |s| ==> IsDigit(s[i])
    decreases |s|
  {
    if s != "" && IsDigit(s[0]) {
      TrimmedToNothing(s[1..]);
      assert forall i :: 1 <= i < |s| ==> s[i] == s[1..][i - 1];
    } else if s != "" && IsDigit(s[|s| - 1]) {
      TrimmedToNothing(s[..|s| - 1]);
    }
  }

  lemma AlphanumericIsCharsNotDigits(s: string)
    ensures IsAlphanumericIdentifier(s) <==> IsIdentifierChars(s) && !IsDigits(s)
  {}

  lemma PrereleaseIdentifierIs(s: string)
    ensures IsPrereleaseIdentifier(s) <==> IsIdentifierChars(s) && !LeadingZero(s)
  {
    AlphanumericIsCharsNotDigits(s);
    TrimmedToNothing(s);
    if IsNumericIdentifier(s) && |s| > 1 {
      assert forall i :: 1 <= i < |s| ==> s[i] == s[1..][i - 1];
    }
    if IsDigits(s) && !LeadingZero(s) {
      assert |s| > 1 ==> IsPositiveDigit(s[0]);
    }
  }

  lemma BuildIdentifierIs(s: string)
    ensures IsBuildIdentifier(s) <==> IsIdentifierChars(s)
  {}

  predicate AllParts(parts: seq<string>, one: string -> bool) {
    forall i :: 0 <= i < |parts| ==> one(parts[i])
  }

  lemma IndexIsFirst(s: string, c: char, i: nat)
    requires i <= |s| && (i < |s| ==> s[i] == c) && forall k :: 0 <= k < i ==> s[k] != c
    ensures IndexOf(s, c) == i
  {}

  /** With dot-free items the first dot ends the first item. */
  lemma FirstItem(s: string, i: nat, one: string -> bool)
    requires forall x :: one(x) ==> '.' !in x
    requires i < |s| && s[i] == '.' && '.' !in s[..i]
    ensures IsDotSeparated(s, one) <==> one(s[..i]) && IsDotSeparated(s[i + 1..], one)
  {}

  lemma PartsFromFirst(first: string, rest: seq<string>, one: string -> bool)
    ensures AllParts([first] + rest, one) <==> one(first) && AllParts(rest, one)
  {
    var parts := [first] + rest;
    assert parts[0] == first && parts[1..] == rest;
    assert AllParts(parts, one) ==> AllParts(parts[1..], one);
    if one(first) && AllParts(rest, one) {
      forall k | 0 <= k < |parts| ensures one(parts[k]) {
        assert k > 0 ==> parts[k] == rest[k - 1];
      }
    }
  }

  /** A list of dot-free items is dot-separated exactly when splitting at the dots yields only such items. */
  lemma {:induction false} SplitRecoversItems(s: string, one: string -> bool)
    requires forall x :: one(x) ==> '.' !in x
    ensures IsDotSeparated(s, one) <==> AllParts(SplitAll(s, '.'), one)
    decreases |s|
  {
    var i := IndexOf(s, '.');
    if i < |s| {
      SplitRecoversItems(s[i + 1..], one);
      FirstItem(s, i, one);
      PartsFromFirst(s[..i], SplitAll(s[i + 1..], '.'), one);
    } else {
      assert '.' !in s;
      assert SplitAll(s, '.')[0] == s;
    }
  }

  /** Dot-separated lists depend only on what `one` accepts. */
  lemma {:induction false} SameItems(s: string, p: string -> bool, q: string -> bool)
    requires forall x :: p(x) <==> q(x)
    ensures IsDotSeparated(s, p) <==> IsDotSeparated(s, q)
    decreases |s|
  {
    if !p(s) {
      if IsDotSeparated(s, p) {
        var i :| 0 <= i < |s| && s[i] == '.' && p(s[..i]) && IsDotSeparated(s[i + 1..], p);
        SameItems(s[i + 1..], p, q);
      }
      if IsDotSeparated(s, q) {
        var i :| 0 <= i < |s| && s[i] == '.' && q(s[..i]) && IsDotSeparated(s[i + 1..], q);
        SameItems(s[i + 1..], p, q);
      }
    }
  }

  ghost function PrereleaseItem(): string -> bool { x => IsPrereleaseIdentifier(x) }
  ghost function BuildItem(): string -> bool { x => IsBuildIdentifier(x) }

  lemma BuildListIs(s: string)
    ensures IsDotSeparated(s, BuildItem()) <==> IsDotSeparated(s, IsIdentifierChars)
  {
    forall x ensures BuildItem()(x) <==> IsIdentifierChars(x) {
      BuildIdentifierIs(x);
    }
    SameItems(s, BuildItem(), IsIdentifierChars);
  }

  lemma PrereleaseListIs(s: string)
    ensures IsDotSeparated(s, PrereleaseItem())
            <==> IsDotSeparated(s, IsIdentifierChars) && NoLeadingZeros(SplitAll(s, '.'))
  {
    var parts := SplitAll(s, '.');
    forall x ensures PrereleaseItem()(x) <==> IsIdentifierChars(x) && !LeadingZero(x) {
      PrereleaseIdentifierIs(x);
    }
    SplitRecoversItems(s, PrereleaseItem());
    SplitRecoversItems(s, IsIdentifierChars);
    assert forall i :: 0 <= i < |parts| ==> (PrereleaseItem()(parts[i]) <==> IsIdentifierChars(parts[i]) && !LeadingZero(parts[i]));
  }

  lemma NumericHasNoSigns(s: string)
    requires IsNumericIdentifier(s)
    ensures '-' !in s && '+' !in s
  {
    forall k | 0 < k < |s| ensures s[k] == s[1..][k - 1] {}
  }

  lemma CoreHasNoSigns(s: string)
    requires IsVersionCore(s)
    ensures '-' !in s && '+' !in s
  {
    var i, j :| 0 <= i < j < |s| && s[i] == '.' && s[j] == '.'
                && IsNumericIdentifier(s[..i]) && IsNumericIdentifier(s[i + 1..j]) && IsNumericIdentifier(s[j + 1..]);
    JoinHasNoSigns(s, i, j, s[..i], s[i + 1..j], s[j + 1..]);
  }

  lemma JoinHasNoSigns(s: string, i: nat, j: nat, major: string, minor: string, patch: string)
    requires i < j < |s| && s[i] == '.' && s[j] == '.' && major == s[..i] && minor == s[i + 1..j] && patch == s[j + 1..]
    requires IsNumericIdentifier(major) && IsNumericIdentifier(minor) && IsNumericIdentifier(patch)
    ensures '-' !in s && '+' !in s
  {
    NumericHasNoSigns(major);
    NumericHasNoSigns(minor);
    NumericHasNoSigns(patch);
    assert s == major + "." + minor + "." + patch;
  }

  lemma CharsHaveNoPlus(s: string)
    requires IsIdentifierChars(s)
    ensures '+' !in s
  {}

  lemma {:induction false} ListHasNoPlus(s: string)
    requires IsDotSeparated(s, IsIdentifierChars)
    ensures '+' !in s
    decreases |s|
  {
    if IsIdentifierChars(s) {
      CharsHaveNoPlus(s);
    } else {
      var i :| 0 <= i < |s| && s[i] == '.' && IsIdentifierChars(s[..i]) && IsDotSeparated(s[i + 1..], IsIdentifierChars);
      CharsHaveNoPlus(s[..i]);
      ListHasNoPlus(s[i + 1..]);
      DotJoinHasNoPlus(s, i);
    }
  }

  lemma DotJoinHasNoPlus(s: string, i: nat)
    requires i < |s| && s[i] == '.' && '+' !in s[..i] && '+' !in s[i + 1..]
    ensures '+' !in s
  {
    assert s == s[..i] + "." + s[i + 1..];
  }

  lemma SplitAt(a: string, c: char, b: string)
    requires c !in a
    ensures SplitOnce(a, c) == [a] && SplitOnce(a + [c] + b, c) == [a, b]
  {
    var s := a + [c] + b;
    IndexIsFirst(a, c, |a|);
    IndexIsFirst(s, c, |a|);
    assert s[..|a|] == a && s[|a| + 1..] == b;
  }

  /** However the text was cut by the pattern, the two splits find the same prerelease part, even when the build
      metadata contains dashes. */
  lemma SplitsFindPrerelease(s: string, i: nat, j: nat)
    requires i <= |s| && IsVersionCore(s[..i]) && CutAt(s[i..], j, IsIdentifierChars, IsIdentifierChars)
    ensures SplitOnce(SplitOnce(s, '+')[0], '-') == if j == 0 then [s[..i]] else [s[..i], s[i..][1..j]]
  {
    var core, t := s[..i], s[i..];
    CoreHasNoSigns(core);
    var list := if j == 0 then "" else t[1..j];
    if j > 0 {
      ListHasNoPlus(list);
    }
    PartsJoin(s, i, j);
    SplitsOfParts(s, core, j > 0, list, j < |t|, if j < |t| then t[j + 1..] else "");
  }

  lemma PartsJoin(s: string, i: nat, j: nat)
    requires i <= |s| && j <= |s[i..]| && (j > 0 ==> s[i..][0] == '-') && (j < |s[i..]| ==> s[i..][j] == '+')
    ensures var t := s[i..];
            s == s[..i] + (if j > 0 then "-" + (if j == 0 then "" else t[1..j]) else "")
                 + (if j < |t| then "+" + (if j < |t| then t[j + 1..] else "") else "")
  {
    var t := s[i..];
    assert j > 0 ==> t[..j] == "-" + t[1..j];
    assert j < |t| ==> t[j..] == "+" + t[j + 1..];
    assert s == s[..i] + t[..j] + t[j..];
  }

  lemma SplitsOfParts(s: string, core: string, pre: bool, list: string, build: bool, rest: string)
    requires '+' !in core && '-' !in core && '+' !in list
    requires s == core + (if pre then "-" + list else "") + (if build then "+" + rest else "")
    ensures SplitOnce(SplitOnce(s, '+')[0], '-') == if pre then [core, list] else [core]
  {
    var head := core + if pre then "-" + list else "";
    assert '+' !in head;
    SplitAt(head, '+', rest);
    assert build ==> s == head + "+" + rest;
    assert !build ==> s == head;
    SplitAt(core, '-', list);
    assert pre ==> head == core + "-" + list;
    assert !pre ==> head == core;
  }

  lemma SecondLookDecides(s: string, i: nat, j: nat)
    requires i <= |s| && IsVersionCore(s[..i]) && CutAt(s[i..], j, IsIdentifierChars, IsIdentifierChars)
    ensures PrereleaseAllowed(s) <==> CutAt(s[i..], j, PrereleaseItem(), BuildItem())
  {
    SplitsFindPrerelease(s, i, j);
    var t := s[i..];
    if j > 0 {
      PrereleaseListIs(t[1..j]);
      assert PrereleaseAllowed(s) <==> NoLeadingZeros(SplitAll(t[1..j], '.'));
    } else {
      assert PrereleaseAllowed(s);
    }
    if j < |t| {
      BuildListIs(t[j + 1..]);
    }
  }

  lemma StricterCut(t: string, j: nat)
    requires CutAt(t, j, PrereleaseItem(), BuildItem())
    ensures CutAt(t, j, IsIdentifierChars, IsIdentifierChars)
  {
    if j > 0 {
      PrereleaseListIs(t[1..j]);
    }
    if j < |t| {
      BuildListIs(t[j + 1..]);
    }
  }

  /** The validator accepts exactly the semantic versions of at most 128 bytes. */
  lemma VersionCheckIsExact(s: string)
    ensures AcceptsVersion(s) <==> |s| <= 128 && IsSemVer(s)
  {
    PatternIsVersion(s);
    assert IsSemVer(s) <==> IsVersion(s, PrereleaseItem(), BuildItem());
    if IsVersion(s, IsIdentifierChars, IsIdentifierChars) && PrereleaseAllowed(s) {
      var i :| 0 <= i <= |s| && IsVersionCore(s[..i]) && IsSuffix(s[i..], IsIdentifierChars, IsIdentifierChars);
      SuffixCuts(s[i..], IsIdentifierChars, IsIdentifierChars);
      var j :| CutAt(s[i..], j, IsIdentifierChars, IsIdentifierChars);
      SecondLookDecides(s, i, j);
      SuffixCuts(s[i..], PrereleaseItem(), BuildItem());
    }
    if IsVersion(s, PrereleaseItem(), BuildItem()) {
      var i :| 0 <= i <= |s| && IsVersionCore(s[..i]) && IsSuffix(s[i..], PrereleaseItem(), BuildItem());
      SuffixCuts(s[i..], PrereleaseItem(), BuildItem());
      var j :| CutAt(s[i..], j, PrereleaseItem(), BuildItem());
      StricterCut(s[i..], j);
      SecondLookDecides(s, i, j);
      SuffixCuts(s[i..], IsIdentifierChars, IsIdentifierChars);
    }
  }
}
