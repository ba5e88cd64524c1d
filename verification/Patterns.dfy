/** The hand-written checks of feed names and email addresses decide what the server's patterns say. */
module Patterns {
  import opened Regexes
  import opened Text
  import opened Updates

  // ----- Feed names -----

  function NamePattern(most: nat): Regex {
    Then(One(LowerAlnum), Then(UpTo(One(LowerAlnumDash), most), Lits(".json")))
  }

  const NAME_PATTERN := NamePattern(79)

  /** What may follow the first character. */
  predicate IsNameTail(t: string, most: nat) {
    5 <= |t| <= most + 5 && AllMembers(LowerAlnumDash, t[..|t| - 5]) && t[|t| - 5..] == ".json"
  }

  lemma TailIsPattern(t: string, most: nat)
    ensures Matches(Then(UpTo(One(LowerAlnumDash), most), Lits(".json")), t) <==> IsNameTail(t, most)
  {
    var middle := UpTo(One(LowerAlnumDash), most);
    if Matches(Then(middle, Lits(".json")), t) {
      var i := ThenSplits(middle, Lits(".json"), t);
      LitsMatch(".json", t[i..]);
      UpToOfClass(LowerAlnumDash, most, t[..i]);
      assert i == |t| - 5;
    }
    if IsNameTail(t, most) {
      var i: nat := |t| - 5;
      LitsMatch(".json", t[i..]);
      UpToOfClass(LowerAlnumDash, most, t[..i]);
      ThenAt(middle, Lits(".json"), t, i);
    }
  }

  lemma ValidNamePieces(name: string)
    ensures ValidName(name) <==> name != "" && Member(LowerAlnum, name[0]) && IsNameTail(name[1..], 79)
  {
    if |name| >= 6 {
      var t := name[1..];
      assert name[|name| - 5..] == t[|t| - 5..];
      var u := t[..|t| - 5];
      assert forall i :: 1 <= i < |name| - 5 ==> u[i - 1] == name[i];
      assert forall i :: 0 <= i < |u| ==> u[i] == name[i + 1];
    }
  }

  lemma NamePatternCuts(name: string, most: nat)
    ensures Matches(NamePattern(most), name) <==> name != "" && Member(LowerAlnum, name[0]) && IsNameTail(name[1..], most)
  {
    OneFirst(LowerAlnum, Then(UpTo(One(LowerAlnumDash), most), Lits(".json")), name);
    if name != "" {
      TailIsPattern(name[1..], most);
    }
  }

  /** A name is valid exactly if the pattern for feed names matches it. */
  lemma ValidNameIsPattern(name: string)
    ensures ValidName(name) <==> Matches(NAME_PATTERN, name)
  {
    ValidNamePieces(name);
    NamePatternCuts(name, 79);
  }

  // ----- Email addresses -----

  const PART := Plus(One(NeitherAtNorSpace))
  const AFTER_AT := Then(PART, Then(Lit('.'), PART))
  const EMAIL_PATTERN := Then(PART, Then(Lit('@'), AFTER_AT))

  /** A part ends and the character c stands at position i. */
  predicate PartThen(s: string, i: int, c: char) {
    0 < i < |s| && s[i] == c && AllMembers(NeitherAtNorSpace, s[..i])
  }

  lemma PartSplits(c: char, r: Regex, s: string) returns (i: nat)
    requires Matches(Then(PART, Then(Lit(c), r)), s)
    ensures PartThen(s, i, c) && Matches(r, s[i + 1..])
  {
    i := ThenSplits(PART, Then(Lit(c), r), s);
    PlusOfClass(NeitherAtNorSpace, s[..i]);
    OneFirst(Just(c), r, s[i..]);
    assert s[i..][1..] == s[i + 1..];
  }

  lemma PartJoins(c: char, r: Regex, s: string, i: nat)
    requires PartThen(s, i, c) && Matches(r, s[i + 1..])
    ensures Matches(Then(PART, Then(Lit(c), r)), s)
  {
    PlusOfClass(NeitherAtNorSpace, s[..i]);
    assert s[i..][1..] == s[i + 1..];
    OneFirst(Just(c), r, s[i..]);
    ThenAt(PART, Then(Lit(c), r), s, i);
  }

  /** The address cut at an at sign and at a dot after it. */
  ghost predicate CutAt(s: string, at: int, dot: int) {
    && 0 < at < dot - 1 && dot < |s| - 1 && s[at] == '@' && s[dot] == '.'
    && forall i :: 0 <= i < |s| && i != at ==> Member(NeitherAtNorSpace, s[i])
  }

  lemma CutIsPieces(s: string, at: int, dot: int)
    requires 0 < at < dot - 1 && dot < |s| - 1
    ensures CutAt(s, at, dot) <==>
              PartThen(s, at, '@') && PartThen(s[at + 1..], dot - at - 1, '.') && AllMembers(NeitherAtNorSpace, s[dot + 1..])
  {
    var t := s[at + 1..];
    assert forall i :: 0 <= i < at ==> s[..at][i] == s[i];
    assert forall i :: at < i < dot ==> t[..dot - at - 1][i - at - 1] == s[i];
    assert forall i :: dot < i < |s| ==> s[dot + 1..][i - dot - 1] == s[i];
  }

  lemma ValidEmailCuts(s: string)
    ensures ValidEmail(s) <==> |s| <= 255 && exists at: nat, dot: nat :: CutAt(s, at, dot)
  {
    if ValidEmail(s) {
      var at: nat, dot: nat :| 0 < at < dot - 1 && dot < |s| - 1 && s[at] == '@' && s[dot] == '.'
                               && forall i :: 0 <= i < |s| && s[i] == '@' ==> i == at;
      assert CutAt(s, at, dot);
    }
    if at: nat, dot: nat :| |s| <= 255 && CutAt(s, at, dot) {
      CutIsValid(s, at, dot);
    }
  }

  lemma CutIsValid(s: string, at: nat, dot: nat)
    requires |s| <= 255 && CutAt(s, at, dot)
    ensures ValidEmail(s)
  {
    forall i | 0 <= i < |s| ensures !IsPatternSpace(s[i]) && (s[i] == '@' ==> i == at) {
      assert i != at ==> Member(NeitherAtNorSpace, s[i]);
    }
  }

  /** An address is valid exactly if it has at most 255 bytes and the pattern for addresses matches it. */
  lemma ValidEmailIsPattern(s: string)
    ensures ValidEmail(s) <==> |s| <= 255 && Matches(EMAIL_PATTERN, s)
  {
    ValidEmailCuts(s);
    if Matches(EMAIL_PATTERN, s) {
      PatternCuts(s);
    }
    if at: nat, dot: nat :| CutAt(s, at, dot) {
      CutMatches(s, at, dot);
    }
  }

  lemma PatternCuts(s: string)
    requires Matches(EMAIL_PATTERN, s)
    ensures exists at: nat, dot: nat :: CutAt(s, at, dot)
  {
    var at := PartSplits('@', AFTER_AT, s);
    var t := s[at + 1..];
    var k := PartSplits('.', PART, t);
    PlusOfClass(NeitherAtNorSpace, t[k + 1..]);
    assert t[k + 1..] == s[at + 1 + k + 1..];
    CutIsPieces(s, at, at + 1 + k);
  }

  lemma CutMatches(s: string, at: nat, dot: nat)
    requires CutAt(s, at, dot)
    ensures Matches(EMAIL_PATTERN, s)
  {
    CutIsPieces(s, at, dot);
    var t := s[at + 1..];
    assert t[dot - at..] == s[dot + 1..];
    PlusOfClass(NeitherAtNorSpace, t[dot - at..]);
    PartJoins('.', PART, t, dot - at - 1);
    PartJoins('@', AFTER_AT, s, at);
  }
}
