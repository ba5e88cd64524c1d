/** The string handling that accounts and credentials share, over ASCII. */
module Text {
  import opened Regexes

  predicate IsSpace(c: char) { c == ' ' || '\t' <= c <= '\r' }

  /** White space cut off both ends. */
  function Trim(s: string): (t: string)
    ensures t != "" ==> !IsSpace(t[0]) && !IsSpace(t[|t| - 1])
    decreases |s|
  {
    if s != "" && IsSpace(s[0]) then Trim(s[1..])
    else if s != "" && IsSpace(s[|s| - 1]) then Trim(s[..|s| - 1])
    else s
  }

  predicate AllSpaces(s: string) {
    forall i :: 0 <= i < |s| ==> IsSpace(s[i])
  }

  /** Trim takes away white space and nothing else. */
  lemma {:induction false} TrimCutsSpaces(s: string) returns (left: string, right: string)
    ensures s == left + Trim(s) + right && AllSpaces(left) && AllSpaces(right)
    decreases |s|
  {
    if s != "" && IsSpace(s[0]) {
      left, right := TrimCutsSpaces(s[1..]);
      left := [s[0]] + left;
    } else if s != "" && IsSpace(s[|s| - 1]) {
      left, right := TrimCutsSpaces(s[..|s| - 1]);
      right := right + [s[|s| - 1]];
    } else {
      left, right := "", "";
    }
  }

  /** The database's TRIM, which cuts only blanks. */
  function SqlTrim(s: string): string
    decreases |s|
  {
    if s != "" && s[0] == ' ' then SqlTrim(s[1..])
    else if s != "" && s[|s| - 1] == ' ' then SqlTrim(s[..|s| - 1])
    else s
  }

  predicate Blank(s: string) { SqlTrim(s) == "" }

  /** White space is what the trimming of texts cuts in ASCII. */
  lemma SpacesAre(c: char)
    ensures IsSpace(c) <==> c in {' ', '\t', '\n', '\U{000B}', '\U{000C}', '\r'}
  {}

  lemma {:induction false} BlankIsOnlyBlanks(s: string)
    ensures Blank(s) <==> forall i :: 0 <= i < |s| ==> s[i] == ' '
    decreases |s|
  {
    if s != "" && s[0] == ' ' {
      BlankIsOnlyBlanks(s[1..]);
      assert forall i :: 1 <= i < |s| ==> s[i] == s[1..][i - 1];
    } else if s != "" {
      VisibleStart(s);
    }
  }

  /** A text that starts with something visible is not blank. */
  lemma {:induction false} VisibleStart(s: string)
    requires s != "" && s[0] != ' '
    ensures !Blank(s)
    decreases |s|
  {
    if |s| > 1 && s[|s| - 1] == ' ' {
      VisibleStart(s[..|s| - 1]);
    }
  }

  function LowerChar(c: char): (l: char)
    ensures IsSpace(l) <==> IsSpace(c)
    ensures !('A' <= l <= 'Z') && (l != c ==> 'A' <= c <= 'Z' && l as int - 'a' as int == c as int - 'A' as int)
  {
    if 'A' <= c <= 'Z' then ((c as int) + 32) as char else c
  }

  function Lower(s: string): (t: string)
    ensures |t| == |s| && forall i :: 0 <= i < |t| ==> t[i] == LowerChar(s[i])
  {
    seq(|s|, i requires 0 <= i < |s| => LowerChar(s[i]))
  }

  function NormalizeEmail(email: string): string { Lower(Trim(email)) }

  lemma TrimTwice(s: string)
    ensures Trim(Trim(s)) == Trim(s)
  {}

  lemma NormalizeTwice(email: string)
    ensures NormalizeEmail(NormalizeEmail(email)) == NormalizeEmail(email) && Trim(NormalizeEmail(email)) == NormalizeEmail(email)
  {
    var t := Lower(Trim(email));
    assert Trim(t) == t;
    assert Lower(t) == t;
  }

  /** At most 255 bytes: one at sign with something before it, and a dot inside what follows it. */
  predicate ValidEmail(s: string) {
    && |s| <= 255
    && (forall i :: 0 <= i < |s| ==> !IsPatternSpace(s[i]))
    && exists at: nat, dot: nat ::
         && 0 < at < dot - 1 && dot < |s| - 1 && s[at] == '@' && s[dot] == '.'
         && (forall i :: 0 <= i < |s| && s[i] == '@' ==> i == at)
  }
}
