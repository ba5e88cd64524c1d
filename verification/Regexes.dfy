/** Regular expressions over strings of bytes, as far as the server's patterns need them. */
module Regexes {

  predicate IsDigit(c: char) { '0' <= c <= '9' }
  predicate IsPositiveDigit(c: char) { '1' <= c <= '9' }
  predicate IsLetter(c: char) { 'A' <= c <= 'Z' || 'a' <= c <= 'z' }
  predicate IsIdentifierChar(c: char) { IsDigit(c) || IsLetter(c) || c == '-' }

  /** White space as a pattern understands it. */
  predicate IsPatternSpace(c: char) { c == ' ' || c == '\t' || c == '\n' || c == '\U{000C}' || c == '\r' }

  datatype Class = Just(c: char) | Digit | PositiveDigit | IdentifierChar | LowerAlnum | LowerAlnumDash | NeitherAtNorSpace

  predicate Member(k: Class, c: char) {
    match k
    case Just(x) => c == x
    case Digit => IsDigit(c)
    case PositiveDigit => IsPositiveDigit(c)
    case IdentifierChar => IsIdentifierChar(c)
    case LowerAlnum => 'a' <= c <= 'z' || '0' <= c <= '9'
    case LowerAlnumDash => 'a' <= c <= 'z' || '0' <= c <= '9' || c == '-'
    case NeitherAtNorSpace => c != '@' && !IsPatternSpace(c)
  }

  datatype Regex = Empty | One(k: Class) | Then(first: Regex, rest: Regex) | Or(a: Regex, b: Regex) | Star(r: Regex)

  function Plus(r: Regex): Regex { Then(r, Star(r)) }
  function Maybe(r: Regex): Regex { Or(Empty, r) }
  function Lit(c: char): Regex { One(Just(c)) }

  /** At most n times r. */
  function UpTo(r: Regex, n: nat): Regex {
    if n == 0 then Empty else Maybe(Then(r, UpTo(r, n - 1)))
  }

  /** The characters of a text one after the other. */
  function Lits(text: string): Regex {
    if text == "" then Empty else Then(Lit(text[0]), Lits(text[1..]))
  }

  /** r matches the whole of s. */
  ghost predicate Matches(r: Regex, s: string)
    decreases |s|, r
  {
    match r
    case Empty => s == ""
    case One(k) => |s| == 1 && Member(k, s[0])
    case Then(a, b) => exists i :: 0 <= i <= |s| && Matches(a, s[..i]) && Matches(b, s[i..])
    case Or(a, b) => Matches(a, s) || Matches(b, s)
    case Star(a) => s == "" || exists i :: 1 <= i <= |s| && Matches(a, s[..i]) && Matches(r, s[i..])
  }

  predicate AllMembers(k: Class, s: string) {
    forall i :: 0 <= i < |s| ==> Member(k, s[i])
  }

  lemma ThenAt(a: Regex, b: Regex, s: string, i: nat)
    requires i <= |s| && Matches(a, s[..i]) && Matches(b, s[i..])
    ensures Matches(Then(a, b), s)
  {}

  lemma ThenSplits(a: Regex, b: Regex, s: string) returns (i: nat)
    requires Matches(Then(a, b), s)
    ensures i <= |s| && Matches(a, s[..i]) && Matches(b, s[i..])
  {
    i :| 0 <= i <= |s| && Matches(a, s[..i]) && Matches(b, s[i..]);
  }

  /** One character first: the rest must match what follows. */
  lemma OneFirst(k: Class, r: Regex, s: string)
    ensures Matches(Then(One(k), r), s) <==> s != "" && Member(k, s[0]) && Matches(r, s[1..])
  {
    if Matches(Then(One(k), r), s) {
      var i := ThenSplits(One(k), r, s);
      assert |s[..i]| == 1 && s[..i][0] == s[0];
      assert i == 1;
    }
    if s != "" && Member(k, s[0]) && Matches(r, s[1..]) {
      assert s[..1] == [s[0]];
      ThenAt(One(k), r, s, 1);
    }
  }

  lemma {:induction false} StarOfClass(k: Class, s: string)
    ensures Matches(Star(One(k)), s) <==> AllMembers(k, s)
    decreases |s|
  {
    if s != "" {
      StarOfClass(k, s[1..]);
      if Matches(Star(One(k)), s) {
        var i :| 1 <= i <= |s| && Matches(One(k), s[..i]) && Matches(Star(One(k)), s[i..]);
        assert i == 1 && s[..1][0] == s[0];
        assert forall j :: 1 <= j < |s| ==> s[j] == s[1..][j - 1];
      }
      if AllMembers(k, s) {
        assert Matches(One(k), s[..1]);
      }
    }
  }

  lemma PlusOfClass(k: Class, s: string)
    ensures Matches(Plus(One(k)), s) <==> s != "" && AllMembers(k, s)
  {
    OneFirst(k, Star(One(k)), s);
    if s != "" {
      StarOfClass(k, s[1..]);
      assert forall j :: 1 <= j < |s| ==> s[j] == s[1..][j - 1];
    }
  }

  lemma {:induction false} UpToOfClass(k: Class, n: nat, s: string)
    ensures Matches(UpTo(One(k), n), s) <==> |s| <= n && AllMembers(k, s)
    decreases n
  {
    if n > 0 {
      OneFirst(k, UpTo(One(k), n - 1), s);
      if s != "" {
        UpToOfClass(k, n - 1, s[1..]);
        assert forall j :: 1 <= j < |s| ==> s[j] == s[1..][j - 1];
      }
    }
  }

  lemma {:induction false} LitsMatch(text: string, s: string)
    ensures Matches(Lits(text), s) <==> s == text
    decreases |text|
  {
    if text != "" {
      OneFirst(Just(text[0]), Lits(text[1..]), s);
      if s != "" {
        LitsMatch(text[1..], s[1..]);
        assert s == [s[0]] + s[1..] && text == [text[0]] + text[1..];
      }
    }
  }
}
