/** Verification codes drawn by rejection sampling: bytes above 249 are thrown away, the others give
    their value modulo ten. */
module RandomCodes {

  newtype Byte = b: int | 0 <= b < 256

  datatype Drawn = Drawn(code: string, used: nat) | NoLength | SourceFailed

  predicate Accepts(b: Byte) { b <= 249 }

  function Digit(b: Byte): char { '0' + (b % 10) as char }

  predicate IsDigit(c: char) { '0' <= c <= '9' }

  /** The digits that a stretch of source bytes contributes, in order. */
  function Digits(source: seq<Byte>): (code: string)
    ensures |code| <= |source|
    ensures forall i :: 0 <= i < |code| ==> IsDigit(code[i])
  {
    if source == [] then ""
    else (if Accepts(source[0]) then [Digit(source[0])] else "") + Digits(source[1..])
  }

  lemma {:induction false} DigitsOfNext(source: seq<Byte>, b: Byte)
    ensures Digits(source + [b]) == Digits(source) + (if Accepts(b) then [Digit(b)] else "")
  {
    if source == [] {
      assert [b][1..] == [];
    } else {
      assert (source + [b])[1..] == source[1..] + [b];
      DigitsOfNext(source[1..], b);
    }
  }

  /** Later bytes only add digits at the end. */
  lemma {:induction false} DigitsGrow(source: seq<Byte>, i: nat, j: nat)
    requires i <= j <= |source|
    ensures Digits(source[..i]) <= Digits(source[..j])
    decreases j - i
  {
    if i < j {
      assert source[..j] == source[..j-1] + [source[j-1]];
      DigitsOfNext(source[..j-1], source[j-1]);
      DigitsGrow(source, i, j - 1);
    }
  }

  /** The source is read one byte at a time; running off its end is the random reader's error. A code is
      made of exactly the first `length` accepted bytes, and no byte is read after the last of them. */
  method RandomDigits(length: int, source: seq<Byte>) returns (r: Drawn)
    ensures r.NoLength? <==> length <= 0
    ensures r.SourceFailed? <==> length > |Digits(source)| && length > 0
    ensures r.Drawn? ==> r.used <= |source| && |r.code| == length && r.code == Digits(source[..r.used])
                         && r.code <= Digits(source)
                         && r.used > 0 && Accepts(source[r.used - 1])
  {
    if length <= 0 {
      return NoLength;
    }
    var code := "";
    var used := 0;
    while |code| < length
      invariant used <= |source| && code == Digits(source[..used]) && |code| <= length
      invariant |code| == length ==> used > 0 && Accepts(source[used - 1])
      decreases |source| - used
    {
      if used == |source| {
        assert source[..used] == source;
        return SourceFailed;
      }
      var b := source[used];
      assert source[..used + 1] == source[..used] + [b];
      DigitsOfNext(source[..used], b);
      used := used + 1;
      if b > 249 {
        continue;
      }
      code := code + [Digit(b)];
    }
    DigitsGrow(source, used, |source|);
    assert source[..|source|] == source;
    return Drawn(code, used);
  }

  // ----- Every code is as likely as any other -----

  /** The accepted byte whose value is 10 * k + d. */
  function ByteFor(c: char, k: nat): Byte
    requires IsDigit(c) && k < 25
  {
    (10 * k + (c - '0') as int) as Byte
  }

  function BytesFor(c: char, n: nat): set<Byte>
    requires IsDigit(c) && n <= 25
  {
    set k: nat | k < n :: ByteFor(c, k)
  }

  lemma ByteForExact(c: char, b: Byte)
    requires IsDigit(c)
    ensures b in BytesFor(c, 25) <==> Accepts(b) && Digit(b) == c
  {
    var v, d := b as int, (c - '0') as int;
    assert (b % 10) as int == v % 10;
    if Accepts(b) && Digit(b) == c {
      var k: nat := v / 10;
      assert v == 10 * k + d && k < 25;
      assert b == ByteFor(c, k);
    }
    if b in BytesFor(c, 25) {
      var k: nat :| k < 25 && b == ByteFor(c, k);
      assert v == 10 * k + d;
      assert v % 10 == d;
    }
  }

  lemma {:induction false} BytesForCount(c: char, n: nat)
    requires IsDigit(c) && n <= 25
    ensures |BytesFor(c, n)| == n
  {
    if n > 0 {
      BytesForCount(c, n - 1);
      assert BytesFor(c, n) == BytesFor(c, n - 1) + {ByteFor(c, n - 1)};
      assert ByteFor(c, n - 1) !in BytesFor(c, n - 1) by {
        forall k: nat | k < n - 1 ensures ByteFor(c, k) != ByteFor(c, n - 1) {
          assert ByteFor(c, k) as int < ByteFor(c, n - 1) as int;
        }
      }
    }
  }

  ghost predicate AllAccepted(source: seq<Byte>) {
    forall i :: 0 <= i < |source| ==> Accepts(source[i])
  }

  function Prepend(heads: set<Byte>, tails: set<seq<Byte>>): set<seq<Byte>> {
    set h, t | h in heads && t in tails :: [h] + t
  }

  lemma InPrepend(heads: set<Byte>, tails: set<seq<Byte>>, s: seq<Byte>)
    ensures s in Prepend(heads, tails) <==> s != [] && s[0] in heads && s[1..] in tails
  {
    if s in Prepend(heads, tails) {
      var h, t :| h in heads && t in tails && s == [h] + t;
      assert s[1..] == t;
    }
    if s != [] {
      assert s == [s[0]] + s[1..];
    }
  }

  lemma DisjointSizes<T>(whole: set<T>, one: set<T>, other: set<T>)
    requires forall x :: x in whole <==> x in one || x in other
    requires forall x :: x in one ==> x !in other
    ensures |whole| == |one| + |other|
  {
    assert whole == one + other;
  }

  lemma WithoutTail(h: Byte, tails: set<seq<Byte>>, t: seq<Byte>)
    requires t in tails
    ensures |Prepend({h}, tails)| == |Prepend({h}, tails - {t})| + 1
  {
    var whole, rest := Prepend({h}, tails), Prepend({h}, tails - {t});
    forall s ensures s in whole <==> s in rest || s in {[h] + t} {
      InPrepend({h}, tails, s);
      InPrepend({h}, tails - {t}, s);
      assert s == [h] + t <==> s != [] && s[0] == h && s[1..] == t;
    }
    InPrepend({h}, tails - {t}, [h] + t);
    DisjointSizes(whole, rest, {[h] + t});
  }

  lemma WithoutHead(heads: set<Byte>, h: Byte, tails: set<seq<Byte>>)
    requires h in heads
    ensures |Prepend(heads, tails)| == |Prepend(heads - {h}, tails)| + |Prepend({h}, tails)|
  {
    var whole, rest, one := Prepend(heads, tails), Prepend(heads - {h}, tails), Prepend({h}, tails);
    forall s ensures s in whole <==> s in rest || s in one
             ensures s in rest ==> s !in one {
      InPrepend(heads, tails, s);
      InPrepend(heads - {h}, tails, s);
      InPrepend({h}, tails, s);
    }
    DisjointSizes(whole, rest, one);
  }

  lemma {:induction false} PrependOneCount(h: Byte, tails: set<seq<Byte>>)
    ensures |Prepend({h}, tails)| == |tails|
  {
    if tails == {} {
      assert Prepend({h}, tails) == {};
    } else {
      var t :| t in tails;
      WithoutTail(h, tails, t);
      PrependOneCount(h, tails - {t});
    }
  }

  lemma {:induction false} PrependCount(heads: set<Byte>, tails: set<seq<Byte>>)
    ensures |Prepend(heads, tails)| == |heads| * |tails|
  {
    if heads == {} {
      assert Prepend(heads, tails) == {};
    } else {
      var h :| h in heads;
      WithoutHead(heads, h, tails);
      PrependOneCount(h, tails);
      PrependCount(heads - {h}, tails);
      assert |heads - {h}| == |heads| - 1;
      assert (|heads| - 1) * |tails| + |tails| == |heads| * |tails|;
    }
  }

  /** The accepted byte sequences that spell a code. */
  function SourcesOf(code: string): set<seq<Byte>>
    requires forall i :: 0 <= i < |code| ==> IsDigit(code[i])
  {
    if code == "" then {[]} else Prepend(BytesFor(code[0], 25), SourcesOf(code[1..]))
  }

  lemma {:induction false} SourcesExact(code: string, source: seq<Byte>)
    requires forall i :: 0 <= i < |code| ==> IsDigit(code[i])
    ensures source in SourcesOf(code) <==> AllAccepted(source) && Digits(source) == code
    decreases |code|
  {
    if source == [] {
      assert code != "" ==> forall s :: s in SourcesOf(code) ==> s != [];
    } else if code == "" {
      if AllAccepted(source) {
        assert Digits(source)[0] == Digit(source[0]);
      }
    } else {
      assert source == [source[0]] + source[1..];
      ByteForExact(code[0], source[0]);
      SourcesExact(code[1..], source[1..]);
      if source in SourcesOf(code) {
        var h, t :| h in BytesFor(code[0], 25) && t in SourcesOf(code[1..]) && source == [h] + t;
        assert t == source[1..];
        assert code == [code[0]] + code[1..];
      }
      if AllAccepted(source) && Digits(source) == code {
        assert Digits(source) == [Digit(source[0])] + Digits(source[1..]);
        assert Digits(source)[0] == Digit(source[0]) && Digits(source)[1..] == Digits(source[1..]);
      }
    }
  }

  function Power(base: nat, n: nat): nat {
    if n == 0 then 1 else base * Power(base, n - 1)
  }

  /** Each code of n digits comes from exactly 25^n sequences of accepted bytes: the draw is uniform. */
  lemma {:induction false} UniformCodes(code: string)
    requires forall i :: 0 <= i < |code| ==> IsDigit(code[i])
    ensures |SourcesOf(code)| == Power(25, |code|)
    ensures forall s :: s in SourcesOf(code) <==> AllAccepted(s) && Digits(s) == code
  {
    forall s ensures s in SourcesOf(code) <==> AllAccepted(s) && Digits(s) == code {
      SourcesExact(code, s);
    }
    if code != "" {
      UniformCodes(code[1..]);
      BytesForCount(code[0], 25);
      PrependCount(BytesFor(code[0], 25), SourcesOf(code[1..]));
    }
  }
}
