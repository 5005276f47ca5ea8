// The rolling hash that turns a search query into a cache key.
module QueryHash {

  // A UTF-16 code unit.
  newtype CodeUnit = x: int | 0 <= x < 0x1_0000

  const TWO32 := 0x1_0000_0000
  const TWO31 := 0x8000_0000

  // ToInt32, section 7.1.6 of ECMA-262.
  function ToInt32(x: int): (r: int)
    ensures -TWO31 <= r < TWO31
  {
    var m := x % TWO32;
    if m >= TWO31 then m - TWO32 else m
  }

  predicate Congruent(x: int, y: int) {
    (x - y) % TWO32 == 0
  }

  // The polynomial in 31 with the code units as coefficients, the last one constant.
  function Polynomial(s: seq<CodeUnit>): (p: nat) {
    if s == [] then 0 else 31 * Polynomial(s[..|s| - 1]) + s[|s| - 1] as int
  }

  function Digit(d: nat): char
    requires d < 36
  {
    if d < 10 then '0' + d as char else 'a' + (d - 10) as char
  }

  function Base36(n: nat): (s: string)
    ensures |s| > 0
  {
    if n < 36 then [Digit(n)] else Base36(n / 36) + [Digit(n % 36)]
  }

  function Abs(x: int): nat {
    if x < 0 then -x else x
  }

  function Key(query: seq<CodeUnit>): string {
    Base36(Abs(ToInt32(Polynomial(query))))
  }

  // `hash << 5` shifts the 32-bit value, the subtraction and the sum are exact, and
  // `hash & hash` truncates.
  method HashQuery(query: seq<CodeUnit>) returns (key: string)
    ensures key == Key(query)
  {
    var hash := 0;
    for i := 0 to |query|
      invariant hash == ToInt32(Polynomial(query[..i]))
    {
      var unit := query[i] as int;
      OneMoreUnit(Polynomial(query[..i]), unit);
      assert query[..i + 1][..i] == query[..i];
      hash := ToInt32(ToInt32(ToInt32(hash) * 32) - hash + unit);
    }
    assert query[..|query|] == query;
    key := Base36(Abs(hash));
  }

  // The 32-bit value is the one in the signed range that is congruent modulo 2^32.
  lemma Int32IsTheResidue(x: int, r: int)
    ensures r == ToInt32(x) <==> -TWO31 <= r < TWO31 && Congruent(x, r)
  {
  }

  lemma CongruentIffSameInt32(x: int, y: int)
    ensures Congruent(x, y) <==> ToInt32(x) == ToInt32(y)
  {
  }

  lemma OneMoreUnit(p: int, unit: int)
    ensures ToInt32(ToInt32(ToInt32(ToInt32(p)) * 32) - ToInt32(p) + unit) == ToInt32(31 * p + unit)
  {
    var h := ToInt32(p);
    var shifted := ToInt32(h * 32);
    WrapsBy(p);
    WrapsBy(h * 32);
    SameInt32(shifted - h + unit, 31 * p + unit, Laps(h * 32) + 31 * Laps(p));
  }

  // How many times x wraps around.
  function Laps(x: int): int {
    (x - ToInt32(x)) / TWO32
  }

  lemma WrapsBy(x: int)
    ensures x == ToInt32(x) + TWO32 * Laps(x)
  {
  }

  lemma SameInt32(x: int, y: int, laps: int)
    requires y - x == TWO32 * laps
    ensures ToInt32(x) == ToInt32(y)
  {
    assert (y - x) % TWO32 == 0;
  }

  /******* The printed form *******/

  function DigitValue(c: char): nat {
    if '0' <= c <= '9' then (c - '0') as nat
    else if 'a' <= c <= 'z' then 10 + (c - 'a') as nat
    else 0
  }

  function Parse36(s: string): nat {
    if s == [] then 0 else 36 * Parse36(s[..|s| - 1]) + DigitValue(s[|s| - 1])
  }

  lemma DigitsHaveTheirValue(d: nat)
    requires d < 36
    ensures DigitValue(Digit(d)) == d
  {
  }

  lemma {:induction false} ParsePrinted(n: nat)
    ensures Parse36(Base36(n)) == n
  {
    DigitsHaveTheirValue(n % 36);
    if n >= 36 {
      ParsePrinted(n / 36);
      assert Base36(n)[..|Base36(n)| - 1] == Base36(n / 36);
    }
  }

  function Power36(k: nat): nat {
    if k == 0 then 1 else 36 * Power36(k - 1)
  }

  lemma {:induction false} PrintedLength(n: nat, k: nat)
    requires k > 0 && n < Power36(k)
    ensures |Base36(n)| <= k
  {
    if n >= 36 {
      assert n / 36 < Power36(k - 1);
      PrintedLength(n / 36, k - 1);
    }
  }

  // A key has at most six digits.
  lemma KeyIsShort(query: seq<CodeUnit>)
    ensures |Key(query)| <= 6
  {
    assert Power36(2) == 1296 && Power36(4) == 1_679_616;
    assert Power36(6) == 2_176_782_336;
    PrintedLength(Abs(ToInt32(Polynomial(query))), 6);
  }

  // Two queries share a cache entry exactly when their polynomials are equal, or opposite, modulo 2^32.
  lemma SameKeyIff(a: seq<CodeUnit>, b: seq<CodeUnit>)
    ensures Key(a) == Key(b) <==> Congruent(Polynomial(a), Polynomial(b)) || Congruent(Polynomial(a) + Polynomial(b), 0)
  {
    var x, y := Polynomial(a), Polynomial(b);
    ParsePrinted(Abs(ToInt32(x)));
    ParsePrinted(Abs(ToInt32(y)));
    CongruentIffSameInt32(x, y);
    OppositeIff(x, y);
  }

  lemma OppositeIff(x: int, y: int)
    ensures Congruent(x + y, 0) <==> ToInt32(x) == -ToInt32(y) || (ToInt32(x) == ToInt32(y) == -TWO31)
  {
  }

  /******* Queries that share an entry *******/

  lemma {:induction false} SameEnding(a: seq<CodeUnit>, b: seq<CodeUnit>, ending: seq<CodeUnit>)
    requires Polynomial(a) == Polynomial(b)
    ensures Polynomial(a + ending) == Polynomial(b + ending)
  {
    if ending == [] {
      assert a + ending == a && b + ending == b;
    } else {
      var front := ending[..|ending| - 1];
      SameEnding(a, b, front);
      assert (a + ending)[..|a + ending| - 1] == a + front;
      assert (b + ending)[..|b + ending| - 1] == b + front;
    }
  }

  // What a beginning adds depends only on the length of what follows it.
  lemma {:induction false} SameBeginning(beginning: seq<CodeUnit>, a: seq<CodeUnit>, b: seq<CodeUnit>)
    requires |a| == |b|
    ensures Polynomial(beginning + a) - Polynomial(a) == Polynomial(beginning + b) - Polynomial(b)
  {
    if a == [] {
      assert b == [];
    } else {
      var n := |a| - 1;
      SameBeginning(beginning, a[..n], b[..n]);
      assert (beginning + a)[..|beginning| + n] == beginning + a[..n];
      assert (beginning + b)[..|beginning| + n] == beginning + b[..n];
    }
  }

  // Equally long parts with equal polynomials can be exchanged anywhere in a query without
  // changing its key.
  lemma ExchangeablePart(before: seq<CodeUnit>, a: seq<CodeUnit>, b: seq<CodeUnit>, after: seq<CodeUnit>)
    requires |a| == |b| && Polynomial(a) == Polynomial(b)
    ensures Key(before + a + after) == Key(before + b + after)
  {
    SameBeginning(before, a, b);
    SameEnding(before + a, before + b, after);
  }

  // "Aa" and "BB", for one, so every query containing either shares its entry with another query.
  lemma DifferentQueriesShareAKey(before: seq<CodeUnit>, after: seq<CodeUnit>)
    ensures before + [65, 97] + after != before + [66, 66] + after
    ensures Key(before + [65, 97] + after) == Key(before + [66, 66] + after)
  {
    var x: seq<CodeUnit>, y: seq<CodeUnit> := [65, 97], [66, 66];
    assert x[..1] == [65] && y[..1] == [66];
    assert Polynomial([65]) == 65 && Polynomial([66]) == 66;
    assert Polynomial(x) == 31 * 65 + 97 == Polynomial(y);
    ExchangeablePart(before, x, y, after);
    assert (before + x + after)[|before|] != (before + y + after)[|before|];
  }
}
