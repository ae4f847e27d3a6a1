/**
 * The identity key the command gives a UV edge.
 *
 * The command writes the smaller and the larger of the two UV indices as
 * decimal text, puts the digit "1" in front and reads the result back as a
 * number (uvChecker/src/findUvOverlaps2.cpp:195-208). That key is symmetric
 * in the two indices but it is not injective: the edges (1, 123) and
 * (11, 23) both get the key 11123. `EdgeIndexAsWritten` models the key as written;
 * `EdgeKey` is the ordered pair the rest of this model uses instead.
 */
module EdgeKeys {
  import opened UvTypes

  predicate IsDigit(c: char) {
    '0' <= c <= '9'
  }

  predicate AllDigits(s: string) {
    forall i :: 0 <= i < |s| ==> IsDigit(s[i])
  }

  /** `n` followed by `k` decimal zeros. */
  function Shift10(n: nat, k: nat): (r: nat)
    ensures r >= n
  {
    if k == 0 then n else 10 * Shift10(n, k - 1)
  }

  /** Ten to the power `k`. */
  function Pow10(k: nat): (r: nat)
    ensures r >= 1
  {
    Shift10(1, k)
  }

  function DigitChar(d: nat): (c: char)
    requires d < 10
    ensures IsDigit(c) && c as int - '0' as int == d
  {
    ('0' as int + d) as char
  }

  function DigitValue(c: char): (d: nat)
    requires IsDigit(c)
    ensures d < 10 && DigitChar(d) == c
  {
    c as int - '0' as int
  }

  /** The decimal text of `n`, without leading zeros. */
  function Decimal(n: nat): (s: string)
    ensures |s| >= 1 && AllDigits(s)
    ensures s[0] == '0' ==> n == 0
    decreases n
  {
    if n < 10 then [DigitChar(n)] else Decimal(n / 10) + [DigitChar(n % 10)]
  }

  /** The number a text of decimal digits denotes. */
  function ParseDecimal(s: string): (n: nat)
    requires AllDigits(s)
    ensures n < Pow10(|s|)
  {
    if s == [] then 0 else 10 * ParseDecimal(s[..|s| - 1]) + DigitValue(s[|s| - 1])
  }

  /** Reading back the decimal text of a number gives the number. */
  lemma {:induction false} ParseDecimalOfDecimal(n: nat)
    ensures ParseDecimal(Decimal(n)) == n
    decreases n
  {
    if n >= 10 {
      var s := Decimal(n);
      assert s[..|s| - 1] == Decimal(n / 10);
      ParseDecimalOfDecimal(n / 10);
    }
  }

  /** Reading a concatenation: the left part is shifted by the length of the right part. */
  lemma {:induction false} ParseDecimalAppend(s: string, t: string)
    requires AllDigits(s) && AllDigits(t)
    ensures AllDigits(s + t)
    ensures ParseDecimal(s + t) == Shift10(ParseDecimal(s), |t|) + ParseDecimal(t)
    decreases |t|
  {
    if t == [] {
      assert s + t == s;
    } else {
      var t' := t[..|t| - 1];
      assert (s + t)[..|s + t| - 1] == s + t';
      ParseDecimalAppend(s, t');
    }
  }

  /** A leading "1" adds 10 to the power of the number of digits after it. */
  lemma {:induction false} ParseLeadingOne(t: string)
    requires AllDigits(t)
    ensures AllDigits(['1'] + t)
    ensures ParseDecimal(['1'] + t) == Pow10(|t|) + ParseDecimal(t)
    decreases |t|
  {
    if t == [] {
      assert ['1'] + t == ['1'];
      assert ['1'][..0] == [];
    } else {
      var t' := t[..|t| - 1];
      assert (['1'] + t)[..|t|] == ['1'] + t';
      ParseLeadingOne(t');
    }
  }

  /** The key text of lines 200-208: "1", then the smaller index, then the larger one. */
  function EdgeKeyText(uvIdA: nat, uvIdB: nat): (s: string)
    ensures |s| == 1 + |Decimal(uvIdA)| + |Decimal(uvIdB)|
    ensures AllDigits(s) && s[0] == '1'
  {
    if uvIdA < uvIdB then ['1'] + (Decimal(uvIdA) + Decimal(uvIdB))
    else ['1'] + (Decimal(uvIdB) + Decimal(uvIdA))
  }

  /** The edge index as the command computes it (32-bit overflow left out). */
  function EdgeIndexAsWritten(uvIdA: nat, uvIdB: nat): (k: nat)
    ensures k >= Pow10(|Decimal(uvIdA)| + |Decimal(uvIdB)|)
  {
    var s := EdgeKeyText(uvIdA, uvIdB);
    var digits := s[1..];
    assert s == ['1'] + digits;
    ParseLeadingOne(digits);
    ParseDecimal(s)
  }

  /** The edge key used by this model: the two indices, smaller first. */
  function EdgeKey(uvIdA: nat, uvIdB: nat): (k: EdgeId)
    ensures k.lo <= k.hi
    ensures (k.lo == uvIdA && k.hi == uvIdB) || (k.lo == uvIdB && k.hi == uvIdA)
  {
    if uvIdA < uvIdB then EdgeId(uvIdA, uvIdB) else EdgeId(uvIdB, uvIdA)
  }

  /** The key text does not depend on which endpoint is named first. */
  lemma EdgeKeyTextSymmetric(uvIdA: nat, uvIdB: nat)
    ensures EdgeKeyText(uvIdA, uvIdB) == EdgeKeyText(uvIdB, uvIdA)
    ensures EdgeIndexAsWritten(uvIdA, uvIdB) == EdgeIndexAsWritten(uvIdB, uvIdA)
  {
  }

  /** The key text is "1", the smaller index, the larger index, in decimal. */
  lemma EdgeKeyTextOrder(uvIdA: nat, uvIdB: nat)
    ensures var k := EdgeKey(uvIdA, uvIdB);
      EdgeKeyText(uvIdA, uvIdB) == ['1'] + (Decimal(k.lo) + Decimal(k.hi))
  {
  }

  /** The numeric value of the key as written: "1", the smaller index, the larger index. */
  lemma EdgeIndexAsWrittenValue(uvIdA: nat, uvIdB: nat)
    ensures var k := EdgeKey(uvIdA, uvIdB);
      EdgeIndexAsWritten(uvIdA, uvIdB)
        == Pow10(|Decimal(k.lo)| + |Decimal(k.hi)|) + Shift10(k.lo, |Decimal(k.hi)|) + k.hi
  {
    var k := EdgeKey(uvIdA, uvIdB);
    var lo, hi := Decimal(k.lo), Decimal(k.hi);
    EdgeKeyTextOrder(uvIdA, uvIdB);
    assert EdgeIndexAsWritten(uvIdA, uvIdB) == ParseDecimal(['1'] + (lo + hi));
    LeadingOneValue(lo, hi);
    ParseDecimalOfDecimal(k.lo);
    ParseDecimalOfDecimal(k.hi);
  }

  /** The value of "1", then the digits `lo`, then the digits `hi`. */
  lemma LeadingOneValue(lo: string, hi: string)
    requires AllDigits(lo) && AllDigits(hi)
    ensures AllDigits(['1'] + (lo + hi))
    ensures ParseDecimal(['1'] + (lo + hi))
      == Pow10(|lo| + |hi|) + Shift10(ParseDecimal(lo), |hi|) + ParseDecimal(hi)
  {
    var both := lo + hi;
    assert |both| == |lo| + |hi|;
    ParseDecimalAppend(lo, hi);
    ParseLeadingOne(both);
    assert ParseDecimal(['1'] + both) == Pow10(|both|) + ParseDecimal(both);
  }

  /** Appending k zeros multiplies by ten to the power k. */
  lemma {:induction false} Shift10IsProduct(n: nat, k: nat)
    ensures Shift10(n, k) == n * Pow10(k)
  {
    if k > 0 {
      Shift10IsProduct(n, k - 1);
      assert Pow10(k) == 10 * Pow10(k - 1);
      assert n * (10 * Pow10(k - 1)) == 10 * (n * Pow10(k - 1));
    }
  }

  /**
   * The key as written is not injective: the edge joining UV 1 with UV 123
   * and the edge joining UV 11 with UV 23 both get the index 11123,
   * although their corrected keys differ.
   */
  lemma EdgeIndexAsWrittenCollides()
    ensures EdgeIndexAsWritten(1, 123) == 11123 && EdgeIndexAsWritten(11, 23) == 11123
    ensures EdgeKey(1, 123) != EdgeKey(11, 23)
  {
    // The decimal texts of the four indices and the digit counts they give.
    assert Decimal(123) == "123" by {
      assert Decimal(12) == "12" by { assert Decimal(1) == "1"; }
    }
    assert Decimal(11) == "11" by { assert Decimal(1) == "1"; }
    assert Decimal(23) == "23" by { assert Decimal(2) == "2"; }
    // The powers of ten and shifts those digit counts call for.
    assert Shift10(1, 2) == 100 by { assert Shift10(1, 1) == 10; }
    assert Shift10(11, 1) == 110;
    assert Shift10(1, 4) == 10 * Shift10(1, 3);
    EdgeIndexAsWrittenValue(1, 123);
    EdgeIndexAsWrittenValue(11, 23);
  }

  /** The corrected key identifies the unordered pair of indices exactly. */
  lemma EdgeKeyInjective(a: nat, b: nat, c: nat, d: nat)
    ensures EdgeKey(a, b) == EdgeKey(c, d) <==> (a == c && b == d) || (a == d && b == c)
  {
  }
}
