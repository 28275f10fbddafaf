/**
 * The decimal-literal grammar that `Number.parseFloat` reads a prefix of
 * (StrDecimalLiteral; `parseFloat` is section 19.2.4 of ECMA-262, 2022
 * edition), stated without reference to the length functions of
 * `JsNumbers`, and the proof that `ParseFloat` reads the longest prefix of
 * its input that is such a literal.
 */
module NumberGrammar {
  import opened JsNumbers

  /** A nonempty run of decimal digits. */
  predicate IsDigits(s: string) {
    s != [] && AllDigits(s)
  }

  /** ExponentPart: `e` or `E`, an optional sign, then digits. */
  predicate IsExponentPart(s: string) {
    && |s| >= 2
    && (s[0] == 'e' || s[0] == 'E')
    && (IsDigits(s[1..]) || ((s[1] == '+' || s[1] == '-') && IsDigits(s[2..])))
  }

  /** Digits with at most one point among them and at least one digit: "5", "5.", "5.25" or ".25". */
  predicate IsMantissa(s: string) {
    && (forall i :: 0 <= i < |s| ==> IsDigit(s[i]) || s[i] == '.')
    && (forall i, j :: 0 <= i < j < |s| ==> !(s[i] == '.' && s[j] == '.'))
    && (exists i :: 0 <= i < |s| && IsDigit(s[i]))
  }

  /** StrUnsignedDecimalLiteral: `Infinity`, or a mantissa with an optional exponent. */
  predicate IsUnsignedLiteral(t: string) {
    || t == "Infinity"
    || IsMantissa(t)
    || (exists k :: 0 < k < |t| && IsMantissa(t[..k]) && IsExponentPart(t[k..]))
  }

  /** StrDecimalLiteral: an unsigned literal with an optional sign. */
  predicate IsLiteral(t: string) {
    || IsUnsignedLiteral(t)
    || (t != [] && (t[0] == '+' || t[0] == '-') && IsUnsignedLiteral(t[1..]))
  }

  /** `p` is a prefix of `s` that is a literal, and no longer prefix of `s` is one. */
  predicate LongestLiteralPrefix(p: string, s: string) {
    p <= s && IsLiteral(p) && forall j :: |p| < j <= |s| ==> !IsLiteral(s[..j])
  }

  /** No prefix of `s` is a literal. */
  predicate NoLiteralPrefix(s: string) {
    forall j :: 0 <= j <= |s| ==> !IsLiteral(s[..j])
  }

  /** A mantissa starts with a digit, or with a point followed by a digit. */
  lemma MantissaStart(m: string)
    ensures IsMantissa(m) ==> m != [] && (IsDigit(m[0]) || (m[0] == '.' && |m| >= 2 && IsDigit(m[1])))
  {
    if IsMantissa(m) {
      var d :| 0 <= d < |m| && IsDigit(m[d]);
      if !IsDigit(m[0]) {
        assert m[0] == '.' && d >= 1;
        assert !(m[0] == '.' && m[1] == '.');
      }
    }
  }

  /** An unsigned literal starts with a digit, with a point and a digit, or is `Infinity`. */
  lemma UnsignedLiteralStart(x: string)
    ensures IsUnsignedLiteral(x) ==>
              x == "Infinity" || (x != [] && IsDigit(x[0])) || (|x| >= 2 && x[0] == '.' && IsDigit(x[1]))
  {
    MantissaStart(x);
    if IsUnsignedLiteral(x) && x != "Infinity" && !IsMantissa(x) {
      var k :| 0 < k < |x| && IsMantissa(x[..k]) && IsExponentPart(x[k..]);
      MantissaStart(x[..k]);
      assert x[..k][0] == x[0];
      if k >= 2 {
        assert x[..k][1] == x[1];
      }
    }
  }

  /** The characters before `n` are digits, a point, and the characters from `n` to `m` are digits. */
  lemma DigitsAround(t: string, n: nat, m: nat)
    requires n < m <= |t| && t[n] == '.'
    requires forall k :: 0 <= k < n ==> IsDigit(t[k])
    requires forall k :: n < k < m ==> IsDigit(t[k])
    requires n > 0 || m > n + 1
    ensures IsMantissa(t[..m])
  {
    var s := t[..m];
    forall i, j | 0 <= i < j < |s|
      ensures !(s[i] == '.' && s[j] == '.')
    {
      assert i != n || j != n;
    }
    if n > 0 {
      assert IsDigit(s[0]);
    } else {
      assert IsDigit(s[1]);
    }
  }

  /** A prefix of `t` that holds the point at `n` and the character at `m`, which is neither a digit nor a second point, is not a mantissa. */
  lemma PastMantissa(t: string, n: nat, m: nat, k: nat)
    requires n < m < k <= |t| && t[n] == '.' && !IsDigit(t[m])
    ensures !IsMantissa(t[..k])
  {
    assert t[..k][n] == '.' && t[..k][m] == t[m];
  }

  /** `MantissaLength` reads a mantissa, and no longer prefix is one. */
  lemma MantissaLongest(t: string)
    ensures MantissaLength(t) > 0 ==> IsMantissa(t[..MantissaLength(t)])
    ensures forall k :: MantissaLength(t) < k <= |t| ==> !IsMantissa(t[..k])
  {
    var m := MantissaLength(t);
    var i := DigitRun(t);
    if i > 0 && i < |t| && t[i] == '.' {
      var d := DigitRun(t[i + 1..]);
      assert m == i + 1 + d;
      forall k | i < k < m ensures IsDigit(t[k]) {
        assert t[k] == t[i + 1..][k - i - 1];
      }
      DigitsAround(t, i, m);
      forall k | m < k <= |t| ensures !IsMantissa(t[..k]) {
        assert t[m] == t[i + 1..][d];
        PastMantissa(t, i, m, k);
      }
    } else if i > 0 {
      assert m == i;
      assert IsDigit(t[..m][0]);
      forall k | m < k <= |t| ensures !IsMantissa(t[..k]) {
        assert t[..k][m] == t[m];
      }
    } else if |t| >= 2 && t[0] == '.' && IsDigit(t[1]) {
      var d := DigitRun(t[1..]);
      assert m == 1 + d;
      forall k | 0 < k < m ensures IsDigit(t[k]) {
        assert t[k] == t[1..][k - 1];
      }
      DigitsAround(t, 0, m);
      forall k | m < k <= |t| ensures !IsMantissa(t[..k]) {
        assert t[m] == t[1..][d];
        PastMantissa(t, 0, m, k);
      }
    } else {
      assert m == 0;
      forall k | 0 < k <= |t| ensures !IsMantissa(t[..k]) {
        assert t[..k][0] == t[0];
        if k >= 2 {
          assert t[..k][1] == t[1];
        }
        MantissaStart(t[..k]);
      }
    }
  }

  /** `ExponentLength` reads an exponent part, and no longer prefix is one. */
  lemma ExponentLongest(x: string)
    ensures ExponentLength(x) > 0 ==> IsExponentPart(x[..ExponentLength(x)])
    ensures forall p :: ExponentLength(x) < p <= |x| ==> !IsExponentPart(x[..p])
  {
    var e := ExponentLength(x);
    if x != [] && (x[0] == 'e' || x[0] == 'E') {
      var k := if |x| > 1 && (x[1] == '+' || x[1] == '-') then 2 else 1;
      var d := DigitRun(x[k..]);
      if d > 0 {
        assert e == k + d;
        var y := x[..e];
        assert y[k..] == x[k..][..d];
        if k == 2 {
          assert IsExponentPart(y) by { assert y[1] == x[1]; }
        }
        forall p | e < p <= |x| ensures !IsExponentPart(x[..p]) {
          assert x[e] == x[k..][d];
          assert x[..p][1] == x[1] && x[..p][e] == x[e];
          assert x[..p][k..][d] == x[e];
          if k == 2 {
            assert x[..p][1..][0] == x[1];
          }
        }
      } else {
        forall p | 0 < p <= |x| ensures !IsExponentPart(x[..p]) {
          if p >= 2 {
            assert x[..p][1] == x[1];
            if k == 1 {
              assert x[..p][1..][0] == x[k..][0];
            } else if p >= 3 {
              assert x[..p][2..][0] == x[k..][0];
            }
          }
        }
      }
    } else {
      forall p | 0 < p <= |x| ensures !IsExponentPart(x[..p]) {
        assert x[..p][0] == x[0];
      }
    }
  }

  /** `UnsignedLiteralLength` reads an unsigned literal, and no longer prefix is one. */
  lemma UnsignedLongest(t: string)
    ensures UnsignedLiteralLength(t) > 0 ==> IsUnsignedLiteral(t[..UnsignedLiteralLength(t)])
    ensures forall j :: UnsignedLiteralLength(t) < j <= |t| ==> !IsUnsignedLiteral(t[..j])
  {
    if "Infinity" <= t {
      InfinityLongest(t);
    } else if MantissaLength(t) > 0 {
      MantissaLiteralLongest(t);
    } else {
      NoUnsignedLiteral(t);
    }
  }

  lemma InfinityLongest(t: string)
    requires "Infinity" <= t
    ensures IsUnsignedLiteral(t[..UnsignedLiteralLength(t)])
    ensures forall j :: UnsignedLiteralLength(t) < j <= |t| ==> !IsUnsignedLiteral(t[..j])
  {
    assert t[..UnsignedLiteralLength(t)] == "Infinity";
    forall j | 8 < j <= |t| ensures !IsUnsignedLiteral(t[..j]) {
      assert t[..j][0] == t[0] == 'I';
      UnsignedLiteralStart(t[..j]);
    }
  }

  lemma MantissaLiteralLongest(t: string)
    requires !("Infinity" <= t) && MantissaLength(t) > 0
    ensures IsUnsignedLiteral(t[..UnsignedLiteralLength(t)])
    ensures forall j :: UnsignedLiteralLength(t) < j <= |t| ==> !IsUnsignedLiteral(t[..j])
  {
    var m := MantissaLength(t);
    var e := ExponentLength(t[m..]);
    var u := UnsignedLiteralLength(t);
    MantissaLongest(t);
    ExponentLongest(t[m..]);
    assert u == m + e;
    if e > 0 {
      assert t[..u][..m] == t[..m];
      assert t[..u][m..] == t[m..][..e];
    } else {
      assert t[..u] == t[..m];
    }
    forall j | u < j <= |t| ensures !IsUnsignedLiteral(t[..j]) {
      NotLongerUnsigned(t, m, j);
    }
  }

  lemma NoUnsignedLiteral(t: string)
    requires !("Infinity" <= t) && MantissaLength(t) == 0
    ensures UnsignedLiteralLength(t) == 0
    ensures forall j :: 0 < j <= |t| ==> !IsUnsignedLiteral(t[..j])
  {
    forall j | 0 < j <= |t| ensures !IsUnsignedLiteral(t[..j]) {
      assert t[..j][0] == t[0];
      if j >= 2 {
        assert t[..j][1] == t[1];
      }
      UnsignedLiteralStart(t[..j]);
    }
  }

  /** Past the mantissa and its exponent, no prefix of `t` is an unsigned literal. */
  lemma NotLongerUnsigned(t: string, m: nat, j: nat)
    requires !("Infinity" <= t)
    requires m == MantissaLength(t) > 0
    requires m + ExponentLength(t[m..]) < j <= |t|
    requires IsMantissa(t[..m])
    requires forall k :: m < k <= |t| ==> !IsMantissa(t[..k])
    requires forall p :: ExponentLength(t[m..]) < p <= |t[m..]| ==> !IsExponentPart(t[m..][..p])
    ensures !IsUnsignedLiteral(t[..j])
  {
    var x := t[..j];
    forall k | 0 < k < |x| ensures !(IsMantissa(x[..k]) && IsExponentPart(x[k..])) {
      assert x[..k] == t[..k];
      assert x[k..][0] == t[k];
      if k < m {
        assert t[..m][k] == t[k];
      } else if k == m {
        assert x[k..] == t[m..][..j - m];
      }
    }
  }

  /** `ParseFloat` reads the longest prefix of its input that is a decimal literal, and yields NaN when no prefix is one. */
  lemma ParseFloatReadsLongestLiteral(s: string)
    ensures ParseFloat(s).NaN? ==> NoLiteralPrefix(s)
    ensures ParseFloat(s).Denoted? ==> LongestLiteralPrefix(ParseFloat(s).literal, s)
  {
    var k := SignLength(s);
    var t := s[k..];
    var u := UnsignedLiteralLength(t);
    UnsignedLongest(t);
    var n := LiteralLength(s);
    assert n == if u == 0 then 0 else k + u;
    if u > 0 {
      assert s[..n][k..] == t[..u];
      if k == 0 {
        assert s[..n] == t[..u];
      }
    }
    forall j | n < j <= |s| || (n == 0 && j == 0) ensures !IsLiteral(s[..j]) {
      NotLongerLiteral(s, j);
    }
  }

  /** A prefix of `s` longer than the one `LiteralLength` reads, or the empty one, is not a literal. */
  lemma NotLongerLiteral(s: string, j: nat)
    requires LiteralLength(s) < j <= |s| || j == 0
    ensures !IsLiteral(s[..j])
  {
    var k := SignLength(s);
    var t := s[k..];
    UnsignedLongest(t);
    var x := s[..j];
    UnsignedLiteralStart(x);
    if j > 0 {
      assert x[0] == s[0];
    }
    if k == 0 {
      assert x == t[..j];
    } else if j > 0 {
      assert x[1..] == t[..j - 1];
      UnsignedLiteralStart(x[1..]);
    }
  }
}
