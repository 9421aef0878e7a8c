/** Cell values of the extracted DataFrame and the numeric normaliser that
    turns the site's formatted figures ("1.234", "-") into numbers
    (Scripts/clean.py, lines 61-69). */
module Cells {

  import opened Outcomes
  import opened Strings

  /** One DataFrame cell: text taken from the page, an integer, or the
      missing value (pandas' NaN) that a failed numeric coercion leaves. */
  datatype Value = Text(s: string) | Number(n: int) | Missing

  /** A column is numeric when its name mentions a quantity or a value. */
  predicate IsNumericColumn(name: string) {
    Contains(name, "Quantidade") || Contains(name, "Valor")
  }

  /** The characters a figure on the site may consist of. */
  predicate IsFigureChar(c: char) {
    IsDigit(c) || c == '.' || c == '-'
  }

  /** Coerces one text cell of a numeric column: thousands separators `.`
      are deleted, the no-data dash `-` becomes the digit `0`, and what
      remains is parsed; text that does not parse becomes `Missing`, never
      an error. */
  function NumericValue(s: string): (v: Value)
    ensures v.Number? || v.Missing?
    ensures v.Number? ==> v.n >= 0
    ensures v.Number? <==> (exists c :: c in s && c != '.') && (forall c :: c in s ==> IsFigureChar(c))
  {
    var t := RemoveAll(s, '.');
    var u := ReplaceAll(t, '-', '0');
    assert AllDigits(u) <==> forall c :: c in t ==> IsDigit(c) || c == '-' by {
      if AllDigits(u) {
        forall c | c in t ensures IsDigit(c) || c == '-' {
          var k :| 0 <= k < |t| && t[k] == c;
          assert IsDigit(u[k]);
        }
      }
    }
    assert |u| > 0 <==> exists c :: c in s && c != '.' by {
      if |u| > 0 { assert t[0] in t; }
    }
    match ParseNat(u)
    case Some(n) => Number(n)
    case None => Missing
  }

  /** The three digits of `m`, zero-padded, as the site prints a group of
      thousands. */
  function Group3(m: nat): (g: string)
    requires m < 1000
    ensures |g| == 3 && AllDigits(g) && '.' !in g && '-' !in g
  {
    [DigitChar(m / 100), DigitChar(m / 10 % 10), DigitChar(m % 10)]
  }

  /** A natural number written with `.` between groups of three digits, the
      way the site publishes quantities and values ("1.234.567"). */
  function WithThousands(n: nat): (s: string)
    ensures |s| >= 1
  {
    if n < 1000 then NatToString(n)
    else WithThousands(n / 1000) + "." + Group3(n % 1000)
  }

  lemma Group3Value(m: nat)
    requires m < 1000
    ensures DigitsValue(Group3(m)) == m
  {
    var g := Group3(m);
    assert g[..2][..1][..0] == [];
    assert DigitsValue(g[..2][..1]) == m / 100;
    assert DigitsValue(g[..2]) == (m / 100) * 10 + m / 10 % 10;
    assert DigitsValue(g) == ((m / 100) * 10 + m / 10 % 10) * 10 + m % 10;
  }

  lemma {:induction false} DigitsOfThousands(n: nat)
    ensures var d := RemoveAll(WithThousands(n), '.');
      |d| >= 1 && AllDigits(d) && DigitsValue(d) == n
  {
    if n < 1000 {
      var s := NatToString(n);
      assert '.' !in s;
      RemoveAllAbsent(s, '.');
      DigitsValueOfNatToString(n);
    } else {
      DigitsOfThousands(n / 1000);
      ThousandsStep(n);
    }
  }

  /** One group of the induction: the digits of `n` are those of
      `n / 1000` followed by the three of its last group. */
  lemma ThousandsStep(n: nat)
    requires n >= 1000
    requires var d := RemoveAll(WithThousands(n / 1000), '.');
      |d| >= 1 && AllDigits(d) && DigitsValue(d) == n / 1000
    ensures var d := RemoveAll(WithThousands(n), '.');
      |d| >= 1 && AllDigits(d) && DigitsValue(d) == n
  {
    var hi, g := WithThousands(n / 1000), Group3(n % 1000);
    assert WithThousands(n) == hi + "." + g;
    SeparatorRemoved(hi, ".", g, '.');
    var dh := RemoveAll(hi, '.');
    DigitsValueAppend(dh, g);
    Group3Value(n % 1000);
    Pow10Three();
    Regroup(n, DigitsValue(dh), DigitsValue(g));
  }

  lemma Regroup(n: nat, hi: nat, lo: nat)
    requires hi == n / 1000 && lo == n % 1000
    ensures hi * 1000 + lo == n
  {
  }

  lemma SeparatorRemoved(hi: string, sep: string, g: string, c: char)
    requires sep == [c] && c !in g
    ensures RemoveAll(hi + sep + g, c) == RemoveAll(hi, c) + g
  {
    assert RemoveAll(sep, c) == [] by {
      assert sep[1..] == [];
    }
    RemoveAllAppend(hi, sep, c);
    assert RemoveAll(hi + sep, c) == RemoveAll(hi, c);
    RemoveAllAppend(hi + sep, g, c);
    RemoveAllAbsent(g, c);
  }

  lemma Pow10Three()
    ensures Pow10(3) == 1000
  {
  }

  /** Round trip: normalising a figure written with thousands separators
      gives back the number it was written from. */
  lemma NumericValueOfThousands(n: nat)
    ensures NumericValue(WithThousands(n)) == Number(n)
  {
    DigitsOfThousands(n);
    var d := RemoveAll(WithThousands(n), '.');
    assert ReplaceAll(d, '-', '0') == d;
  }

  lemma DigitsValueExamples()
    ensures DigitsValue("0") == 0
    ensures DigitsValue("1234") == 1234
    ensures DigitsValue("1203") == 1203
  {
    assert "0"[..0] == "";
    assert "1234"[..3] == "123";
    assert "123"[..2] == "12";
    assert "12"[..1] == "1";
    assert "1"[..0] == "";
    assert "1203"[..3] == "120";
    assert "120"[..2] == "12";
  }

  /** The normaliser on the cases the site produces: a thousands-separated
      figure, the no-data dash, an empty cell, a dash inside a figure and a
      word. */
  lemma NumericValueOfSeparated()
    ensures NumericValue("1.234") == Number(1234)
  {
    NumericValueOfThousands(1234);
    ThousandsExample();
  }

  lemma ThousandsExample()
    ensures WithThousands(1234) == "1.234"
  {
    assert NatToString(1) == "1";
    assert Group3(234) == "234";
  }

  /** A figure whose digits, after the normaliser's two replacements, are
      `u` denotes the number `u` spells. */
  lemma FigureValue(s: string, u: string)
    requires |u| > 0 && AllDigits(u) && ReplaceAll(RemoveAll(s, '.'), '-', '0') == u
    ensures NumericValue(s) == Number(DigitsValue(u))
  {
  }

  lemma NumericValueOfDash()
    ensures NumericValue("-") == Number(0)
  {
    assert RemoveAll("-", '.') == "-";
    assert ReplaceAll("-", '-', '0') == "0";
    DigitsValueExamples();
    FigureValue("-", "0");
  }

  lemma NumericValueOfInnerDash()
    ensures NumericValue("12-3") == Number(1203)
  {
    InnerDashDigits();
    DigitsValueExamples();
    FigureValue("12-3", "1203");
  }

  lemma InnerDashDigits()
    ensures ReplaceAll(RemoveAll("12-3", '.'), '-', '0') == "1203"
  {
    RemoveAllAbsent("12-3", '.');
  }

  lemma NumericValueOfNonFigures()
    ensures NumericValue("") == Missing
    ensures NumericValue("nd") == Missing
  {
    assert 'n' in "nd";
  }
}
