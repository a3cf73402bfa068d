/**
 * Price-text normalisation of the scraper (app.py, lines 152-159).
 *
 * The text of a price node loses its euro signs, its decimal commas become
 * points, it is stripped, and then only ASCII digits and points are kept.
 * The cleaned text is parsed as Python's `float` would parse a string over
 * that alphabet: a value exists exactly when there is at least one digit and
 * at most one point.  An empty or unparseable cleaned text yields no price.
 */
module PriceText {
  import opened Wrappers
  import Text

  predicate IsDigit(c: char) {
    '0' <= c <= '9'
  }

  predicate IsPriceChar(c: char) {
    IsDigit(c) || c == '.'
  }

  predicate AllDigits(s: string) {
    forall i :: 0 <= i < |s| ==> IsDigit(s[i])
  }

  predicate AllPriceChars(s: string) {
    forall i :: 0 <= i < |s| ==> IsPriceChar(s[i])
  }

  const Euro: char := '€'

  /** `.replace("€", "").replace(",", ".")`: drop euro signs, turn commas into points. */
  function Prepare(s: string): string
  {
    if s == [] then []
    else (if s[0] == Euro then [] else if s[0] == ',' then ['.'] else [s[0]]) + Prepare(s[1..])
  }

  /** `''.join(ch for ch in s if ch.isdigit() or ch == ".")`, on ASCII digits. */
  function Keep(s: string): string
  {
    if s == [] then []
    else (if IsPriceChar(s[0]) then [s[0]] else []) + Keep(s[1..])
  }

  /** The cleaned price text: what `float` is applied to. */
  function Normalize(text: string): (r: string)
    ensures |r| <= |text|
  {
    PrepareLength(text);
    KeepLength(Text.Strip(Prepare(text)));
    Keep(Text.Strip(Prepare(text)))
  }

  lemma {:induction false} PrepareLength(s: string)
    ensures |Prepare(s)| <= |s|
  {
    if s != [] {
      PrepareLength(s[1..]);
    }
  }

  lemma {:induction false} KeepLength(s: string)
    ensures |Keep(s)| <= |s|
  {
    if s != [] {
      KeepLength(s[1..]);
    }
  }

  /** The cleaned text holds only digits and points. */
  lemma {:induction false} NormalizeAlphabet(text: string)
    ensures AllPriceChars(Normalize(text))
  {
    KeepAlphabet(Text.Strip(Prepare(text)));
  }

  /** Only digits and points survive the filter. */
  lemma {:induction false} KeepAlphabet(s: string)
    ensures AllPriceChars(Keep(s))
  {
    if s != [] {
      KeepAlphabet(s[1..]);
    }
  }

  function CountPoints(s: string): (n: nat)
    ensures n <= |s|
  {
    if s == [] then 0 else (if s[0] == '.' then 1 else 0) + CountPoints(s[1..])
  }

  /** The position of the first point of `s`, or `|s|` when there is none. */
  function IndexOfPoint(s: string): (i: nat)
    ensures i <= |s|
    ensures i < |s| ==> s[i] == '.'
    ensures forall j :: 0 <= j < i ==> s[j] != '.'
  {
    if s == [] || s[0] == '.' then 0 else 1 + IndexOfPoint(s[1..])
  }

  function DigitValue(c: char): (d: nat)
    requires IsDigit(c)
    ensures d < 10
  {
    c as int - '0' as int
  }

  /** The number a string of decimal digits denotes (0 for the empty string). */
  function DigitsValue(s: string): nat
    requires AllDigits(s)
  {
    if s == [] then 0 else DigitsValue(s[..|s| - 1]) * 10 + DigitValue(s[|s| - 1])
  }

  /** The value of the digits after the point: "50" is 0.5. */
  function FractionValue(s: string): (v: real)
    requires AllDigits(s)
    ensures 0.0 <= v <= 1.0
  {
    if s == [] then 0.0 else (DigitValue(s[0]) as real + FractionValue(s[1..])) / 10.0
  }

  function Pow10(n: nat): (p: nat)
    ensures p >= 1
  {
    if n == 0 then 1 else 10 * Pow10(n - 1)
  }

  /**
   * `float(c)` for a string of digits and points: the integer part before the
   * point plus the fraction after it; either part may be empty, not both.
   */
  function ParseDecimal(c: string): (r: Option<real>)
    requires AllPriceChars(c)
    ensures r.Some? <==> CountPoints(c) <= 1 && CountPoints(c) < |c|
    ensures r.Some? ==> r.value >= 0.0
  {
    var i := IndexOfPoint(c);
    CountPointsSplit(c, i);
    if i == |c| then
      if c == [] then None else Some(DigitsValue(c) as real)
    else
      var whole, fraction := c[..i], c[i + 1..];
      CountPointsSplit(fraction, IndexOfPoint(fraction));
      if IndexOfPoint(fraction) < |fraction| || (whole == [] && fraction == []) then None
      else Some(DigitsValue(whole) as real + FractionValue(fraction))
  }

  /** The price of a listing's price text, or `None` when the listing is dropped. */
  function PriceOf(text: string): (r: Option<real>)
    ensures r.Some? ==> r.value >= 0.0
  {
    var cleaned := Normalize(text);
    NormalizeAlphabet(text);
    if cleaned == [] then None else ParseDecimal(cleaned)
  }

  /**
   * A listing keeps a price exactly when its cleaned text has a digit and at
   * most one point; the price is then the cleaned text's value, never negative.
   */
  lemma {:induction false} PriceOfDefined(text: string)
    ensures AllPriceChars(Normalize(text))
    ensures PriceOf(text).Some? <==> CountPoints(Normalize(text)) <= 1 && CountPoints(Normalize(text)) < |Normalize(text)|
    ensures PriceOf(text).Some? ==> PriceOf(text) == ParseDecimal(Normalize(text)) && PriceOf(text).value >= 0.0
  {
    NormalizeAlphabet(text);
  }

  /** Splitting at the first point: no point before it, the rest after it. */
  lemma {:induction false} CountPointsSplit(c: string, i: nat)
    requires i == IndexOfPoint(c)
    ensures i == |c| ==> CountPoints(c) == 0
    ensures i < |c| ==> CountPoints(c) == 1 + CountPoints(c[i + 1..])
  {
    if c != [] && c[0] != '.' {
      assert i == 1 + IndexOfPoint(c[1..]);
      CountPointsSplit(c[1..], i - 1);
      if i < |c| {
        assert c[1..][i..] == c[i + 1..];
      }
    }
  }

  lemma {:induction false} KeepConcat(a: string, b: string)
    ensures Keep(a + b) == Keep(a) + Keep(b)
  {
    if a != [] {
      var head := if IsPriceChar(a[0]) then [a[0]] else [];
      assert (a + b)[0] == a[0] && (a + b)[1..] == a[1..] + b;
      calc {
        Keep(a + b);
        head + Keep(a[1..] + b);
        { KeepConcat(a[1..], b); }
        head + (Keep(a[1..]) + Keep(b));
        (head + Keep(a[1..])) + Keep(b);
      }
    } else {
      assert a + b == b;
    }
  }

  lemma {:induction false} PrepareConcat(a: string, b: string)
    ensures Prepare(a + b) == Prepare(a) + Prepare(b)
  {
    if a != [] {
      var head := if a[0] == Euro then [] else if a[0] == ',' then ['.'] else [a[0]];
      assert (a + b)[0] == a[0] && (a + b)[1..] == a[1..] + b;
      calc {
        Prepare(a + b);
        head + Prepare(a[1..] + b);
        { PrepareConcat(a[1..], b); }
        head + (Prepare(a[1..]) + Prepare(b));
        (head + Prepare(a[1..])) + Prepare(b);
      }
    } else {
      assert a + b == b;
    }
  }

  lemma {:induction false} KeepSpaces(s: string)
    requires forall i :: 0 <= i < |s| ==> Text.IsSpace(s[i])
    ensures Keep(s) == []
  {
    if s != [] {
      KeepSpaces(s[1..]);
    }
  }

  /** Stripping cannot change the cleaned text: white space is never kept. */
  lemma {:induction false} StripIrrelevant(s: string)
    ensures Keep(Text.Strip(s)) == Keep(s)
  {
    if s != [] && Text.IsSpace(s[0]) {
      StripIrrelevant(s[1..]);
    } else {
      StripRightIrrelevant(s);
    }
  }

  lemma {:induction false} StripRightIrrelevant(s: string)
    ensures Keep(Text.StripRight(s)) == Keep(s)
  {
    var r := Text.StripRight(s);
    var trail := s[|r|..];
    assert s == r + trail;
    KeepConcat(r, trail);
    KeepSpaces(trail);
  }

  /** Text without euro signs, commas or white space is cleaned to itself. */
  lemma {:induction false} NormalizeClean(s: string)
    requires AllPriceChars(s)
    ensures Prepare(s) == s && Keep(s) == s
  {
    if s != [] {
      NormalizeClean(s[1..]);
    }
  }

  /** The decimal rendering of a natural number. */
  function Show(n: nat): (s: string)
    ensures s != [] && AllDigits(s)
  {
    var d := ['0' + (n % 10) as char];
    if n < 10 then d else Show(n / 10) + d
  }

  lemma {:induction false} DigitsValueShow(n: nat)
    ensures DigitsValue(Show(n)) == n
  {
    if n >= 10 {
      DigitsValueShow(n / 10);
      assert Show(n)[..|Show(n)| - 1] == Show(n / 10);
    }
  }

  /** Two-digit cents, as in `50` of `24,50`. */
  function Cents(c: nat): (s: string)
    requires c < 100
    ensures |s| == 2 && AllDigits(s)
  {
    ['0' + (c / 10) as char, '0' + (c % 10) as char]
  }

  lemma {:induction false} NoPointsInDigits(s: string)
    requires AllDigits(s)
    ensures IndexOfPoint(s) == |s| && CountPoints(s) == 0
  {
    if s != [] {
      NoPointsInDigits(s[1..]);
    }
  }

  /** A whole number parses to itself. */
  lemma {:induction false} ParseShow(n: nat)
    ensures ParseDecimal(Show(n)) == Some(n as real)
    ensures PriceOf(Show(n)) == Some(n as real)
  {
    var s := Show(n);
    NoPointsInDigits(s);
    DigitsValueShow(n);
    NormalizeIdentity(s);
  }

  /** Text made only of digits and points normalises to itself. */
  lemma {:induction false} NormalizeIdentity(s: string)
    requires AllPriceChars(s)
    ensures Normalize(s) == s
  {
    NormalizeClean(s);
    StripIrrelevant(s);
  }

  /** `e.cc` parses to e + cc/100. */
  lemma {:induction false} ParsePointCents(e: nat, c: nat)
    requires c < 100
    ensures ParseDecimal(Show(e) + "." + Cents(c)) == Some(e as real + c as real / 100.0)
  {
    ParsePoint(Show(e), Cents(c));
    DigitsValueShow(e);
    CentsValue(c);
  }

  /**
   * A comma decimal separator followed by a euro sign reads as the plain
   * point-separated numeral: "24,50 €" and "24.50" both give 24.50.
   */
  lemma {:induction false} CommaPriceEqualsPointPrice(e: nat, c: nat)
    requires c < 100
    ensures PriceOf(Show(e) + "," + Cents(c) + " €") == PriceOf(Show(e) + "." + Cents(c))
    ensures PriceOf(Show(e) + "." + Cents(c)) == Some(e as real + c as real / 100.0)
  {
    var w, f := Show(e), Cents(c);
    var point := w + "." + f;
    assert AllPriceChars(point);
    NormalizeIdentity(point);
    CommaEuroCleaned(w, f);
    NormalizeKeepsPrepared(w + "," + f + " €");
    ParsePointCents(e, c);
  }

  lemma {:induction false} CommaEuroCleaned(w: string, f: string)
    requires AllDigits(w) && AllDigits(f)
    ensures Keep(Prepare(w + "," + f + " €")) == w + "." + f
  {
    assert AllPriceChars(w) && AllPriceChars(f);
    NormalizeClean(w);
    NormalizeClean(f);
    assert Prepare(",") == "." && Keep(".") == ".";
    assert Prepare(" €") == " " && Keep(" ") == [];
    calc {
      Keep(Prepare(w + "," + f + " €"));
      { CleanConcat(w + "," + f, " €"); }
      Keep(Prepare(w + "," + f)) + Keep(Prepare(" €"));
      Keep(Prepare(w + "," + f));
      { CleanConcat(w + ",", f); }
      Keep(Prepare(w + ",")) + f;
      { CleanConcat(w, ","); }
      w + "." + f;
    }
  }

  /** Normalisation is the character filter applied to the prepared text. */
  lemma {:induction false} NormalizeKeepsPrepared(text: string)
    ensures Normalize(text) == Keep(Prepare(text))
  {
    StripIrrelevant(Prepare(text));
  }

  lemma {:induction false} CleanConcat(a: string, b: string)
    ensures Keep(Prepare(a + b)) == Keep(Prepare(a)) + Keep(Prepare(b))
  {
    PrepareConcat(a, b);
    KeepConcat(Prepare(a), Prepare(b));
  }

  /**
   * A space used as a thousands separator disappears and the decimal comma
   * becomes the point: "1 234,50" is cleaned to "1234.50".
   */
  lemma {:induction false} SpacedThousands(a: string, b: string, f: string)
    requires AllDigits(a) && AllDigits(b) && AllDigits(f)
    ensures Normalize(a + " " + b + "," + f) == a + b + "." + f
  {
    SpacedThousandsCleaned(a, b, f);
    NormalizeKeepsPrepared(a + " " + b + "," + f);
  }

  lemma {:induction false} SpacedThousandsCleaned(a: string, b: string, f: string)
    requires AllDigits(a) && AllDigits(b) && AllDigits(f)
    ensures Keep(Prepare(a + " " + b + "," + f)) == a + b + "." + f
  {
    assert AllPriceChars(a) && AllPriceChars(b) && AllPriceChars(f);
    NormalizeClean(a);
    NormalizeClean(b);
    NormalizeClean(f);
    assert Prepare(" ") == " " && Keep(" ") == [];
    assert Prepare(",") == "." && Keep(".") == ".";
    calc {
      Keep(Prepare(a + " " + b + "," + f));
      { CleanConcat(a + " " + b + ",", f); }
      Keep(Prepare(a + " " + b + ",")) + f;
      { CleanConcat(a + " " + b, ","); }
      Keep(Prepare(a + " " + b)) + "." + f;
      { CleanConcat(a + " ", b); }
      Keep(Prepare(a + " ")) + b + "." + f;
      { CleanConcat(a, " "); }
      a + b + "." + f;
    }
  }

  /**
   * A point used as a thousands separator survives next to the converted
   * decimal comma: "1.234,50" is cleaned to "1.234.50", which has two points,
   * so the listing is dropped.
   */
  lemma {:induction false} PointedThousandsDropped(a: string, b: string, f: string)
    requires AllDigits(a) && AllDigits(b) && AllDigits(f)
    ensures Normalize(a + "." + b + "," + f) == a + "." + b + "." + f
    ensures PriceOf(a + "." + b + "," + f) == None
  {
    var text := a + "." + b + "," + f;
    NormalizeKeepsPrepared(text);
    CleanConcat(a + "." + b + ",", f);
    CleanConcat(a + "." + b, ",");
    CleanConcat(a + ".", b);
    CleanConcat(a, ".");
    assert AllPriceChars(a) && AllPriceChars(b) && AllPriceChars(f);
    NormalizeClean(a);
    NormalizeClean(b);
    NormalizeClean(f);
    assert Prepare(".") == "." && Prepare(",") == "." && Keep(".") == ".";
    var cleaned := a + "." + b + "." + f;
    NoPointsInDigits(a);
    NoPointsInDigits(b);
    NoPointsInDigits(f);
    CountPointsConcat(a + "." + b + ".", f);
    CountPointsConcat(a + "." + b, ".");
    CountPointsConcat(a + ".", b);
    CountPointsConcat(a, ".");
  }

  lemma {:induction false} CountPointsConcat(a: string, b: string)
    ensures CountPoints(a + b) == CountPoints(a) + CountPoints(b)
  {
    if a == [] {
      assert a + b == b;
    } else {
      assert (a + b)[0] == a[0] && (a + b)[1..] == a[1..] + b;
      CountPointsConcat(a[1..], b);
    }
  }

  /** Three-digit group, as in `234` of `1 234,50`. */
  function Digits3(t: nat): (s: string)
    requires t < 1000
    ensures |s| == 3 && AllDigits(s)
  {
    ['0' + (t / 100) as char, '0' + (t / 10 % 10) as char, '0' + (t % 10) as char]
  }

  lemma {:induction false} DigitsValueConcat(a: string, b: string)
    requires AllDigits(a) && AllDigits(b)
    ensures DigitsValue(a + b) == DigitsValue(a) * Pow10(|b|) + DigitsValue(b)
  {
    if b == [] {
      assert a + b == a;
    } else {
      var b' := b[..|b| - 1];
      assert (a + b)[..|a + b| - 1] == a + b';
      assert (a + b)[|a + b| - 1] == b[|b| - 1];
      DigitsValueConcat(a, b');
      var d := DigitValue(b[|b| - 1]);
      assert DigitsValue(a + b) == DigitsValue(a + b') * 10 + d;
      assert DigitsValue(b) == DigitsValue(b') * 10 + d;
      assert Pow10(|b|) == 10 * Pow10(|b'|);
      ShiftDigit(DigitsValue(a), Pow10(|b'|), DigitsValue(b'), d);
    }
  }

  lemma {:induction false} ShiftDigit(x: int, p: int, y: int, d: int)
    ensures (x * p + y) * 10 + d == x * (10 * p) + (y * 10 + d)
  {
  }

  lemma {:induction false} DigitsValue3(t: nat)
    requires t < 1000
    ensures DigitsValue(Digits3(t)) == t
  {
    var s := Digits3(t);
    var h, d, u := t / 100, t / 10 % 10, t % 10;
    assert t == 10 * (t / 10) + u;
    assert t / 10 == 10 * h + d;
    assert s[..2][..1] == s[..1] && s[..1][..0] == [] && s[..2] == s[..3][..2] && s == s[..3];
    assert DigitsValue(s[..1]) == h;
    assert DigitsValue(s[..2]) == h * 10 + d;
  }

  /**
   * "1 234,50" gives 1234.50: a group of thousands separated by a space reads
   * as one whole number, followed by the cents.
   */
  lemma {:induction false} SpacedThousandsPrice(e: nat, t: nat, c: nat)
    requires t < 1000 && c < 100
    ensures PriceOf(Show(e) + " " + Digits3(t) + "," + Cents(c)) == Some((e * 1000 + t) as real + c as real / 100.0)
  {
    var w, g, f := Show(e), Digits3(t), Cents(c);
    SpacedThousands(w, g, f);
    DigitsValueConcat(w, g);
    DigitsValueShow(e);
    DigitsValue3(t);
    assert Pow10(|g|) == 1000;
    CentsValue(c);
    ParsePoint(w + g, f);
  }

  lemma {:induction false} CentsValue(c: nat)
    requires c < 100
    ensures FractionValue(Cents(c)) == c as real / 100.0
  {
    var f := Cents(c);
    assert f[1..][1..] == [];
    assert FractionValue(f[1..]) == (c % 10) as real / 10.0;
    assert c == c / 10 * 10 + c % 10;
  }

  /** A point between two digit strings, not both empty, parses to whole plus fraction. */
  lemma {:induction false} ParsePoint(w: string, f: string)
    requires AllDigits(w) && AllDigits(f) && (w != [] || f != [])
    ensures ParseDecimal(w + "." + f) == Some(DigitsValue(w) as real + FractionValue(f))
  {
    var s := w + "." + f;
    NoPointsInDigits(w);
    NoPointsInDigits(f);
    assert s[..|w|] == w && s[|w|] == '.' && s[|w| + 1..] == f;
    assert IndexOfPoint(s) == |w|;
  }

  /** "1.234,50" gives no price. */
  lemma {:induction false} PointedThousandsExample()
    ensures PriceOf("1.234,50") == None
  {
    assert "1.234,50" == "1" + "." + "234" + "," + "50";
    PointedThousandsDropped("1", "234", "50");
  }

  /** "0" is a price of zero, not a missing price. */
  lemma {:induction false} ZeroIsKept()
    ensures PriceOf("0") == Some(0.0)
  {
    assert Show(0) == ['0' + (0 % 10) as char] == "0";
    ParseShow(0);
  }
}
