/** Quality scores as text: decimals in [0, 1] with at most six places, held as millionths. */
module Score {
  import opened Common

  const ONE: int := 1_000_000

  // ----- digits -----

  predicate IsDigit(c: char) { '0' <= c <= '9' }

  predicate AllDigits(s: string) { forall i :: 0 <= i < |s| ==> IsDigit(s[i]) }

  function DigitValue(c: char): int { c as int - '0' as int }

  function DigitChar(d: int): (c: char)
    requires 0 <= d < 10
    ensures IsDigit(c) && DigitValue(c) == d
  {
    ('0' as int + d) as char
  }

  function Pow10(n: nat): (r: int)
    ensures r >= 1
  {
    if n == 0 then 1 else 10 * Pow10(n - 1)
  }

  /** The integer a digit string spells. */
  function Number(s: string): int {
    if s == [] then 0 else 10 * Number(s[..|s| - 1]) + DigitValue(s[|s| - 1])
  }

  /** A number in exactly `n` digits. */
  function Digits(v: int, n: nat): (r: string)
    ensures |r| == n && AllDigits(r)
    decreases n
  {
    if n == 0 then [] else Digits(v / 10, n - 1) + [DigitChar(v % 10)]
  }

  function Zeros(n: nat): (r: string)
    ensures |r| == n && AllDigits(r) && forall i :: 0 <= i < n ==> r[i] == '0'
  {
    seq(n, _ => '0')
  }

  function TrimZeros(s: string): string {
    if s != [] && s[|s| - 1] == '0' then TrimZeros(s[..|s| - 1]) else s
  }

  lemma {:induction false} NumberOfDigits(v: int, n: nat)
    requires 0 <= v < Pow10(n)
    ensures Number(Digits(v, n)) == v
  {
    if n > 0 {
      NumberOfDigits(v / 10, n - 1);
      assert Digits(v, n)[..n - 1] == Digits(v / 10, n - 1);
    }
  }

  lemma {:induction false} DigitsOfNumber(s: string)
    requires AllDigits(s)
    ensures 0 <= Number(s) < Pow10(|s|) && Digits(Number(s), |s|) == s
  {
    if s != [] {
      DigitsOfNumber(s[..|s| - 1]);
      assert s == s[..|s| - 1] + [s[|s| - 1]];
    }
  }

  lemma {:induction false} TrimmedZeros(s: string)
    requires AllDigits(s)
    ensures |TrimZeros(s)| <= |s| && AllDigits(TrimZeros(s)) && s == TrimZeros(s) + Zeros(|s| - |TrimZeros(s)|)
    ensures TrimZeros(s) != [] ==> TrimZeros(s)[|TrimZeros(s)| - 1] != '0'
    ensures Number(s) > 0 ==> TrimZeros(s) != []
  {
    if s != [] && s[|s| - 1] == '0' {
      TrimmedZeros(s[..|s| - 1]);
      DigitsOfNumber(s[..|s| - 1]);
    }
  }

  lemma {:induction false} TrimRestores(s: string, n: nat)
    requires s != [] && s[|s| - 1] != '0'
    ensures TrimZeros(s + Zeros(n)) == s
  {
    if n == 0 {
      assert s + Zeros(0) == s;
    } else {
      TrimRestores(s, n - 1);
      assert (s + Zeros(n))[..|s| + n - 1] == s + Zeros(n - 1);
    }
  }

  // ----- parsing -----

  predicate IsSpace(c: char) { c == ' ' || '\t' <= c <= '\r' }

  function Split(s: string): (r: seq<string>)
    ensures r != []
  {
    if s == [] then [[]]
    else
      var rest := Split(s[1..]);
      if s[0] == '.' then [[]] + rest else [[s[0]] + rest[0]] + rest[1..]
  }

  /** Digits in [0, 1], as text; None stands for the parser's errors. */
  function ParseScorePPM(value: string): Option<int> {
    if value == "" || IsSpace(value[0]) || IsSpace(value[|value| - 1]) || value[0] == '+' || value[0] == '-' then None
    else
      var parts := Split(value);
      if |parts| > 2 || (parts[0] != "0" && parts[0] != "1") then None
      else if |parts| == 1 then (if value == "0" then Some(0) else if value == "1" then Some(ONE) else None)
      else if parts[1] == "" || |parts[1]| > 6 then None
      else if !AllDigits(parts[1]) then None
      else if parts[0] == "1" && TrimZeros(parts[1]) != "" then None
      else if parts[0] == "1" then Some(ONE)
      else Some(Number(parts[1] + Zeros(6 - |parts[1]|)))
  }

  function FormatScorePPM(value: int): string {
    if value < 0 || value > ONE then "invalid"
    else if value == 0 then "0"
    else if value == ONE then "1"
    else "0." + TrimZeros(Digits(value, 6))
  }

  // ----- the accepted language and its meaning -----

  predicate AllZeros(s: string) { forall i :: 0 <= i < |s| ==> s[i] == '0' }

  /** "0", "1", or one of them with one to six places, which are all zero after "1.". */
  predicate IsScore(s: string) {
    s == "0" || s == "1"
    || (3 <= |s| <= 8 && (s[0] == '0' || s[0] == '1') && s[1] == '.' && AllDigits(s[2..]) && (s[0] == '1' ==> AllZeros(s[2..])))
  }

  /** The value of decimal places, the first of them tenths. */
  function Places(s: string): real {
    if s == [] then 0.0 else Places(s[..|s| - 1]) + DigitValue(s[|s| - 1]) as real / Pow10(|s|) as real
  }

  /** The exact decimal value of a score. */
  function Value(s: string): real
    requires IsScore(s)
  {
    DigitValue(s[0]) as real + (if |s| <= 1 then 0.0 else Places(s[2..]))
  }

  lemma {:induction false} SplitWhole(s: string)
    requires '.' !in s
    ensures Split(s) == [s]
  {
    if s != [] {
      SplitWhole(s[1..]);
      assert s == [s[0]] + s[1..];
    }
  }

  lemma {:induction false} SplitHolds(s: string)
    ensures |Split(s)| == 1 ==> Split(s) == [s]
    ensures |Split(s)| == 2 ==> s == Split(s)[0] + "." + Split(s)[1]
  {
    if s != [] {
      SplitHolds(s[1..]);
      assert s == [s[0]] + s[1..];
    }
  }

  lemma SplitScore(s: string)
    requires |s| >= 2 && s[0] != '.' && s[1] == '.' && AllDigits(s[2..])
    ensures Split(s) == [[s[0]], s[2..]]
  {
    assert '.' !in s[2..];
    SplitWhole(s[2..]);
    assert s[1..][1..] == s[2..];
    assert Split(s[1..]) == [[]] + [s[2..]];
    assert [s[0]] + [] == [s[0]];
  }

  lemma {:induction false} TrimmedAway(s: string)
    ensures TrimZeros(s) == "" <==> AllZeros(s)
  {
    if s != [] && s[|s| - 1] == '0' {
      TrimmedAway(s[..|s| - 1]);
    }
  }

  /** The parser accepts exactly the scores. */
  lemma AcceptsScores(s: string)
    ensures ParseScorePPM(s).Some? <==> IsScore(s)
  {
    hide TrimZeros, Number, Split;
    if IsScore(s) {
      if |s| == 1 {
        SplitWhole(s);
      } else {
        SplitScore(s);
        TrimmedAway(s[2..]);
        assert IsDigit(s[2..][|s| - 3]);
      }
    }
    if ParseScorePPM(s).Some? {
      SplitHolds(s);
      if |Split(s)| == 2 {
        assert s[2..] == Split(s)[1];
        TrimmedAway(s[2..]);
      }
    }
  }

  lemma {:induction false} PlacesAreDigits(s: string)
    ensures Number(s) as real == Places(s) * Pow10(|s|) as real
  {
    if s != [] {
      var n := |s|;
      var front := s[..n - 1];
      PlacesAreDigits(front);
      var tens := Pow10(n) as real;
      assert tens == 10.0 * Pow10(n - 1) as real;
      Shifted(Places(front), DigitValue(s[n - 1]) as real, Pow10(n - 1) as real, tens);
    }
  }

  lemma Shifted(front: real, last: real, less: real, more: real)
    requires more == 10.0 * less && less > 0.0
    ensures (front + last / more) * more == 10.0 * (front * less) + last
  {
    assert (last / more) * more == last;
    assert (front + last / more) * more == front * more + (last / more) * more;
  }

  lemma {:induction false} PaddedPlaces(s: string, n: nat)
    ensures Places(s + Zeros(n)) == Places(s)
  {
    hide Places;
    if n == 0 {
      assert s + Zeros(0) == s;
    } else {
      PaddedPlaces(s, n - 1);
      var padded := s + Zeros(n);
      assert padded[..|padded| - 1] == s + Zeros(n - 1);
      ZeroPlace(padded);
    }
  }

  lemma ZeroPlace(s: string)
    requires s != [] && s[|s| - 1] == '0'
    ensures Places(s) == Places(s[..|s| - 1])
  {
    hide Pow10;
    var p := Pow10(|s|) as real;
    assert 0.0 / p == 0.0;
  }

  lemma {:induction false} ZeroPlaces(s: string)
    requires AllZeros(s)
    ensures Places(s) == 0.0
  {
    if s != [] {
      ZeroPlaces(s[..|s| - 1]);
    }
  }

  lemma SixPlaces()
    ensures Pow10(6) == ONE
  {
    assert Pow10(2) == 100 && Pow10(4) == 10_000;
  }

  /** Every accepted text means exactly its parsed number of millionths, within [0, 1]. */
  lemma ParsesExactly(s: string)
    requires IsScore(s)
    ensures var v := ParseScorePPM(s); v.Some? && 0 <= v.value <= ONE && v.value as real == Value(s) * ONE as real
  {
    hide TrimZeros, Number, Split, Places, Pow10;
    AcceptsScores(s);
    if |s| == 1 {
      SplitWhole(s);
    } else {
      SplitScore(s);
      var places := s[2..];
      if s[0] == '1' {
        ZeroPlaces(places);
      } else {
        var padded := places + Zeros(6 - |places|);
        SixPlaces();
        PaddedPlaces(places, 6 - |places|);
        PlacesAreDigits(padded);
        DigitsOfNumber(padded);
      }
    }
  }

  /** No trailing zeros, and no places at all for 0 and 1. */
  predicate IsCanonical(s: string) {
    IsScore(s) && (|s| > 1 ==> s[0] == '0' && s[|s| - 1] != '0')
  }

  lemma FormatShape(v: int)
    requires 0 < v < ONE
    ensures var places := TrimZeros(Digits(v, 6));
            1 <= |places| <= 6 && AllDigits(places) && places[|places| - 1] != '0' && Number(places + Zeros(6 - |places|)) == v
  {
    SixPlaces();
    NumberOfDigits(v, 6);
    TrimmedZeros(Digits(v, 6));
  }

  /** Printing and parsing again gives the number back, and what is printed is canonical. */
  lemma RoundTrip(v: int)
    requires 0 <= v <= ONE
    ensures ParseScorePPM(FormatScorePPM(v)) == Some(v) && IsCanonical(FormatScorePPM(v))
  {
    hide TrimZeros, Number, Split, Digits;
    var s := FormatScorePPM(v);
    if v == 0 || v == ONE {
      SplitWhole(s);
    } else {
      FormatShape(v);
      var places := TrimZeros(Digits(v, 6));
      assert s[2..] == places && s[0] == '0' && s[1] == '.';
      assert IsDigit(places[|places| - 1]);
      SplitScore(s);
    }
  }

  /** Each score has one canonical form: the printed one. */
  lemma CanonicalIsUnique(s: string)
    requires IsCanonical(s)
    ensures ParseScorePPM(s).Some? && s == FormatScorePPM(ParseScorePPM(s).value)
  {
    hide TrimZeros, Number, Split, Digits;
    AcceptsScores(s);
    if |s| == 1 {
      SplitWhole(s);
    } else {
      SplitScore(s);
      var places := s[2..];
      var padded := places + Zeros(6 - |places|);
      SixPlaces();
      DigitsOfNumber(padded);
      TrimRestores(places, 6 - |places|);
      NotZero(padded, |places| - 1);
      assert s == "0." + places;
    }
  }

  lemma {:induction false} NotZero(s: string, i: nat)
    requires i < |s| && AllDigits(s) && s[i] != '0'
    ensures Number(s) > 0
  {
    hide Digits, Pow10;
    DigitsOfNumber(s[..|s| - 1]);
    assert IsDigit(s[|s| - 1]) && IsDigit(s[i]);
    if i < |s| - 1 {
      NotZero(s[..|s| - 1], i);
    }
  }

  /** Any two accepted texts of one value print alike; normalising is parsing and printing. */
  lemma SameValueSameForm(a: string, b: string)
    requires IsScore(a) && IsScore(b)
    ensures ParseScorePPM(a).Some? && ParseScorePPM(b).Some?
    ensures Value(a) == Value(b) <==> FormatScorePPM(ParseScorePPM(a).value) == FormatScorePPM(ParseScorePPM(b).value)
  {
    hide Value, FormatScorePPM, ParseScorePPM;
    ParsesExactly(a);
    ParsesExactly(b);
    RoundTrip(ParseScorePPM(a).value);
    RoundTrip(ParseScorePPM(b).value);
  }
}
