/**
 The code composers of `OtherSource`: the GS1 mod-10 check digit
 (`getCheckDigit`, the EAN-13 / ISBN-13 check of the GS1 General
 Specifications), the ISBN-13 and EAN-13 composers built on it, and the
 mainland-China licence plate composer. Draws are parameters:
 `ResourceUtils.getRandomElement(list)` is an index draw from
 `[0, |list|)`, `RandomStringUtils.randomNumeric(n)` is a string of `n`
 decimal digits.
 */
module Other {
  import opened Outcomes
  import opened Strings
  import opened Lists

  // --------------------------------------------------------- check digit

  /** The factor at 1-based position `i`: 3 at even positions, 1 at odd. */
  function Factor(i: int): int { if i % 2 == 0 then 3 else 1 }

  /** The total `getCheckDigit` accumulates: digit times factor, with
      positions counted from the left starting at 1. */
  function EanTotal(s: string): (t: nat)
    requires AllDigits(s)
  {
    if s == [] then 0
    else EanTotal(s[..|s| - 1]) + Factor(|s|) * DigitValue(s[|s| - 1])
  }

  /** The digit `getCheckDigit` appends: the one that brings the total up
      to a multiple of 10. */
  function CheckDigit(s: string): (c: char)
    requires AllDigits(s)
    ensures IsDigit(c)
    ensures (EanTotal(s) + DigitValue(c)) % 10 == 0
  {
    var m := EanTotal(s) % 10;
    DigitChar(if m == 0 then 0 else 10 - m)
  }

  /** `getCheckDigit(toCheck)`: a blank string is refused, a character
      `Integer.parseInt` cannot read throws, otherwise the check digit. */
  method GetCheckDigit(toCheck: string) returns (r: Result<char>)
    ensures IsBlank(toCheck) ==> r == Failure(IllegalArgument)
    ensures !IsBlank(toCheck) && !AllDigits(toCheck) ==> r == Failure(NumberFormat)
    ensures !IsBlank(toCheck) && AllDigits(toCheck) ==> r == Success(CheckDigit(toCheck))
  {
    if IsBlank(toCheck) {
      return Failure(IllegalArgument);
    }
    var total := 0;
    for i := 1 to |toCheck| + 1
      invariant AllDigits(toCheck[..i - 1])
      invariant total == EanTotal(toCheck[..i - 1])
    {
      var factor := if i % 2 == 0 then 3 else 1;
      var ch := toCheck[i - 1];
      if !IsDigit(ch) {
        return Failure(NumberFormat);
      }
      var x := DigitValue(ch);
      assert toCheck[..i][..i - 1] == toCheck[..i - 1];
      total := total + x * factor;
    }
    assert toCheck[..|toCheck|] == toCheck;
    var m := total % 10;
    var digit := if m == 0 then 0 else 10 - m;
    return Success(DigitChar(digit));
  }

  /** The GS1 check sum, an independent definition: weights 1, 3, 1, ...
      counted from the right-most digit. */
  function Gs1Sum(s: string): nat
    requires AllDigits(s)
  {
    if s == [] then 0
    else (if |s| % 2 == 1 then 1 else 3) * DigitValue(s[0]) + Gs1Sum(s[1..])
  }

  /** A complete GS1 code: digits whose GS1 sum is a multiple of 10. */
  predicate ValidGs1(code: string) {
    |code| >= 1 && AllDigits(code) && Gs1Sum(code) % 10 == 0
  }

  lemma {:induction false} EanTotalFrontTwo(a: char, b: char, t: string)
    requires IsDigit(a) && IsDigit(b) && AllDigits(t)
    ensures AllDigits([a, b] + t)
    ensures EanTotal([a, b] + t) == DigitValue(a) + 3 * DigitValue(b) + EanTotal(t)
    decreases |t|
  {
    var s := [a, b] + t;
    if t == [] {
      assert s[..1] == [a] && [a][..0] == [];
    } else {
      var u := t[..|t| - 1];
      assert s[..|s| - 1] == [a, b] + u;
      EanTotalFrontTwo(a, b, u);
    }
  }

  /** On a code of odd length the left-counted factors of `getCheckDigit`
      are exactly the right-counted GS1 weights. */
  lemma {:induction false} EanTotalIsGs1Sum(s: string)
    requires AllDigits(s) && |s| % 2 == 1
    ensures EanTotal(s) == Gs1Sum(s)
    decreases |s|
  {
    if |s| == 1 {
      assert s[..0] == [] && s[1..] == [];
    } else {
      var t := s[2..];
      assert s == [s[0], s[1]] + t;
      EanTotalFrontTwo(s[0], s[1], t);
      assert s[1..][1..] == t;
      EanTotalIsGs1Sum(t);
    }
  }

  lemma EanTotalAppend(s: string, d: char)
    requires AllDigits(s) && IsDigit(d)
    ensures AllDigits(s + [d])
    ensures EanTotal(s + [d]) == EanTotal(s) + Factor(|s| + 1) * DigitValue(d)
  {
    assert (s + [d])[..|s|] == s;
  }

  /** For data of even length (12 digits for EAN-13 and ISBN-13), a digit
      completes a valid GS1 code exactly when it is the computed check
      digit. */
  lemma CheckDigitCompletes(s: string, d: char)
    requires AllDigits(s) && |s| % 2 == 0 && IsDigit(d)
    ensures ValidGs1(s + [CheckDigit(s)])
    ensures ValidGs1(s + [d]) <==> d == CheckDigit(s)
  {
    var c := CheckDigit(s);
    EanTotalAppend(s, c);
    EanTotalAppend(s, d);
    EanTotalIsGs1Sum(s + [c]);
    EanTotalIsGs1Sum(s + [d]);
  }

  // ---------------------------------------------------------------- ISBN

  const IsbnPrefix: string := "978"
  const IsbnRegionCode: string := "7"

  /** The six publisher code ranges, both ends included. */
  const PublisherRanges: seq<(int, int)> :=
    [(5000, 5128), (5300, 5480), (5600, 5644), (80000, 80258), (80500, 80756), (81002, 81140)]

  /** Every publisher code has four or five digits, so the sequence number
      that fills them up to eight has four or three. */
  lemma PublisherCodeWidth(k: int, p: int)
    requires 0 <= k < |PublisherRanges| && PublisherRanges[k].0 <= p <= PublisherRanges[k].1
    ensures |NatToString(p)| == if p < 10000 then 4 else 5
  {
    if p < 10000 {
      NatToStringLength(p, 4);
    } else {
      assert Pow10(5) == 10 * Pow10(4);
      NatToStringLength(p, 5);
    }
  }

  /** `randomISBN(withDelimiter)`: range `k`, publisher code `p` drawn from
      `[lo, hi + 1)`, and `seqDigits` of `8 - |p|` digits; "978", "7",
      publisher, sequence and check digit, joined with "-" or nothing. */
  method RandomIsbn(withDelimiter: bool, k: int, p: int, seqDigits: string) returns (r: string)
    requires 0 <= k < |PublisherRanges| && PublisherRanges[k].0 <= p <= PublisherRanges[k].1
    requires |seqDigits| == 8 - |NatToString(p)| && AllDigits(seqDigits)
    ensures var data := IsbnPrefix + IsbnRegionCode + NatToString(p) + seqDigits;
      |data| == 12 && AllDigits(data) &&
      (withDelimiter ==> r == IsbnPrefix + "-" + IsbnRegionCode + "-" + NatToString(p) + "-" + seqDigits + "-" + [CheckDigit(data)]) &&
      (!withDelimiter ==> r == data + [CheckDigit(data)])
    ensures !withDelimiter ==> |r| == 13 && ValidGs1(r) && r[..4] == "9787"
    ensures withDelimiter ==> |r| == 17
  {
    var publisher := NatToString(p);
    PublisherCodeWidth(k, p);
    var parts := [IsbnPrefix, IsbnRegionCode, publisher, seqDigits];
    var data := IsbnPrefix + IsbnRegionCode + publisher + seqDigits;
    assert AllDigits(data) by {
      assert forall i :: 0 <= i < |data| ==> IsDigit(data[i]) by {
        assert data == "9787" + publisher + seqDigits;
      }
    }
    var check := GetCheckDigit(data);
    assert !IsBlank(data) by { assert !IsJavaWhitespace(data[0]); }
    var c := check.value;
    parts := parts + [[c]];
    if withDelimiter {
      r := parts[0] + "-" + parts[1] + "-" + parts[2] + "-" + parts[3] + "-" + parts[4];
    } else {
      r := parts[0] + parts[1] + parts[2] + parts[3] + parts[4];
      CheckDigitCompletes(data, c);
      assert r == data + [c];
    }
  }

  // ----------------------------------------------------------------- EAN

  /** `randomEAN()`: a prefix drawn from `[690, 692)`, four manufacturer
      digits, five product digits and the check digit. */
  method RandomEan(prefix: int, manufacturer: string, productCode: string) returns (r: string)
    requires 690 <= prefix < 692
    requires |manufacturer| == 4 && AllDigits(manufacturer)
    requires |productCode| == 5 && AllDigits(productCode)
    ensures |r| == 13 && ValidGs1(r)
    ensures r[..3] == "690" || r[..3] == "691"
    ensures r[..3] == NatToString(prefix) && r[3..7] == manufacturer && r[7..12] == productCode
    ensures r[12] == CheckDigit(r[..12])
  {
    var pre := NatToString(prefix);
    NatToStringLength(prefix, 3);
    assert pre == if prefix == 690 then "690" else "691" by {
      assert prefix / 10 == 69 && NatToString(69) == NatToString(6) + [DigitChar(9)];
    }
    var data := pre + manufacturer + productCode;
    assert AllDigits(data);
    var check := GetCheckDigit(data);
    assert !IsBlank(data) by { assert !IsJavaWhitespace(data[0]); }
    var c := check.value;
    r := data + [c];
    CheckDigitCompletes(data, c);
    assert r[..12] == data;
  }

  // --------------------------------------------------------------- plates

  /** The province abbreviations a plate starts with. */
  const Provinces: string := "京津冀晋蒙辽吉黑沪苏浙皖闽赣鲁豫鄂湘粤桂琼渝川贵云藏陕甘宁青新"

  /** The plate letters: A..Z without I and O. */
  const PlateLetters: string := "ABCDEFGHJKLMNPQRSTUVWXYZ"

  /** A plate letter: an upper-case ASCII letter other than I and O. */
  predicate IsPlateLetter(c: char) { IsAsciiUpper(c) && c != 'I' && c != 'O' }

  /** The letter list is exactly the plate letters. */
  lemma PlateAlphabets(c: char)
    ensures |Provinces| == 31 && |PlateLetters| == 24
    ensures c in PlateLetters <==> IsPlateLetter(c)
  {
  }

  /** The characters the letter draws pick. */
  function LettersFor(draws: seq<int>): (s: string)
    requires forall i :: 0 <= i < |draws| ==> 0 <= draws[i] < |PlateLetters|
    ensures |s| == |draws| && forall i :: 0 <= i < |s| ==> s[i] == PlateLetters[draws[i]]
    ensures forall i :: 0 <= i < |s| ==> IsPlateLetter(s[i])
  {
    if draws == [] then [] else LettersFor(draws[..|draws| - 1]) + [PlateLetters[draws[|draws| - 1]]]
  }

  /** `randomPlateNumber(isNewEnergyVehicle)`: a province, `alphaCnt` from
      `[0, 3)` letters and `5 - alphaCnt` digits, shuffled by `swaps` (the
      draws of `Collections.shuffle`), then province, a series letter, a
      "D" or "F" tag for a new-energy vehicle, and the five shuffled
      characters. */
  method RandomPlateNumber(isNewEnergyVehicle: bool, provinceIndex: int, alphaCnt: int,
                           letterDraws: seq<int>, digitDraws: seq<int>, swaps: seq<int>,
                           tagDraw: int, seriesDraw: int) returns (r: string)
    requires 0 <= provinceIndex < |Provinces|
    requires 0 <= alphaCnt < 3
    requires |letterDraws| == alphaCnt && forall i :: 0 <= i < alphaCnt ==> 0 <= letterDraws[i] < |PlateLetters|
    requires |digitDraws| == 5 - alphaCnt && forall i :: 0 <= i < |digitDraws| ==> 0 <= digitDraws[i] < 10
    requires |swaps| >= 5 && forall k :: 1 <= k < 5 ==> 0 <= swaps[k] <= k
    requires 0 <= tagDraw < 2 && 0 <= seriesDraw < |PlateLetters|
    ensures var head := if isNewEnergyVehicle then 3 else 2;
      |r| == head + 5 &&
      r[0] == Provinces[provinceIndex] && r[1] == PlateLetters[seriesDraw] &&
      (isNewEnergyVehicle ==> r[2] == (if tagDraw == 0 then 'D' else 'F')) &&
      multiset(r[head..]) == multiset(LettersFor(letterDraws) + DigitString(digitDraws)) &&
      Count(r[head..], IsPlateLetter) == alphaCnt &&
      Count(r[head..], IsDigit) == 5 - alphaCnt &&
      (forall i :: head <= i < |r| ==> IsPlateLetter(r[i]) || IsDigit(r[i]))
  {
    var prefix := Provinces[provinceIndex];
    var plateNumbers: string := [];
    for i := 0 to alphaCnt
      invariant plateNumbers == LettersFor(letterDraws[..i])
    {
      LettersForStep(letterDraws, i);
      plateNumbers := plateNumbers + [PlateLetters[letterDraws[i]]];
    }
    assert letterDraws[..alphaCnt] == letterDraws;
    var numericCnt := 5 - alphaCnt;
    for i := 0 to numericCnt
      invariant plateNumbers == LettersFor(letterDraws) + DigitString(digitDraws[..i])
    {
      DigitStringStep(digitDraws, i);
      plateNumbers := plateNumbers + [DigitChar(digitDraws[i])];
    }
    assert digitDraws[..numericCnt] == digitDraws;
    var shuffled := Shuffle(plateNumbers, swaps);
    var tag := "";
    if isNewEnergyVehicle {
      tag := if tagDraw == 0 then "D" else "F";
    }
    r := [prefix] + [PlateLetters[seriesDraw]] + tag + shuffled;
    ShuffledPlateCounts(LettersFor(letterDraws), DigitString(digitDraws), shuffled);
    PlateLayout(prefix, PlateLetters[seriesDraw], tag, shuffled);
  }

  /** Where the parts of a plate sit once they are joined. */
  lemma PlateLayout(province: char, series: char, tag: string, body: string)
    requires forall i :: 0 <= i < |body| ==> IsPlateLetter(body[i]) || IsDigit(body[i])
    ensures var r := [province] + [series] + tag + body;
      && |r| == 2 + |tag| + |body| && r[0] == province && r[1] == series
      && (|tag| == 1 ==> r[2] == tag[0])
      && r[2 + |tag|..] == body
      && (forall i :: 2 + |tag| <= i < |r| ==> IsPlateLetter(r[i]) || IsDigit(r[i]))
  {
    var r := [province] + [series] + tag + body;
    assert forall i :: 2 + |tag| <= i < |r| ==> r[i] == body[i - 2 - |tag|];
  }

  /** One more letter draw appends one more letter. */
  lemma LettersForStep(draws: seq<int>, i: int)
    requires 0 <= i < |draws| && forall k :: 0 <= k < |draws| ==> 0 <= draws[k] < |PlateLetters|
    ensures LettersFor(draws[..i + 1]) == LettersFor(draws[..i]) + [PlateLetters[draws[i]]]
  {
    assert draws[..i + 1][..i] == draws[..i];
  }

  lemma CountLettersAndDigits(letters: string, digits: string)
    requires forall i :: 0 <= i < |letters| ==> IsPlateLetter(letters[i])
    requires forall i :: 0 <= i < |digits| ==> IsDigit(digits[i])
    ensures Count(letters + digits, IsPlateLetter) == |letters|
    ensures Count(letters + digits, IsDigit) == |digits|
  {
    CountAllOrNone(letters, IsPlateLetter);
    CountAllOrNone(letters, IsDigit);
    CountAllOrNone(digits, IsPlateLetter);
    CountAllOrNone(digits, IsDigit);
    CountAppend(letters, digits, IsPlateLetter);
    CountAppend(letters, digits, IsDigit);
  }

  /** Whatever order the shuffle leaves, the body still holds exactly the
      drawn letters and the drawn digits, and nothing else. */
  lemma ShuffledPlateCounts(letters: string, digits: string, shuffled: string)
    requires forall i :: 0 <= i < |letters| ==> IsPlateLetter(letters[i])
    requires forall i :: 0 <= i < |digits| ==> IsDigit(digits[i])
    requires multiset(shuffled) == multiset(letters + digits)
    ensures Count(shuffled, IsPlateLetter) == |letters|
    ensures Count(shuffled, IsDigit) == |digits|
    ensures forall i :: 0 <= i < |shuffled| ==> IsPlateLetter(shuffled[i]) || IsDigit(shuffled[i])
  {
    CountLettersAndDigits(letters, digits);
    CountPermutation(letters + digits, shuffled, IsPlateLetter);
    CountPermutation(letters + digits, shuffled, IsDigit);
    forall i | 0 <= i < |shuffled|
      ensures IsPlateLetter(shuffled[i]) || IsDigit(shuffled[i])
    {
      assert shuffled[i] in multiset(letters + digits);
    }
  }
}
