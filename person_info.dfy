/**
 `PersonInfoSource`: the citizen identity number composer (GB 11643-1999:
 a six-digit region prefix, the birth date as `yyyyMMdd`, a three-digit
 sequence whose parity is the gender, and the ISO 7064 MOD 11-2 check
 character), the province index it draws region prefixes from, the age
 forms, and the password, mobile-number and nickname builders. Random draws
 are parameters; `ResourceUtils.getRandomElement(list)` is an index draw
 from `[0, |list|)` and gives `null` on an empty list.
 */
module PersonInfo {
  import opened Outcomes
  import opened Strings
  import opened Lists
  import opened Calendar
  import DT = DateTime

  /** The gender flag: 0 female, 1 male. */
  datatype Gender = Female | Male

  /** One row of the region table: code prefix, location name, parent code. */
  datatype IdPrefix = IdPrefix(prefix: string, location: string, parent: string)

  // ------------------------------------------------------ check tables

  /** `weightingFactorMap`, keys 1..10. */
  const Weights: seq<int> := [7, 9, 10, 5, 8, 4, 2, 1, 6, 3]

  /** `weightingFactorMap.get(i)`: absent outside 1..10. */
  function WeightingFactor(i: int): (w: Option<int>)
    ensures w.Some? <==> 1 <= i <= 10
  {
    if 1 <= i <= 10 then Some(Weights[i - 1]) else None
  }

  /** The factor `randomIdCard` looks up for 1-based position `i`. */
  function FactorAt(i: int): (w: Option<int>)
    ensures i >= 1 ==> (w.Some? <==> i <= 20)
  {
    if i <= 10 then WeightingFactor(i) else WeightingFactor(i - 10)
  }

  /** `checkNumMap`, keys 0..10. */
  const CheckChars: string := "10X98765432"

  /** `checkNumMap.get(k)`: absent outside 0..10. */
  function CheckNumber(k: int): (c: Option<char>)
    ensures c.Some? <==> 0 <= k <= 10
  {
    if 0 <= k <= 10 then Some(CheckChars[k]) else None
  }

  /** The check table is a bijection from 0..10 onto the digits and `X`. */
  lemma CheckNumberBijection(j: int, k: int, c: char)
    requires 0 <= j <= 10 && 0 <= k <= 10
    ensures CheckNumber(j) == CheckNumber(k) ==> j == k
    ensures c in CheckChars <==> IsDigit(c) || c == 'X'
  {
  }

  function Pow2(k: nat): nat { if k == 0 then 1 else 2 * Pow2(k - 1) }

  /** The weight of ISO 7064 MOD 11-2 at 1-based position `i` of an
      18-character code, `2^(18 - i) mod 11`, computed from the last
      position backwards. */
  function IsoWeight(i: int): (w: int)
    requires 1 <= i <= 18
    ensures 0 <= w < 11
    decreases 18 - i
  {
    if i == 18 then 1 else 2 * IsoWeight(i + 1) % 11
  }

  /** The backward computation is the power of two modulo 11. */
  lemma {:induction false} IsoWeightIsPower(i: int)
    requires 1 <= i <= 18
    ensures IsoWeight(i) == Pow2(18 - i) % 11
    decreases 18 - i
  {
    if i < 18 {
      IsoWeightIsPower(i + 1);
      var p := Pow2(17 - i);
      var q, r := p / 11, p % 11;
      assert Pow2(18 - i) == 2 * p == 11 * (2 * q) + 2 * r;
      ModMultiple(2 * q, 2 * r);
    }
  }

  lemma {:induction false} ModMultiple(k: nat, x: int)
    ensures (11 * k + x) % 11 == x % 11
  {
    if k > 0 {
      ModMultiple(k - 1, x + 11);
      assert 11 * k + x == 11 * (k - 1) + (x + 11);
    }
  }

  lemma IsoWeights()
    ensures IsoWeight(1) == 7 && IsoWeight(2) == 9 && IsoWeight(3) == 10
    ensures IsoWeight(4) == 5 && IsoWeight(5) == 8 && IsoWeight(6) == 4
    ensures IsoWeight(7) == 2 && IsoWeight(8) == 1 && IsoWeight(9) == 6
    ensures IsoWeight(10) == 3 && IsoWeight(11) == 7 && IsoWeight(12) == 9
    ensures IsoWeight(13) == 10 && IsoWeight(14) == 5 && IsoWeight(15) == 8
    ensures IsoWeight(16) == 4 && IsoWeight(17) == 2 && IsoWeight(18) == 1
  {
    assert IsoWeight(18) == 1;
    assert IsoWeight(17) == 2;
    assert IsoWeight(16) == 4;
    assert IsoWeight(15) == 8;
    assert IsoWeight(14) == 5;
    assert IsoWeight(13) == 10;
    assert IsoWeight(12) == 9;
    assert IsoWeight(11) == 7;
    assert IsoWeight(10) == 3;
    assert IsoWeight(9) == 6;
    assert IsoWeight(8) == 1;
    assert IsoWeight(7) == 2;
    assert IsoWeight(6) == 4;
    assert IsoWeight(5) == 8;
    assert IsoWeight(4) == 5;
    assert IsoWeight(3) == 10;
    assert IsoWeight(2) == 9;
  }

  /** Positions 1..10 use the table as it stands and 11..17 use it again
      from the start; either way the factor is the ISO 7064 weight. */
  lemma FactorIsIsoWeight(i: int)
    requires 1 <= i <= 17
    ensures FactorAt(i) == Some(IsoWeight(i))
    ensures FactorAt(i) == Some(if i <= 10 then Weights[i - 1] else Weights[i - 11])
  {
    IsoWeights();
    assert i == 1 || i == 2 || i == 3 || i == 4 || i == 5 || i == 6 || i == 7 || i == 8 || i == 9
      || i == 10 || i == 11 || i == 12 || i == 13 || i == 14 || i == 15 || i == 16 || i == 17;
  }

  // ---------------------------------------------------------- checksum

  /** `src.charAt(i - 1) - 48`. */
  function CharCode(c: char): int { c as int - 48 }

  /** The weighted sum `randomIdCard` accumulates over a text of at most
      20 characters (beyond that the factor lookup finds nothing). */
  function IdSum(s: string): int
    requires |s| <= 20
  {
    if s == [] then 0 else IdSum(s[..|s| - 1]) + CharCode(s[|s| - 1]) * FactorAt(|s|).value
  }

  lemma IdSumStep(s: string, i: int)
    requires 1 <= i <= 20 && i <= |s|
    ensures IdSum(s[..i]) == IdSum(s[..i - 1]) + CharCode(s[i - 1]) * FactorAt(i).value
    ensures FactorAt(i) == (if i <= 10 then WeightingFactor(i) else WeightingFactor(i - 10))
  {
    assert s[..i][..i - 1] == s[..i - 1];
  }

  /** Java's `%`: the remainder takes the sign of the dividend. */
  function JavaRem(a: int, m: int): (r: int)
    requires m > 0
    ensures a >= 0 ==> r == a % m
    ensures a < 0 ==> -m < r <= 0
    ensures a < 0 ==> a == -((-a) / m) * m + r
  {
    if a >= 0 then a % m
    else
      assert -a == ((-a) / m) * m + (-a) % m;
      -((-a) % m)
  }

  /** What `src + checkNumMap.get(sum % 11)` appends: the check character,
      or the text "null" when the remainder is negative. */
  function CheckSuffix(src: string): (t: string)
    requires |src| <= 20
    ensures IdSum(src) >= 0 ==> |t| == 1 && t[0] in CheckChars
  {
    match CheckNumber(JavaRem(IdSum(src), 11))
    case Some(c) => [c]
    case None => "null"
  }

  /** The value ISO 7064 gives a check character. */
  function CharValue(c: char): int { if c == 'X' then 10 else CharCode(c) }

  /** The ISO 7064 MOD 11-2 weighted sum of the first `|code|` characters. */
  function IsoSum(code: string): int
    requires |code| <= 18
  {
    if code == [] then 0 else IsoSum(code[..|code| - 1]) + IsoWeight(|code|) * CharValue(code[|code| - 1])
  }

  lemma NonNegativeProduct(a: int, b: int)
    requires a >= 0 && b >= 0
    ensures a * b >= 0
  {
  }

  /** A well-formed identity number: 17 digits and a digit or `X`, whose
      ISO 7064 MOD 11-2 sum is 1 modulo 11. */
  predicate Gb11643Valid(code: string) {
    |code| == 18 && AllDigits(code[..17]) && (IsDigit(code[17]) || code[17] == 'X')
    && IsoSum(code) % 11 == 1
  }

  lemma {:induction false} IdSumIsIsoSum(s: string)
    requires |s| <= 17 && AllDigits(s)
    ensures IdSum(s) == IsoSum(s) && IdSum(s) >= 0
  {
    if s != [] {
      var init, c := s[..|s| - 1], s[|s| - 1];
      assert AllDigits(init) by {
        assert forall i :: 0 <= i < |init| ==> init[i] == s[i];
      }
      IdSumIsIsoSum(init);
      var w := FactorAt(|s|).value;
      assert w == IsoWeight(|s|) by {
        FactorIsIsoWeight(|s|);
      }
      var x := CharCode(c);
      assert CharValue(c) == x && 0 <= x <= 9;
      assert IdSum(s) == IdSum(init) + x * w;
      assert IsoSum(s) == IsoSum(init) + w * x;
      assert x * w >= 0 by {
        NonNegativeProduct(x, w);
      }
    }
  }

  lemma CheckTableValues(m: int)
    requires 0 <= m <= 10
    ensures (m + CharValue(CheckChars[m])) % 11 == 1
    ensures IsDigit(CheckChars[m]) || CheckChars[m] == 'X'
  {
    assert m == 0 || m == 1 || m == 2 || m == 3 || m == 4 || m == 5 || m == 6 || m == 7 || m == 8
      || m == 9 || m == 10;
  }

  /** The last position of an 18-character code has weight 1. */
  lemma IsoSumLast(src: string, c: char)
    requires |src| == 17
    ensures IsoSum(src + [c]) == IsoSum(src) + CharValue(c)
  {
    assert (src + [c])[..17] == src;
    assert IsoWeight(18) == 1;
  }

  /** Digits and `X` have distinct values in 0..10. */
  lemma CharValueInjective(c: char, d: char)
    requires IsDigit(c) || c == 'X'
    requires IsDigit(d) || d == 'X'
    ensures 0 <= CharValue(c) <= 10
    ensures CharValue(c) == CharValue(d) ==> c == d
  {
  }

  /** Modulo 11 exactly one value in 0..10 completes a sum to 1: the
      one the check table gives for the sum's remainder. */
  lemma CompletionUnique(total: int, a: int, b: int)
    requires total >= 0 && 0 <= a <= 10 && 0 <= b <= 10
    requires (total % 11 + b) % 11 == 1
    ensures (total + b) % 11 == 1
    ensures (total + a) % 11 == 1 <==> a == b
  {
    var q, m := total / 11, total % 11;
    assert total == 11 * q + m && q >= 0;
    ModMultiple(q, m + a);
    ModMultiple(q, m + b);
  }

  /** The appended character makes the ISO 7064 MOD 11-2 sum 1 modulo 11,
      and it is the only digit or `X` that does. */
  lemma CheckSuffixCompletes(src: string, c: char)
    requires |src| == 17 && AllDigits(src)
    requires IsDigit(c) || c == 'X'
    ensures |CheckSuffix(src)| == 1
    ensures Gb11643Valid(src + CheckSuffix(src))
    ensures Gb11643Valid(src + [c]) <==> [c] == CheckSuffix(src)
  {
    var total := IdSum(src);
    assert total == IsoSum(src) && total >= 0 by {
      IdSumIsIsoSum(src);
    }
    var m := total % 11;
    var k := CheckChars[m];
    var kv, cv := CharValue(k), CharValue(c);
    assert (m + kv) % 11 == 1 && (IsDigit(k) || k == 'X') by {
      CheckTableValues(m);
    }
    assert CheckSuffix(src) == [k];
    assert 0 <= cv <= 10 && 0 <= kv <= 10 && (cv == kv ==> c == k) by {
      CharValueInjective(c, k);
      CharValueInjective(k, c);
    }
    assert (total + kv) % 11 == 1 && ((total + cv) % 11 == 1 <==> c == k) by {
      CompletionUnique(total, cv, kv);
    }
    ValidWithLast(src, k);
    ValidWithLast(src, c);
  }

  /** Seventeen digits and a last character form a valid number exactly
      when the weighted sum with that character is 1 modulo 11. */
  lemma ValidWithLast(src: string, x: char)
    requires |src| == 17 && AllDigits(src)
    requires IsDigit(x) || x == 'X'
    ensures Gb11643Valid(src + [x]) <==> (IsoSum(src) + CharValue(x)) % 11 == 1
  {
    assert (src + [x])[..17] == src;
    IsoSumLast(src, x);
  }

  // ------------------------------------------------------ composition

  /** The sequence number after the parity fix: an odd draw for a female
      is lowered by one, an even draw for a male raised by one. */
  function SequenceFor(gender: Gender, draw: int): (s: int)
    requires 1 <= draw < 1000
    ensures gender == Female ==> 0 <= s <= 998 && s % 2 == 0
    ensures gender == Male ==> 1 <= s <= 999 && s % 2 == 1
    ensures s == draw || s == draw - 1 || s == draw + 1
  {
    if gender == Female && draw % 2 != 0 then draw - 1
    else if gender == Male && draw % 2 == 0 then draw + 1
    else draw
  }

  /** Every sequence number of the right parity is produced by some draw,
      "000" for a female included. */
  lemma SequenceReachable(gender: Gender, s: int)
    requires gender == Female ==> 0 <= s <= 998 && s % 2 == 0
    requires gender == Male ==> 1 <= s <= 999 && s % 2 == 1
    ensures var d := if gender == Female then s + 1 else s;
      1 <= d < 1000 && SequenceFor(gender, d) == s
  {
  }

  /** `String.format("%03d", serial)` is three digits spelling `serial`. */
  lemma SequenceField(s: int)
    requires 0 <= s <= 999
    ensures |ZeroPad(s, 3)| == 3 && AllDigits(ZeroPad(s, 3)) && DecimalValue(ZeroPad(s, 3)) == s
  {
    assert Pow10(3) == 1000;
    PadExact(s, 3);
  }

  /** The text before the check character. */
  function IdBody(prefix: string, date: int, serial: nat): string {
    prefix + FormatYyyyMMdd(date) + ZeroPad(serial, 3)
  }

  /** Prefix, date, sequence and check, as `randomIdCard` appends them;
      past 20 characters the factor lookup unboxes `null`. */
  function ComposeIdCard(prefix: string, date: int, serial: nat): (r: Result<string>)
    ensures r.Success? <==> |IdBody(prefix, date, serial)| <= 20
    ensures r.Failure? ==> r.error == NullPointer
    ensures r.Success? ==> StartsWith(r.value, IdBody(prefix, date, serial))
  {
    var src := IdBody(prefix, date, serial);
    if |src| > 20 then Failure(NullPointer) else Success(src + CheckSuffix(src))
  }

  /** A 17-digit body made of a six-digit prefix, an eight-digit date and
      a three-digit sequence, completed by its check character. */
  lemma CompletedBody(prefix: string, d: string, q: string)
    requires |prefix| == 6 && |d| == 8 && |q| == 3
    requires AllDigits(prefix) && AllDigits(d) && AllDigits(q)
    ensures var src := prefix + d + q; var r := src + CheckSuffix(src);
      && |r| == 18 && r[..6] == prefix && r[6..14] == d && r[14..17] == q
      && r[6..10] == d[..4] && r[10..12] == d[4..6] && r[12..14] == d[6..]
      && Gb11643Valid(r) && [r[17]] == CheckSuffix(r[..17])
  {
    var src := prefix + d + q;
    assert forall i :: 0 <= i < 6 ==> src[i] == prefix[i];
    assert forall i :: 6 <= i < 14 ==> src[i] == d[i - 6];
    assert forall i :: 14 <= i < 17 ==> src[i] == q[i - 14];
    CheckSuffixCompletes(src, '0');
    var r := src + CheckSuffix(src);
    assert r[..17] == src;
    assert r[..6] == prefix;
    assert r[6..14] == d;
    assert r[14..17] == q;
  }

  /** The last steps of `randomIdCard`: the 17-character body, its
      weighted sum, and the check character appended. */
  method ComposeNumber(prefix: string, date: int, serial: nat) returns (r: Result<string>)
    ensures r == ComposeIdCard(prefix, date, serial)
  {
    var src := prefix + FormatYyyyMMdd(date) + ZeroPad(serial, 3);
    assert src == IdBody(prefix, date, serial);
    var sum := ChecksumOf(src);
    if sum.None? {
      return Failure(NullPointer);
    }
    var checkNum := CheckNumber(JavaRem(sum.value, 11));
    r := Success(src + (if checkNum.Some? then [checkNum.value] else "null"));
    ComposeFromChecksum(prefix, date, serial, src);
  }

  /** The number is the body followed by the character the table gives
      for its weighted sum modulo 11, or by "null" when there is none. */
  lemma ComposeFromChecksum(prefix: string, date: int, serial: nat, src: string)
    requires src == IdBody(prefix, date, serial) && |src| <= 20
    ensures var checkNum := CheckNumber(JavaRem(IdSum(src), 11));
      ComposeIdCard(prefix, date, serial) == Success(src + (if checkNum.Some? then [checkNum.value] else "null"))
  {
  }

  /** The GB 11643-1999 fields of an 18-character number: the region
      prefix, the birth date as `yyyyMMdd` reading back as the year, month
      and day, the three-digit sequence, and a last character that the
      check computation reproduces from the first 17. */
  predicate IdCardFields(card: string, prefix: string, date: int, serial: int) {
    && |card| == 18 && card[..6] == prefix && card[6..14] == FormatYyyyMMdd(date)
    && AllDigits(card[6..10]) && DecimalValue(card[6..10]) == CivilOf(date).year
    && AllDigits(card[10..12]) && DecimalValue(card[10..12]) == CivilOf(date).month
    && AllDigits(card[12..14]) && DecimalValue(card[12..14]) == CivilOf(date).day
    && AllDigits(card[14..17]) && DecimalValue(card[14..17]) == serial
    && [card[17]] == CheckSuffix(card[..17])
  }

  /** With a six-digit prefix and a four-digit year the number has the
      GB 11643-1999 layout and a valid check character. */
  lemma IdCardLayout(prefix: string, date: int, serial: int)
    requires |prefix| == 6 && AllDigits(prefix)
    requires 1 <= CivilOf(date).year <= 9999
    requires 0 <= serial <= 999
    ensures var r := ComposeIdCard(prefix, date, serial);
      r.Success? && IdCardFields(r.value, prefix, date, serial) && Gb11643Valid(r.value)
  {
    var c := CivilOf(date);
    var d := FormatYyyyMMdd(date);
    var q := ZeroPad(serial, 3);
    assert |d| == 8 && AllDigits(d) && DecimalValue(d[..4]) == c.year
      && DecimalValue(d[4..6]) == c.month && DecimalValue(d[6..]) == c.day by {
      FormatYyyyMMddFields(date);
    }
    assert |q| == 3 && AllDigits(q) && DecimalValue(q) == serial by {
      SequenceField(serial);
    }
    CompletedBody(prefix, d, q);
    assert ComposeIdCard(prefix, date, serial) == Success(prefix + d + q + CheckSuffix(prefix + d + q));
  }

  /** The sequence field tells the gender: odd for a male, even for a
      female. */
  lemma IdCardGender(prefix: string, date: int, gender: Gender, draw: int)
    requires |prefix| == 6 && AllDigits(prefix)
    requires 1 <= CivilOf(date).year <= 9999
    requires 1 <= draw < 1000
    ensures var r := ComposeIdCard(prefix, date, SequenceFor(gender, draw));
      r.Success? && |r.value| == 18 && (DecimalValue(r.value[14..17]) % 2 == 1 <==> gender == Male)
  {
    var serial := SequenceFor(gender, draw);
    var r := ComposeIdCard(prefix, date, serial);
    assert r.Success? && IdCardFields(r.value, prefix, date, serial) by {
      IdCardLayout(prefix, date, serial);
    }
    assert serial % 2 == 1 <==> gender == Male;
  }

  // ----------------------------------------------------- region table

  /** Every non-empty line has at least three comma-separated fields. */
  predicate WellFormedLines(lines: seq<string>) {
    forall i :: 0 <= i < |lines| && lines[i] != "" ==> |Split(lines[i], ',')| >= 3
  }

  /** The constructor's first loop over the lines of `id-prefix.csv`:
      empty lines are skipped, other lines split on ','; a line with fewer
      than three fields makes `row.get` throw. */
  function ParseLines(lines: seq<string>): (r: Result<seq<IdPrefix>>)
    ensures r.Success? <==> WellFormedLines(lines)
    ensures r.Failure? ==> r.error == IndexOutOfBounds
    ensures r.Success? ==> |r.value| <= |lines|
  {
    if lines == [] then Success([])
    else
      var init := ParseLines(lines[..|lines| - 1]);
      var last := lines[|lines| - 1];
      assert forall i :: 0 <= i < |lines| - 1 ==> lines[..|lines| - 1][i] == lines[i];
      if init.Failure? then Failure(IndexOutOfBounds)
      else if last == "" then init
      else
        var row := Split(last, ',');
        if |row| < 3 then Failure(IndexOutOfBounds)
        else Success(init.value + [IdPrefix(row[0], row[1], row[2])])
  }

  /** Lines are parsed one at a time: the rows of two blocks of lines are
      the rows of each, in order. */
  lemma {:induction false} ParseLinesAppend(a: seq<string>, b: seq<string>)
    requires WellFormedLines(a) && WellFormedLines(b)
    ensures ParseLines(a + b) == Success(ParseLines(a).value + ParseLines(b).value)
    decreases |b|
  {
    assert WellFormedLines(a + b) by {
      assert forall i :: 0 <= i < |a + b| ==> (a + b)[i] == if i < |a| then a[i] else b[i - |a|];
    }
    if b == [] {
      assert a + b == a;
      assert ParseLines(a).value + [] == ParseLines(a).value;
    } else {
      var b' := b[..|b| - 1];
      assert (a + b)[..|a + b| - 1] == a + b';
      assert WellFormedLines(b') by {
        assert forall i :: 0 <= i < |b'| ==> b'[i] == b[i];
      }
      ParseLinesAppend(a, b');
      var last := b[|b| - 1];
      assert (a + b)[|a + b| - 1] == last;
      assert b[..|b| - 1] == b';
      if last != "" {
        var row := Split(last, ',');
        assert ParseLines(a).value + ParseLines(b').value + [IdPrefix(row[0], row[1], row[2])]
          == ParseLines(a).value + (ParseLines(b').value + [IdPrefix(row[0], row[1], row[2])]);
      }
    }
  }

  /** The rows whose parent is "0": the province roots, in load order. */
  function ProvinceRoots(rows: seq<IdPrefix>): (p: seq<IdPrefix>)
    ensures forall x :: x in p <==> x in rows && x.parent == "0"
  {
    if rows == [] then []
    else
      var last := rows[|rows| - 1];
      assert rows == rows[..|rows| - 1] + [last];
      ProvinceRoots(rows[..|rows| - 1]) + (if last.parent == "0" then [last] else [])
  }

  /** The prefixes, in load order, that start with `short`. */
  function PrefixesWith(rows: seq<IdPrefix>, short: string): (s: seq<string>)
    ensures forall x :: x in s ==> StartsWith(x, short)
  {
    if rows == [] then []
    else
      var last := rows[|rows| - 1];
      PrefixesWith(rows[..|rows| - 1], short) + (if StartsWith(last.prefix, short) then [last.prefix] else [])
  }

  /** A prefix is listed exactly when some row carries it and it starts
      with `short`. */
  lemma {:induction false} PrefixesWithMembers(rows: seq<IdPrefix>, short: string, x: string)
    ensures x in PrefixesWith(rows, short) <==>
      StartsWith(x, short) && exists i :: 0 <= i < |rows| && rows[i].prefix == x
  {
    if rows != [] {
      var init := rows[..|rows| - 1];
      PrefixesWithMembers(init, short, x);
      assert forall i :: 0 <= i < |init| ==> init[i] == rows[i];
      if StartsWith(x, short) && (exists i :: 0 <= i < |rows| && rows[i].prefix == x) {
        var i :| 0 <= i < |rows| && rows[i].prefix == x;
        if i < |init| {
          assert init[i].prefix == x;
        }
      }
    }
  }

  /** `findIdPrefixByProvince(provinceNode)`: `null` for a missing node or
      an empty prefix; otherwise the prefixes sharing the node's first two
      characters, where `substring(0, 2)` throws on a one-character prefix
      as soon as there is a row to compare. */
  function FindIdPrefix(rows: seq<IdPrefix>, node: Option<IdPrefix>): (r: Result<Option<seq<string>>>)
    ensures node.None? || node.value.prefix == "" ==> r == Success(None)
    ensures r.Failure? <==> node.Some? && |node.value.prefix| == 1 && rows != []
    ensures r.Failure? ==> r.error == IndexOutOfBounds
    ensures r.Success? && r.value.Some? && |node.value.prefix| >= 2 ==>
      r.value.value == PrefixesWith(rows, node.value.prefix[..2])
  {
    if node.None? || node.value.prefix == "" then Success(None)
    else if rows == [] then Success(Some([]))
    else if |node.value.prefix| < 2 then Failure(IndexOutOfBounds)
    else Success(Some(PrefixesWith(rows, node.value.prefix[..2])))
  }

  /** A root is listed under itself. */
  lemma RootListsItself(rows: seq<IdPrefix>, i: int)
    requires 0 <= i < |rows| && |rows[i].prefix| >= 2
    ensures rows[i].prefix in PrefixesWith(rows, rows[i].prefix[..2])
  {
    PrefixesWithMembers(rows, rows[i].prefix[..2], rows[i].prefix);
  }

  /** The constructor's last loop: `provinceIdPrefixMap.put(location,
      findIdPrefixByProvince(root))` for each root in turn, a later root
      with the same location replacing the earlier entry. */
  function BuildIndex(rows: seq<IdPrefix>, roots: seq<IdPrefix>): (r: Result<map<string, Option<seq<string>>>>)
    ensures r.Success? <==> forall i :: 0 <= i < |roots| ==> FindIdPrefix(rows, Some(roots[i])).Success?
    ensures r.Success? ==> forall loc :: loc in r.value <==> exists i :: 0 <= i < |roots| && roots[i].location == loc
  {
    if roots == [] then Success(map[])
    else
      var init := roots[..|roots| - 1];
      var last := roots[|roots| - 1];
      assert forall i :: 0 <= i < |init| ==> init[i] == roots[i];
      var m := BuildIndex(rows, init);
      if m.Failure? then Failure(m.error)
      else
        var v := FindIdPrefix(rows, Some(last));
        if v.Failure? then Failure(v.error)
        else Success(m.value[last.location := v.value])
  }

  /** `provinceIdPrefixMap` as the constructor builds it. */
  function ProvinceIndex(rows: seq<IdPrefix>): Result<map<string, Option<seq<string>>>> {
    BuildIndex(rows, ProvinceRoots(rows))
  }

  /** No root has a one-character prefix. */
  predicate NoShortRoot(rows: seq<IdPrefix>) {
    forall i :: 0 <= i < |rows| && rows[i].parent == "0" ==> |rows[i].prefix| != 1
  }

  /** Building the index throws exactly when a root has a one-character
      prefix, and its keys are exactly the roots' locations. */
  lemma ProvinceIndexShape(rows: seq<IdPrefix>, loc: string)
    ensures ProvinceIndex(rows).Success? <==> NoShortRoot(rows)
    ensures ProvinceIndex(rows).Success? ==>
      (loc in ProvinceIndex(rows).value <==> exists i :: 0 <= i < |rows| && rows[i].parent == "0" && rows[i].location == loc)
  {
    var roots := ProvinceRoots(rows);
    if ProvinceIndex(rows).Success? {
      forall i | 0 <= i < |rows| && rows[i].parent == "0"
        ensures |rows[i].prefix| != 1
      {
        assert rows[i] in roots;
        var j :| 0 <= j < |roots| && roots[j] == rows[i];
        assert FindIdPrefix(rows, Some(roots[j])).Success?;
      }
      if exists i :: 0 <= i < |rows| && rows[i].parent == "0" && rows[i].location == loc {
        var i :| 0 <= i < |rows| && rows[i].parent == "0" && rows[i].location == loc;
        assert rows[i] in roots;
        var j :| 0 <= j < |roots| && roots[j] == rows[i];
        assert roots[j].location == loc;
      }
      if loc in ProvinceIndex(rows).value {
        var j :| 0 <= j < |roots| && roots[j].location == loc;
        assert roots[j] in rows;
        var i :| 0 <= i < |rows| && rows[i] == roots[j];
        assert rows[i].parent == "0" && rows[i].location == loc;
      }
    } else {
      var j :| 0 <= j < |roots| && FindIdPrefix(rows, Some(roots[j])).Failure?;
      assert roots[j] in rows;
      var i :| 0 <= i < |rows| && rows[i] == roots[j];
      assert rows[i].parent == "0" && |rows[i].prefix| == 1;
    }
  }

  lemma {:induction false} BuildIndexValue(rows: seq<IdPrefix>, roots: seq<IdPrefix>, loc: string)
    requires BuildIndex(rows, roots).Success? && loc in BuildIndex(rows, roots).value
    ensures exists j :: (0 <= j < |roots| && roots[j].location == loc
      && BuildIndex(rows, roots).value[loc] == FindIdPrefix(rows, Some(roots[j])).value)
    decreases |roots|
  {
    var init := roots[..|roots| - 1];
    var last := roots[|roots| - 1];
    if last.location != loc {
      BuildIndexValue(rows, init, loc);
      var j :| 0 <= j < |init| && init[j].location == loc
        && BuildIndex(rows, init).value[loc] == FindIdPrefix(rows, Some(init[j])).value;
      assert roots[j] == init[j];
    } else {
      assert roots[|roots| - 1].location == loc;
    }
  }

  /** Each entry of the index is the list of some root with that
      location: every loaded prefix sharing the root's first two
      characters, in load order, the root's own prefix among them; `null`
      when the root's prefix is empty. */
  lemma ProvinceIndexEntry(rows: seq<IdPrefix>, loc: string)
    requires ProvinceIndex(rows).Success? && loc in ProvinceIndex(rows).value
    ensures exists i :: (0 <= i < |rows| && rows[i].parent == "0" && rows[i].location == loc
      && ProvinceIndex(rows).value[loc] == FindIdPrefix(rows, Some(rows[i])).value
      && (rows[i].prefix == "" <==> ProvinceIndex(rows).value[loc].None?)
      && (|rows[i].prefix| >= 2 ==>
            ProvinceIndex(rows).value[loc] == Some(PrefixesWith(rows, rows[i].prefix[..2]))
            && rows[i].prefix in PrefixesWith(rows, rows[i].prefix[..2])))
  {
    var roots := ProvinceRoots(rows);
    BuildIndexValue(rows, roots, loc);
    var j :| 0 <= j < |roots| && roots[j].location == loc
      && BuildIndex(rows, roots).value[loc] == FindIdPrefix(rows, Some(roots[j])).value;
    assert roots[j] in rows;
    var i :| 0 <= i < |rows| && rows[i] == roots[j];
    ProvinceIndexShape(rows, loc);
    if |rows[i].prefix| >= 2 {
      RootListsItself(rows, i);
    }
  }

  // ---------------------------------------------------- choosing a prefix

  /** `provinceIdPrefixMap.get(province)` when the name is non-empty and
      the stored list is present and non-empty; otherwise no list. */
  function ProvincePrefixes(index: map<string, Option<seq<string>>>, province: Option<string>): (l: seq<string>)
    ensures l != [] ==> province.Some? && province.value in index && index[province.value] == Some(l)
  {
    if province.Some? && province.value != "" && province.value in index && index[province.value].Some?
    then index[province.value].value else []
  }

  /** The ranges of the two element draws `randomIdCard` makes. */
  predicate PrefixDraws(rows: seq<IdPrefix>, index: map<string, Option<seq<string>>>, province: Option<string>,
                        listDraw: int, tableDraw: int) {
    var l := ProvincePrefixes(index, province);
    (l != [] ==> 0 <= listDraw < |l|) && (rows != [] ==> 0 <= tableDraw < |rows|)
  }

  /** The prefix `randomIdCard` settles on: an element of the province's
      list, or, when that gives nothing or an empty text, the prefix of a
      row of the whole table, or "" for an empty table. */
  function ChosenPrefix(rows: seq<IdPrefix>, index: map<string, Option<seq<string>>>, province: Option<string>,
                        listDraw: int, tableDraw: int): (p: string)
    requires PrefixDraws(rows, index, province, listDraw, tableDraw)
    ensures p in ProvincePrefixes(index, province) || (exists i :: 0 <= i < |rows| && rows[i].prefix == p)
      || (rows == [] && p == "")
    ensures var l := ProvincePrefixes(index, province); l != [] && l[listDraw] != "" ==> p == l[listDraw]
  {
    var l := ProvincePrefixes(index, province);
    var fromList := if l != [] then l[listDraw] else "";
    if fromList != "" then fromList
    else if rows == [] then ""
    else rows[tableDraw].prefix
  }

  /** Naming a province whose list is non-empty yields a loaded prefix
      that shares its first two characters with that province's root. */
  lemma ChosenPrefixInProvince(rows: seq<IdPrefix>, loc: string, listDraw: int, tableDraw: int)
    requires ProvinceIndex(rows).Success?
    requires PrefixDraws(rows, ProvinceIndex(rows).value, Some(loc), listDraw, tableDraw)
    requires ProvincePrefixes(ProvinceIndex(rows).value, Some(loc)) != []
    ensures var p := ChosenPrefix(rows, ProvinceIndex(rows).value, Some(loc), listDraw, tableDraw);
      && (exists i :: 0 <= i < |rows| && rows[i].parent == "0" && rows[i].location == loc
            && |rows[i].prefix| >= 2 && StartsWith(p, rows[i].prefix[..2]))
      && (exists j :: 0 <= j < |rows| && rows[j].prefix == p)
  {
    var index := ProvinceIndex(rows).value;
    var l := ProvincePrefixes(index, Some(loc));
    ProvinceIndexEntry(rows, loc);
    ProvinceIndexShape(rows, loc);
    var i :| 0 <= i < |rows| && rows[i].parent == "0" && rows[i].location == loc
      && index[loc] == FindIdPrefix(rows, Some(rows[i])).value
      && (rows[i].prefix == "" <==> index[loc].None?)
      && (|rows[i].prefix| >= 2 ==> index[loc] == Some(PrefixesWith(rows, rows[i].prefix[..2])));
    assert |rows[i].prefix| >= 2;
    var short := rows[i].prefix[..2];
    assert l == PrefixesWith(rows, short);
    var p := l[listDraw];
    assert p in PrefixesWith(rows, short);
    assert StartsWith(p, short);
    assert ChosenPrefix(rows, index, Some(loc), listDraw, tableDraw) == p;
    PrefixesWithMembers(rows, short, p);
  }

  // ------------------------------------------------------ randomIdCard

  /** The ranges of every draw `randomIdCard` makes. */
  predicate IdCardDraws(rows: seq<IdPrefix>, index: map<string, Option<seq<string>>>, province: Option<string>,
                        beginDate: Option<int>, endDate: Option<int>,
                        listDraw: int, tableDraw: int, dateOffset: int, seqDraw: int) {
    && PrefixDraws(rows, index, province, listDraw, tableDraw)
    && (beginDate.Some? && endDate.Some? && beginDate.value < endDate.value ==>
          0 <= dateOffset <= endDate.value - beginDate.value)
    && 1 <= seqDraw < 1000
  }

  /** `randomIdCard(province, beginDate, endDate, gender)`: a missing date
      or a range that is not increasing is refused; otherwise the chosen
      prefix, the drawn birth date and the sequence are composed. */
  function IdCardOf(rows: seq<IdPrefix>, index: map<string, Option<seq<string>>>, province: Option<string>,
                    beginDate: Option<int>, endDate: Option<int>, gender: Gender,
                    listDraw: int, tableDraw: int, dateOffset: int, seqDraw: int): (r: Result<string>)
    requires IdCardDraws(rows, index, province, beginDate, endDate, listDraw, tableDraw, dateOffset, seqDraw)
    ensures (r.Failure? && r.error == IllegalArgument) <==>
      beginDate.None? || endDate.None? || beginDate.value >= endDate.value
    ensures r.Failure? ==> r.error == IllegalArgument || r.error == NullPointer
  {
    if beginDate.None? || endDate.None? then Failure(IllegalArgument)
    else
      var date := DT.RandomLocalDateBetween(beginDate, endDate, dateOffset);
      if date.Failure? then Failure(date.error)
      else ComposeIdCard(ChosenPrefix(rows, index, province, listDraw, tableDraw), date.value, SequenceFor(gender, seqDraw))
  }

  /** With a six-digit prefix and a range inside the years 1..9999 the
      number is a valid GB 11643-1999 identity number: it carries the
      prefix, a birth date inside the range, a sequence whose parity is
      the gender, and a correct check character. */
  lemma IdCardOfValid(rows: seq<IdPrefix>, index: map<string, Option<seq<string>>>, province: Option<string>,
                      b: int, e: int, gender: Gender,
                      listDraw: int, tableDraw: int, dateOffset: int, seqDraw: int)
    requires IdCardDraws(rows, index, province, Some(b), Some(e), listDraw, tableDraw, dateOffset, seqDraw)
    requires b < e && 1 <= CivilOf(b).year && CivilOf(e).year <= 9999
    requires var p := ChosenPrefix(rows, index, province, listDraw, tableDraw); |p| == 6 && AllDigits(p)
    ensures var r := IdCardOf(rows, index, province, Some(b), Some(e), gender, listDraw, tableDraw, dateOffset, seqDraw);
      var d := DT.RandomLocalDateBetween(Some(b), Some(e), dateOffset).value;
      var serial := SequenceFor(gender, seqDraw);
      && r.Success? && Gb11643Valid(r.value) && b <= d <= e
      && IdCardFields(r.value, ChosenPrefix(rows, index, province, listDraw, tableDraw), d, serial)
      && (serial % 2 == 1 <==> gender == Male)
  {
    var date := DT.RandomLocalDateBetween(Some(b), Some(e), dateOffset);
    assert date.Success?;
    var p := ChosenPrefix(rows, index, province, listDraw, tableDraw);
    var d := date.value;
    YearOfDayMonotone(b, d);
    YearOfDayMonotone(d, e);
    var serial := SequenceFor(gender, seqDraw);
    var r := ComposeIdCard(p, d, serial);
    assert r.Success? && IdCardFields(r.value, p, d, serial) && Gb11643Valid(r.value) by {
      IdCardLayout(p, d, serial);
    }
    assert IdCardOf(rows, index, province, Some(b), Some(e), gender, listDraw, tableDraw, dateOffset, seqDraw) == r;
  }

  // --------------------------------------------------------- age forms

  const MinYear: int := -999999999
  const MaxYear: int := 999999999

  /** `LocalDate.of(beginYear, 1, 1)` and `LocalDate.of(endYear, 12, 31)`:
      a year outside the supported range throws. */
  function YearSpan(beginYear: int, endYear: int): (r: Result<(int, int)>)
    ensures r.Success? <==> MinYear <= beginYear <= MaxYear && MinYear <= endYear <= MaxYear
    ensures r.Failure? ==> r.error == DateTime
    ensures r.Success? ==> r.value == (FirstDayOfYear(beginYear), LastDayOfYear(endYear))
    ensures r.Success? ==> DT.InDateRange(r.value.0) && DT.InDateRange(r.value.1)
    ensures r.Success? ==> (beginYear <= endYear <==> r.value.0 < r.value.1)
  {
    if !(MinYear <= beginYear <= MaxYear && MinYear <= endYear <= MaxYear) then Failure(DateTime)
    else
      DT.CivilWithinLimits(Civil(beginYear, 1, 1));
      DT.CivilWithinLimits(Civil(endYear, 12, 31));
      YearSpanOrdered(beginYear, endYear);
      Success((FirstDayOfYear(beginYear), LastDayOfYear(endYear)))
  }

  /** The span runs from January 1 of the first year to December 31 of
      the last. */
  lemma YearSpanDays(beginYear: int, endYear: int)
    ensures CivilOf(FirstDayOfYear(beginYear)) == Civil(beginYear, 1, 1)
    ensures CivilOf(LastDayOfYear(endYear)) == Civil(endYear, 12, 31)
  {
    CivilOfEpochDay(Civil(beginYear, 1, 1));
    CivilOfEpochDay(Civil(endYear, 12, 31));
  }

  /** January 1 of a year comes before December 31 of the same or a
      later year, and after December 31 of any earlier year. */
  lemma YearSpanOrdered(beginYear: int, endYear: int)
    ensures beginYear <= endYear <==> FirstDayOfYear(beginYear) < LastDayOfYear(endYear)
  {
    if beginYear > endYear {
      YearOfDay(FirstDayOfYear(beginYear), beginYear);
      YearOfDay(LastDayOfYear(endYear), endYear);
      if FirstDayOfYear(beginYear) <= LastDayOfYear(endYear) {
        YearOfDayMonotone(FirstDayOfYear(beginYear), LastDayOfYear(endYear));
      }
    }
    if beginYear <= endYear {
      YearOfDay(FirstDayOfYear(beginYear), beginYear);
      YearOfDay(LastDayOfYear(endYear), endYear);
      if beginYear < endYear {
        YearOfDay(FirstDayOfYear(beginYear), endYear);
        if FirstDayOfYear(beginYear) >= LastDayOfYear(endYear) {
          YearOfDayMonotone(LastDayOfYear(endYear), FirstDayOfYear(beginYear));
        }
      }
    }
  }

  /** The identity number for birth years `beginYear`..`endYear`, the
      last step of every age form. */
  function IdCardForYears(rows: seq<IdPrefix>, index: map<string, Option<seq<string>>>, province: Option<string>,
                          beginYear: int, endYear: int, gender: Gender,
                          listDraw: int, tableDraw: int, dateOffset: int, seqDraw: int): (r: Result<string>)
    requires var span := YearSpan(beginYear, endYear);
      span.Success? ==> IdCardDraws(rows, index, province, Some(span.value.0), Some(span.value.1),
                                    listDraw, tableDraw, dateOffset, seqDraw)
    ensures (r.Failure? && r.error == DateTime) <==> YearSpan(beginYear, endYear).Failure?
    ensures (r.Failure? && r.error == IllegalArgument) <==> YearSpan(beginYear, endYear).Success? && beginYear > endYear
  {
    var span := YearSpan(beginYear, endYear);
    if span.Failure? then Failure(span.error)
    else
      YearSpanOrdered(beginYear, endYear);
      IdCardOf(rows, index, province, Some(span.value.0), Some(span.value.1), gender, listDraw, tableDraw, dateOffset, seqDraw)
  }

  /** Birth years inside 1..9999 and a six-digit prefix give a valid
      number whose birth year lies between the two years. */
  lemma IdCardForYearsValid(rows: seq<IdPrefix>, index: map<string, Option<seq<string>>>, province: Option<string>,
                            beginYear: int, endYear: int, gender: Gender,
                            listDraw: int, tableDraw: int, dateOffset: int, seqDraw: int)
    requires 1 <= beginYear <= endYear <= 9999
    requires IdCardDraws(rows, index, province, Some(FirstDayOfYear(beginYear)), Some(LastDayOfYear(endYear)),
                         listDraw, tableDraw, dateOffset, seqDraw)
    requires var p := ChosenPrefix(rows, index, province, listDraw, tableDraw); |p| == 6 && AllDigits(p)
    ensures var r := IdCardForYears(rows, index, province, beginYear, endYear, gender, listDraw, tableDraw, dateOffset, seqDraw);
      var d := DT.RandomLocalDateBetween(Some(FirstDayOfYear(beginYear)), Some(LastDayOfYear(endYear)), dateOffset).value;
      && r.Success? && |r.value| == 18 && Gb11643Valid(r.value)
      && r.value[6..14] == FormatYyyyMMdd(d) && beginYear <= CivilOf(d).year <= endYear
      && (DecimalValue(r.value[14..17]) % 2 == 1 <==> gender == Male)
  {
    var span := YearSpan(beginYear, endYear);
    var b, e := span.value.0, span.value.1;
    YearSpanDays(beginYear, endYear);
    IdCardOfValid(rows, index, province, b, e, gender, listDraw, tableDraw, dateOffset, seqDraw);
    var d := DT.RandomLocalDateBetween(Some(b), Some(e), dateOffset).value;
    YearOfDayMonotone(b, d);
    YearOfDayMonotone(d, e);
  }

  /** `today.getYear() - age` is computed in `int` arithmetic, but any
      difference that wraps lands outside the supported years, so the
      wrap-around only ever turns into the same exception. */
  lemma AgeWrapHarmless(currentYear: int, age: int)
    requires MinYear <= currentYear <= MaxYear && DT.IsInt32(age)
    ensures MinYear <= currentYear - age <= MaxYear ==> DT.WrapInt32(currentYear - age) == currentYear - age
    ensures !(MinYear <= currentYear - age <= MaxYear) ==> !(MinYear <= DT.WrapInt32(currentYear - age) <= MaxYear)
  {
    var x := currentYear - age;
    if !DT.IsInt32(x) {
      var w := DT.WrapInt32(x);
      assert w == x - 0x1_0000_0000 || w == x + 0x1_0000_0000;
    }
  }

  /** The span of the wrapped birth years is the span of the exact ones:
      either both years are in range and nothing wrapped, or both spans
      fail in the same way. */
  lemma AgeYearSpan(currentYear: int, olderAge: int, youngerAge: int)
    requires MinYear <= currentYear <= MaxYear && DT.IsInt32(olderAge) && DT.IsInt32(youngerAge)
    ensures YearSpan(DT.WrapInt32(currentYear - olderAge), DT.WrapInt32(currentYear - youngerAge))
      == YearSpan(currentYear - olderAge, currentYear - youngerAge)
  {
    AgeWrapHarmless(currentYear, olderAge);
    AgeWrapHarmless(currentYear, youngerAge);
  }

  // ---------------------------------------------------------- the class

  /** One more line of the region table adds at most one row. */
  lemma ParseLinesStep(lines: seq<string>, i: int)
    requires WellFormedLines(lines) && 0 <= i < |lines|
    ensures ParseLines(lines[..i]).Success?
    ensures ParseLines(lines[..i + 1]) == if lines[i] == "" then ParseLines(lines[..i])
      else var row := Split(lines[i], ',');
        Success(ParseLines(lines[..i]).value + [IdPrefix(row[0], row[1], row[2])])
  {
    assert lines[..i + 1][..i] == lines[..i];
    assert WellFormedLines(lines[..i]) by {
      assert forall k :: 0 <= k < i ==> lines[..i][k] == lines[k];
    }
  }

  /** One more row adds itself to the roots when its parent is "0". */
  lemma ProvinceRootsStep(rows: seq<IdPrefix>, i: int)
    requires 0 <= i < |rows|
    ensures ProvinceRoots(rows[..i + 1]) == ProvinceRoots(rows[..i]) + (if rows[i].parent == "0" then [rows[i]] else [])
  {
    assert rows[..i + 1][..i] == rows[..i];
  }

  /** One more root of a table without short roots adds its entry. */
  lemma BuildIndexStep(rows: seq<IdPrefix>, roots: seq<IdPrefix>, j: int)
    requires 0 <= j < |roots| && roots[j] in rows && roots[j].parent == "0" && NoShortRoot(rows)
    requires BuildIndex(rows, roots[..j]).Success?
    ensures FindIdPrefix(rows, Some(roots[j])).Success?
    ensures BuildIndex(rows, roots[..j + 1])
      == Success(BuildIndex(rows, roots[..j]).value[roots[j].location := FindIdPrefix(rows, Some(roots[j])).value])
  {
    assert roots[..j + 1][..j] == roots[..j];
    var k :| 0 <= k < |rows| && rows[k] == roots[j];
    assert |rows[k].prefix| != 1;
  }

  /** The loaded region table and the province index built from it. */
  class PersonInfoSource {
    var idPrefixList: seq<IdPrefix>
    var provinceIdPrefixMap: map<string, Option<seq<string>>>

    /** The part of the constructor that reads `id-prefix.csv`, given its
        lines: parse every row, collect the province roots, and map each
        root's location to its prefix list. */
    constructor (lines: seq<string>)
      requires WellFormedLines(lines) && NoShortRoot(ParseLines(lines).value)
      ensures Success(idPrefixList) == ParseLines(lines)
      ensures Success(provinceIdPrefixMap) == ProvinceIndex(idPrefixList)
    {
      idPrefixList := [];
      provinceIdPrefixMap := map[];
      new;
      for i := 0 to |lines|
        invariant Success(idPrefixList) == ParseLines(lines[..i])
        invariant provinceIdPrefixMap == map[]
      {
        ParseLinesStep(lines, i);
        if lines[i] != "" {
          var row := Split(lines[i], ',');
          idPrefixList := idPrefixList + [IdPrefix(row[0], row[1], row[2])];
        }
      }
      assert lines[..|lines|] == lines;
      var provinceSet: seq<IdPrefix> := [];
      var rows := idPrefixList;
      for i := 0 to |rows|
        invariant provinceSet == ProvinceRoots(rows[..i])
        invariant idPrefixList == rows && provinceIdPrefixMap == map[]
      {
        ProvinceRootsStep(rows, i);
        if rows[i].parent == "0" {
          provinceSet := provinceSet + [rows[i]];
        }
      }
      assert rows[..|rows|] == rows;
      assert provinceSet[..0] == [];
      for j := 0 to |provinceSet|
        invariant Success(provinceIdPrefixMap) == BuildIndex(rows, provinceSet[..j])
        invariant idPrefixList == rows
      {
        var p := provinceSet[j];
        assert p in provinceSet;
        BuildIndexStep(rows, provinceSet, j);
        var v := FindIdPrefixByProvince(Some(p));
        provinceIdPrefixMap := provinceIdPrefixMap[p.location := v.value];
      }
      assert provinceSet[..|provinceSet|] == provinceSet;
    }

    /** `findIdPrefixByProvince(provinceNode)`. */
    method FindIdPrefixByProvince(node: Option<IdPrefix>) returns (r: Result<Option<seq<string>>>)
      ensures r == FindIdPrefix(idPrefixList, node)
    {
      if node.None? || node.value.prefix == "" {
        return Success(None);
      }
      var resultList: seq<string> := [];
      assert idPrefixList[..0] == [];
      for i := 0 to |idPrefixList|
        invariant i > 0 ==> |node.value.prefix| >= 2
        invariant i == 0 ==> resultList == []
        invariant |node.value.prefix| >= 2 ==> resultList == PrefixesWith(idPrefixList[..i], node.value.prefix[..2])
      {
        if |node.value.prefix| < 2 {
          return Failure(IndexOutOfBounds);
        }
        var shortPrefix := node.value.prefix[..2];
        assert idPrefixList[..i + 1][..i] == idPrefixList[..i];
        if StartsWith(idPrefixList[i].prefix, shortPrefix) {
          resultList := resultList + [idPrefixList[i].prefix];
        }
      }
      assert idPrefixList[..|idPrefixList|] == idPrefixList;
      return Success(Some(resultList));
    }

    /** `randomIdCard(province, beginDate, endDate, gender)`, with the
        checksum loop of the source. */
    method RandomIdCard(province: Option<string>, beginDate: Option<int>, endDate: Option<int>, gender: Gender,
                        listDraw: int, tableDraw: int, dateOffset: int, seqDraw: int) returns (r: Result<string>)
      requires IdCardDraws(idPrefixList, provinceIdPrefixMap, province, beginDate, endDate,
                           listDraw, tableDraw, dateOffset, seqDraw)
      ensures r == IdCardOf(idPrefixList, provinceIdPrefixMap, province, beginDate, endDate, gender,
                            listDraw, tableDraw, dateOffset, seqDraw)
    {
      if beginDate.None? || endDate.None? {
        return Failure(IllegalArgument);
      }
      var prefix := "";
      if province.Some? && province.value != "" && province.value in provinceIdPrefixMap {
        var prefixList := provinceIdPrefixMap[province.value];
        if prefixList.Some? && prefixList.value != [] {
          prefix := prefixList.value[listDraw];
        }
      }
      if prefix == "" {
        prefix := if idPrefixList == [] then "" else idPrefixList[tableDraw].prefix;
      }
      assert prefix == ChosenPrefix(idPrefixList, provinceIdPrefixMap, province, listDraw, tableDraw);
      var date := DT.RandomLocalDateBetween(beginDate, endDate, dateOffset);
      if date.Failure? {
        return Failure(date.error);
      }
      var serial := SequenceFor(gender, seqDraw);
      assert IdCardOf(idPrefixList, provinceIdPrefixMap, province, beginDate, endDate, gender,
                      listDraw, tableDraw, dateOffset, seqDraw) == ComposeIdCard(prefix, date.value, serial);
      r := ComposeNumber(prefix, date.value, serial);
    }

    /** `randomMaleIdCard(provinceName, age)` and
        `randomFemaleIdCard(provinceName, age)`: born in the year
        `currentYear - age`, computed in `int` arithmetic. */
    method RandomIdCardByAge(province: Option<string>, gender: Gender, currentYear: int, age: int,
                             listDraw: int, tableDraw: int, dateOffset: int, seqDraw: int) returns (r: Result<string>)
      requires MinYear <= currentYear <= MaxYear && DT.IsInt32(age)
      requires var span := YearSpan(currentYear - age, currentYear - age);
        span.Success? ==> IdCardDraws(idPrefixList, provinceIdPrefixMap, province, Some(span.value.0), Some(span.value.1),
                                      listDraw, tableDraw, dateOffset, seqDraw)
      ensures r == IdCardForYears(idPrefixList, provinceIdPrefixMap, province, currentYear - age, currentYear - age,
                                  gender, listDraw, tableDraw, dateOffset, seqDraw)
    {
      var year := DT.WrapInt32(currentYear - age);
      AgeYearSpan(currentYear, age, age);
      var span := YearSpan(year, year);
      if span.Failure? {
        return Failure(span.error);
      }
      r := RandomIdCard(province, Some(span.value.0), Some(span.value.1), gender, listDraw, tableDraw, dateOffset, seqDraw);
    }

    /** `randomMaleIdCard(provinceName, minAge, maxAge)` and
        `randomFemaleIdCard(provinceName, minAge, maxAge)`: `minAge` must
        be below `maxAge`; born between the years `currentYear - maxAge`
        and `currentYear - minAge`. */
    method RandomIdCardByAgeRange(province: Option<string>, gender: Gender, currentYear: int, minAge: int, maxAge: int,
                                  listDraw: int, tableDraw: int, dateOffset: int, seqDraw: int) returns (r: Result<string>)
      requires MinYear <= currentYear <= MaxYear && DT.IsInt32(minAge) && DT.IsInt32(maxAge)
      requires var span := YearSpan(currentYear - maxAge, currentYear - minAge);
        minAge < maxAge && span.Success? ==>
          IdCardDraws(idPrefixList, provinceIdPrefixMap, province, Some(span.value.0), Some(span.value.1),
                      listDraw, tableDraw, dateOffset, seqDraw)
      ensures minAge >= maxAge ==> r == Failure(IllegalArgument)
      ensures minAge < maxAge ==>
        r == IdCardForYears(idPrefixList, provinceIdPrefixMap, province, currentYear - maxAge, currentYear - minAge,
                            gender, listDraw, tableDraw, dateOffset, seqDraw)
    {
      if minAge >= maxAge {
        return Failure(IllegalArgument);
      }
      var beginYear := DT.WrapInt32(currentYear - maxAge);
      var endYear := DT.WrapInt32(currentYear - minAge);
      AgeYearSpan(currentYear, maxAge, minAge);
      var span := YearSpan(beginYear, endYear);
      if span.Failure? {
        return Failure(span.error);
      }
      r := RandomIdCard(province, Some(span.value.0), Some(span.value.1), gender, listDraw, tableDraw, dateOffset, seqDraw);
    }
  }

  /** The checksum loop of `randomIdCard`: position `i` (from 1) weighs
      `src.charAt(i - 1) - 48` by the factor for `i` (or `i - 10`); past
      position 20 the factor lookup finds nothing and unboxing it throws. */
  method ChecksumOf(src: string) returns (sum: Option<int>)
    ensures sum.Some? <==> |src| <= 20
    ensures sum.Some? ==> sum.value == IdSum(src)
  {
    var total := 0;
    for i := 1 to |src| + 1
      invariant i <= 21
      invariant total == IdSum(src[..i - 1])
    {
      var x := CharCode(src[i - 1]);
      var factor := if i <= 10 then WeightingFactor(i) else WeightingFactor(i - 10);
      if factor.None? {
        return None;
      }
      IdSumStep(src, i);
      total := total + x * factor.value;
    }
    assert src[..|src|] == src;
    return Some(total);
  }

  /** The constructor together with its failure: a line with fewer than
      three fields, or a province root with a one-character prefix, makes
      loading throw. */
  method Load(lines: seq<string>) returns (r: Result<PersonInfoSource>)
    ensures r.Success? <==> WellFormedLines(lines) && NoShortRoot(ParseLines(lines).value)
    ensures r.Failure? ==> r.error == IndexOutOfBounds
    ensures r.Success? ==> (fresh(r.value) && Success(r.value.idPrefixList) == ParseLines(lines)
      && Success(r.value.provinceIdPrefixMap) == ProvinceIndex(r.value.idPrefixList))
  {
    var rows := ParseLines(lines);
    if rows.Failure? || !NoShortRoot(rows.value) {
      return Failure(IndexOutOfBounds);
    }
    var source := new PersonInfoSource(lines);
    return Success(source);
  }

  // ------------------------------------------------ other generators

  /** The uppercase and lowercase letters `randomStrongPassword` adds in
      pairs: the `i`-th upper draw upper-cased, then the `i`-th lower draw
      lower-cased. */
  function CasePairs(upperDraws: string, lowerDraws: string): (s: string)
    requires |upperDraws| == |lowerDraws|
    requires forall i :: 0 <= i < |upperDraws| ==> IsAsciiLetter(upperDraws[i]) && IsAsciiLetter(lowerDraws[i])
    ensures |s| == 2 * |upperDraws|
  {
    if upperDraws == [] then []
    else
      var n := |upperDraws| - 1;
      CasePairs(upperDraws[..n], lowerDraws[..n]) + [ToUpper(upperDraws[n]), ToLower(lowerDraws[n])]
  }

  /** Neither a letter nor a digit. */
  predicate IsSpecial(c: char) { !IsAlphanumeric(c) }

  /** One more pair of draws adds one upper- and one lower-case letter. */
  lemma CasePairsStep(upperDraws: string, lowerDraws: string, i: int)
    requires |upperDraws| == |lowerDraws| && 0 <= i < |upperDraws|
    requires forall k :: 0 <= k < |upperDraws| ==> IsAsciiLetter(upperDraws[k]) && IsAsciiLetter(lowerDraws[k])
    ensures CasePairs(upperDraws[..i + 1], lowerDraws[..i + 1])
      == CasePairs(upperDraws[..i], lowerDraws[..i]) + [ToUpper(upperDraws[i]), ToLower(lowerDraws[i])]
  {
    assert upperDraws[..i + 1][..i] == upperDraws[..i] && lowerDraws[..i + 1][..i] == lowerDraws[..i];
  }

  /** The pairs hold exactly `|upperDraws|` uppercase and as many
      lowercase letters, and no digit or special character. */
  lemma {:induction false} CasePairsCounts(upperDraws: string, lowerDraws: string)
    requires |upperDraws| == |lowerDraws|
    requires forall i :: 0 <= i < |upperDraws| ==> IsAsciiLetter(upperDraws[i]) && IsAsciiLetter(lowerDraws[i])
    ensures var s := CasePairs(upperDraws, lowerDraws);
      Count(s, IsAsciiUpper) == |upperDraws| && Count(s, IsAsciiLower) == |upperDraws|
      && Count(s, IsDigit) == 0 && Count(s, IsSpecial) == 0
  {
    if upperDraws != [] {
      var n := |upperDraws| - 1;
      var u, l := upperDraws[..n], lowerDraws[..n];
      CasePairsCounts(u, l);
      var pair := [ToUpper(upperDraws[n]), ToLower(lowerDraws[n])];
      CountAppend(CasePairs(u, l), pair, IsAsciiUpper);
      CountAppend(CasePairs(u, l), pair, IsAsciiLower);
      CountAppend(CasePairs(u, l), pair, IsDigit);
      CountAppend(CasePairs(u, l), pair, IsSpecial);
      CountPair(pair[0], pair[1], IsAsciiUpper);
      CountPair(pair[0], pair[1], IsAsciiLower);
      CountPair(pair[0], pair[1], IsDigit);
      CountPair(pair[0], pair[1], IsSpecial);
    }
  }

  /** The password length: at least 8. */
  function PasswordLength(length: int): int { if length < 8 then 8 else length }

  /** The ranges of the draws of `randomStrongPassword(length,
      useSpecialChar)`: a third of the length in letters of each case,
      `b` from `[1, length / 3)` special characters when asked for, and
      digits for the rest. */
  predicate PasswordDraws(length: int, useSpecialChar: bool, upperDraws: string, lowerDraws: string,
                          b: int, specialDraws: string, digitDraws: seq<int>, swaps: seq<int>) {
    var n := PasswordLength(length);
    var third := n / 3;
    && |upperDraws| == third && |lowerDraws| == third
    && (forall i :: 0 <= i < third ==> IsAsciiLetter(upperDraws[i]) && IsAsciiLetter(lowerDraws[i]))
    && (useSpecialChar ==> 1 <= b < third && |specialDraws| == b)
    && (!useSpecialChar ==> specialDraws == [])
    && |digitDraws| == n - 2 * third - |specialDraws|
    && (forall i :: 0 <= i < |digitDraws| ==> 0 <= digitDraws[i] < 10)
    && |swaps| >= n && (forall k :: 1 <= k < n ==> 0 <= swaps[k] <= k)
  }

  /** Letters of both cases and the special characters never fill the
      password: at least one digit is always added. */
  lemma StrongPasswordFill(length: int, b: int)
    ensures var n := PasswordLength(length); var third := n / 3;
      third >= 2 && 2 * third < n && (b < third ==> 2 * third + b < n)
  {
  }

  /** `randomStrongPassword(length, useSpecialChar)`: the letters, the
      special characters and the digits, shuffled. */
  method RandomStrongPassword(length: int, useSpecialChar: bool, upperDraws: string, lowerDraws: string,
                              b: int, specialDraws: string, digitDraws: seq<int>, swaps: seq<int>) returns (r: string)
    requires PasswordDraws(length, useSpecialChar, upperDraws, lowerDraws, b, specialDraws, digitDraws, swaps)
    ensures |r| == PasswordLength(length)
    ensures multiset(r) == multiset(CasePairs(upperDraws, lowerDraws) + specialDraws + DigitString(digitDraws))
    ensures var n := PasswordLength(length);
      Count(r, IsAsciiUpper) >= n / 3 && Count(r, IsAsciiLower) >= n / 3 && Count(r, IsDigit) >= 1
    ensures (forall i :: 0 <= i < |specialDraws| ==> IsSpecial(specialDraws[i])) ==>
      var n := PasswordLength(length);
      && Count(r, IsAsciiUpper) == n / 3 && Count(r, IsAsciiLower) == n / 3
      && Count(r, IsSpecial) == (if useSpecialChar then b else 0)
      && Count(r, IsDigit) == n - 2 * (n / 3) - (if useSpecialChar then b else 0)
  {
    var n := PasswordLength(length);
    var third := n / 3;
    StrongPasswordFill(length, b);
    var pwd := AppendCasePairs([], upperDraws, lowerDraws);
    if useSpecialChar {
      pwd := AppendChars(pwd, specialDraws);
    }
    ghost var letters := pwd;
    assert |letters| == n - |digitDraws| && letters == CasePairs(upperDraws, lowerDraws) + specialDraws;
    if |pwd| < n {
      pwd := AppendDigits(pwd, digitDraws);
    }
    assert |pwd| == n && pwd == letters + DigitString(digitDraws);
    r := Shuffle(pwd, swaps);
    StrongPasswordCounts(length, useSpecialChar, upperDraws, lowerDraws, b, specialDraws, digitDraws, swaps, r);
  }

  /** The letter loop of `randomStrongPassword`: each step appends an
      upper-case and a lower-case letter. */
  method AppendCasePairs(pwd: string, upperDraws: string, lowerDraws: string) returns (r: string)
    requires |upperDraws| == |lowerDraws|
    requires forall k :: 0 <= k < |upperDraws| ==> IsAsciiLetter(upperDraws[k]) && IsAsciiLetter(lowerDraws[k])
    ensures r == pwd + CasePairs(upperDraws, lowerDraws)
  {
    r := pwd;
    for i := 0 to |upperDraws|
      invariant r == pwd + CasePairs(upperDraws[..i], lowerDraws[..i])
    {
      CasePairsStep(upperDraws, lowerDraws, i);
      r := r + [ToUpper(upperDraws[i]), ToLower(lowerDraws[i])];
    }
    assert upperDraws[..|upperDraws|] == upperDraws && lowerDraws[..|lowerDraws|] == lowerDraws;
  }

  /** The special-character loop of `randomStrongPassword`: one drawn
      character per step. */
  method AppendChars(pwd: string, chars: string) returns (r: string)
    ensures r == pwd + chars
  {
    r := pwd;
    for i := 0 to |chars|
      invariant r == pwd + chars[..i]
    {
      assert chars[..i + 1] == chars[..i] + [chars[i]];
      r := r + [chars[i]];
    }
    assert chars[..|chars|] == chars;
  }

  /** The digit loop of `randomStrongPassword`: one digit per draw is
      appended to the password built so far. */
  method AppendDigits(pwd: string, digitDraws: seq<int>) returns (r: string)
    requires forall k :: 0 <= k < |digitDraws| ==> 0 <= digitDraws[k] < 10
    ensures r == pwd + DigitString(digitDraws)
  {
    r := pwd;
    for i := 0 to |digitDraws|
      invariant r == pwd + DigitString(digitDraws[..i])
    {
      DigitStringStep(digitDraws, i);
      r := r + [DigitChar(digitDraws[i])];
    }
    assert digitDraws[..|digitDraws|] == digitDraws;
  }

  /** The counts of every arrangement of the generated characters. */
  lemma StrongPasswordCounts(length: int, useSpecialChar: bool, upperDraws: string, lowerDraws: string,
                             b: int, specialDraws: string, digitDraws: seq<int>, swaps: seq<int>, r: string)
    requires PasswordDraws(length, useSpecialChar, upperDraws, lowerDraws, b, specialDraws, digitDraws, swaps)
    requires multiset(r) == multiset(CasePairs(upperDraws, lowerDraws) + specialDraws + DigitString(digitDraws))
    ensures var n := PasswordLength(length);
      Count(r, IsAsciiUpper) >= n / 3 && Count(r, IsAsciiLower) >= n / 3 && Count(r, IsDigit) >= 1
    ensures (forall i :: 0 <= i < |specialDraws| ==> IsSpecial(specialDraws[i])) ==>
      var n := PasswordLength(length);
      && Count(r, IsAsciiUpper) == n / 3 && Count(r, IsAsciiLower) == n / 3
      && Count(r, IsSpecial) == (if useSpecialChar then b else 0)
      && Count(r, IsDigit) == n - 2 * (n / 3) - (if useSpecialChar then b else 0)
  {
    StrongPasswordFill(length, b);
    PasswordCounts(CasePairs(upperDraws, lowerDraws), upperDraws, lowerDraws, specialDraws, DigitString(digitDraws), r);
  }

  /** Shuffling keeps the counts of the unshuffled list. */
  lemma PasswordCounts(pairs: string, upperDraws: string, lowerDraws: string, specials: string, digits: string, r: string)
    requires |upperDraws| == |lowerDraws|
    requires forall i :: 0 <= i < |upperDraws| ==> IsAsciiLetter(upperDraws[i]) && IsAsciiLetter(lowerDraws[i])
    requires pairs == CasePairs(upperDraws, lowerDraws)
    requires AllDigits(digits)
    requires multiset(r) == multiset(pairs + specials + digits)
    ensures Count(r, IsAsciiUpper) >= |upperDraws| && Count(r, IsAsciiLower) >= |upperDraws|
    ensures Count(r, IsDigit) >= |digits|
    ensures (forall i :: 0 <= i < |specials| ==> IsSpecial(specials[i])) ==>
      && Count(r, IsAsciiUpper) == |upperDraws| && Count(r, IsAsciiLower) == |upperDraws|
      && Count(r, IsSpecial) == |specials| && Count(r, IsDigit) == |digits|
  {
    var all := pairs + specials + digits;
    CasePairsCounts(upperDraws, lowerDraws);
    CountAllOrNone(digits, IsDigit);
    CountAllOrNone(digits, IsAsciiUpper);
    CountAllOrNone(digits, IsAsciiLower);
    CountAllOrNone(digits, IsSpecial);
    CountAllOrNone(specials, IsAsciiUpper);
    CountAllOrNone(specials, IsAsciiLower);
    CountAllOrNone(specials, IsDigit);
    CountAllOrNone(specials, IsSpecial);
    CountAppend(pairs + specials, digits, IsAsciiUpper);
    CountAppend(pairs, specials, IsAsciiUpper);
    CountAppend(pairs + specials, digits, IsAsciiLower);
    CountAppend(pairs, specials, IsAsciiLower);
    CountAppend(pairs + specials, digits, IsDigit);
    CountAppend(pairs, specials, IsDigit);
    CountAppend(pairs + specials, digits, IsSpecial);
    CountAppend(pairs, specials, IsSpecial);
    CountPermutation(all, r, IsAsciiUpper);
    CountPermutation(all, r, IsAsciiLower);
    CountPermutation(all, r, IsDigit);
    CountPermutation(all, r, IsSpecial);
  }

  /** The digits drawn follow the prefix and are digits; the whole
      number is digits when the prefix is. */
  lemma MobileDigits(p: string, ds: string)
    requires AllDigits(ds)
    ensures (p + ds)[|p|..] == ds && AllDigits((p + ds)[|p|..])
    ensures AllDigits(p) ==> AllDigits(p + ds)
  {
    assert (p + ds)[|p|..] == ds;
    if AllDigits(p) {
      AllDigitsAppend(p, ds);
    }
  }

  /** `randomChineseMobile()`: the drawn prefix (none for an empty prefix
      list) followed by enough random digits to make 11 characters. */
  method RandomChineseMobile(prefix: Option<string>, digitDraws: seq<int>) returns (r: string)
    requires var p := if prefix.Some? then prefix.value else "";
      var x := if |p| == 3 then 8 else 11 - |p|;
      |digitDraws| == (if x > 0 then x else 0) && forall i :: 0 <= i < |digitDraws| ==> 0 <= digitDraws[i] < 10
    ensures var p := if prefix.Some? then prefix.value else "";
      && r == p + DigitString(digitDraws)
      && |r| == (if |p| <= 11 then 11 else |p|)
      && AllDigits(r[|p|..])
      && (AllDigits(p) ==> AllDigits(r))
  {
    var mobile := if prefix.Some? then prefix.value else "";
    var x := if |mobile| == 3 then 8 else 11 - |mobile|;
    ghost var p := mobile;
    for i := 0 to (if x > 0 then x else 0)
      invariant mobile == p + DigitString(digitDraws[..i])
    {
      assert digitDraws[..i + 1][..i] == digitDraws[..i];
      mobile := mobile + [DigitChar(digitDraws[i])];
    }
    assert digitDraws[..|digitDraws|] == digitDraws;
    r := mobile;
    MobileDigits(p, DigitString(digitDraws));
  }

  const Int32Max: int := 0x7FFF_FFFF

  /** The nickname length bound: at least 4. */
  function NickNameBound(maxLength: int): int { if maxLength < 4 then 4 else maxLength }

  /** The draws `randomNickName(maxLength)` makes: a letter, a length in
      `[4, hi)` where `hi` is the exclusive upper bound, and that many
      letters or digits after the first. */
  predicate NickNameDraws(hi: int, first: char, actualLength: int, rest: string) {
    IsAsciiLetter(first)
    && (hi >= 4 ==> (4 <= actualLength < hi || (hi == 4 && actualLength == 4))
                    && |rest| == actualLength - 1
                    && forall i :: 0 <= i < |rest| ==> IsAlphanumeric(rest[i]))
  }

  /** `randomNickName(maxLength)` as written: `maxLength + 1` is `int`
      arithmetic, so `Integer.MAX_VALUE` wraps to a negative bound and
      `RandomUtils.nextInt(4, bound)` throws. */
  function RandomNickNameAsWritten(maxLength: int, first: char, actualLength: int, rest: string): (r: Result<string>)
    requires DT.IsInt32(maxLength)
    requires NickNameDraws(DT.WrapInt32(NickNameBound(maxLength) + 1), first, actualLength, rest)
    ensures r.Success? <==> maxLength < Int32Max
    ensures r.Failure? ==> r.error == IllegalArgument
  {
    var hi := DT.WrapInt32(NickNameBound(maxLength) + 1);
    if hi < 4 then Failure(IllegalArgument) else Success([first] + rest)
  }

  /** The largest allowed length is refused outright. */
  lemma NickNameMaxLengthFails(first: char)
    requires IsAsciiLetter(first)
    ensures RandomNickNameAsWritten(Int32Max, first, 0, "") == Failure(IllegalArgument)
  {
  }

  /** `randomNickName(maxLength)` with the bound computed without
      overflow: a letter, then letters or digits, 4 to `max(maxLength, 4)`
      characters in all. */
  function RandomNickName(maxLength: int, first: char, actualLength: int, rest: string): (r: string)
    requires DT.IsInt32(maxLength)
    requires NickNameDraws(NickNameBound(maxLength) + 1, first, actualLength, rest)
    ensures 4 <= |r| <= NickNameBound(maxLength)
    ensures IsAsciiLetter(r[0]) && forall i :: 1 <= i < |r| ==> IsAlphanumeric(r[i])
  {
    [first] + rest
  }

  /** The two agree wherever the bound does not wrap. */
  lemma NickNameAgrees(maxLength: int, first: char, actualLength: int, rest: string)
    requires DT.IsInt32(maxLength) && maxLength < Int32Max
    requires NickNameDraws(NickNameBound(maxLength) + 1, first, actualLength, rest)
    ensures RandomNickNameAsWritten(maxLength, first, actualLength, rest)
      == Success(RandomNickName(maxLength, first, actualLength, rest))
  {
  }
}
