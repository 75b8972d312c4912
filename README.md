# common-random generator rules in Dafny

This project models the deterministic rules inside three generator classes of the common-random library:

- **`PersonInfoSource`**
  - Composes Chinese citizen identity numbers following GB 11643-1999: a six-digit region prefix, the birth date as `yyyyMMdd`, a three-digit sequence whose parity is the gender, and the ISO 7064 MOD 11-2 check character.
  - Builds a province → region-prefix index from the loaded `(prefix, location, parent)` rows.
  - Derives birth-year ranges from an age or an age range.
  - Builds strong passwords, mobile numbers and nicknames.
- **`OtherSource`**
  - Computes the GS1 mod-10 check digit, the EAN-13 / ISBN-13 check of the GS1 General Specifications.
  - Composes ISBN-13 and EAN-13 codes with it.
  - Composes mainland-China licence plates.
- **`DateTimeSource`**
  - Samples dates within a year, within a range, and before or after a base date.
  - Samples date-times and date-time offsets.
  - Samples epoch-millisecond timestamps within a range or around a base.

**How the model is built.**
- Every random draw is a parameter. Its `requires` clause states the range. `RandomUtils.nextInt(a, b)` and `nextLong(a, b)` draw from `[a, b)`, and give exactly `a` when `a == b`.
- `ResourceUtils.getRandomElement(list)` is an index into the list.
- `Collections.shuffle` is its swap-based algorithm, driven by given swap draws.
- Each property is therefore a statement about every possible draw.
- A Java exception is a `Failure` carrying the exception kind. A Java `null` argument is `None`.

**Modules.** One module per source class, over shared foundations:

| module | contents |
|---|---|
| `Outcomes` | `Option`, `Result` and the exception kinds |
| `Strings` | character classes, decimal text, `String.format("%0Nd")`, Guava `Splitter`/`Joiner` |
| `Lists` | counting, and `Collections.shuffle` |
| `Calendar` | the proleptic Gregorian calendar on day numbers |
| `DateTime` | `DateTimeSource` |
| `Other` | `OtherSource` |
| `PersonInfo` | `PersonInfoSource` |

**Calendar.**
- A date is its epoch day: 0 is 1970-01-01.
- `Calendar.EpochDay` and `Calendar.CivilOf` convert it to and from (year, month, day).
- They are proved inverse in both directions.
- `Calendar.FormatYyyyMMdd` is the fixed `yyyyMMdd` rendering the identity number uses.

**State.** `PersonInfoSource` is a class, because its constructor fills `idPrefixList` and `provinceIdPrefixMap` in loops. Those loops, `findIdPrefixByProvince`, and the checksum, password, mobile, check-digit and plate loops are methods with loop invariants. Each is proved equal to a specification function, and the properties are lemmas about those functions.

**Where the code and its documentation disagree, the model follows the code:**
- `randomLocalDate(begin, end)` rejects `begin == end` (`isBefore`).
- A non-empty CSV row with fewer than three fields is not skipped: it makes `row.get` throw while the table loads. The model records this as a failure.
- `randomTimestamp(begin, end)` documents its end as excluded. When `begin` and `end` fall within the same millisecond, the timestamp returned is exactly the end's. `DateTime.SameMillisecondReturnsEnd` shows this, and that it happens only then.

**Java `long` arithmetic.** The `long` parameters and results are modelled with their range, and the model keeps what Java does at its edges:
- `randomPastLocalDate(base, Long.MAX_VALUE)` and `randomPastTime(base, Long.MAX_VALUE)` wrap the bound `max + 1` to `Long.MIN_VALUE`, and `nextLong` refuses it with an illegal-argument exception.
- `plusDays` throws `ArithmeticException` when the epoch day minus the draw leaves the `long` range.
- `Math.abs(Long.MIN_VALUE)` is negative, so the timestamp offset methods refuse `Long.MIN_VALUE`. The bound `|maxSeconds| * 1000 + 1` wraps for large `maxSeconds`: `Long.MAX_VALUE` gives -999, which `nextLong` refuses.
- `Duration.toMillis` and `toEpochMilli` throw `ArithmeticException` beyond the `long` range, and the final sum wraps as `long` addition does.

The intended results at these inputs lie outside the `long` range too, so the model records them as the code's behaviour, not as findings.

## Model

| member | source | states |
|---|---|---|
| PersonInfo.WeightingFactor | src/main/java/com/apifan/common/random/source/PersonInfoSource.java:35-48 | the weight table has an entry exactly for the keys 1..10 |
| PersonInfo.FactorAt | src/main/java/com/apifan/common/random/source/PersonInfoSource.java:586 | the factor lookup for position i (i ≥ 1) succeeds exactly for i ≤ 20; past that it finds no entry |
| PersonInfo.FactorIsIsoWeight | src/main/java/com/apifan/common/random/source/PersonInfoSource.java:38-47 | positions 1..10 use W[i] and 11..17 use W[i−10]; either way the factor is the ISO 7064 MOD 11-2 weight 2^(18−i) mod 11 |
| PersonInfo.IsoWeightIsPower | src/main/java/com/apifan/common/random/source/PersonInfoSource.java:38-47 | the reference weight, computed from the last position backwards, is 2^(18−i) mod 11 |
| PersonInfo.CheckNumber | src/main/java/com/apifan/common/random/source/PersonInfoSource.java:53-67 | the check table has an entry exactly for the keys 0..10 |
| PersonInfo.CheckNumberBijection | src/main/java/com/apifan/common/random/source/PersonInfoSource.java:56-66 | the check table is injective on 0..10, and its values are exactly the ten digits and `X` |
| PersonInfo.JavaRem | src/main/java/com/apifan/common/random/source/PersonInfoSource.java:590 | Java `%`: equals the mathematical remainder for a non-negative dividend; for a negative one it lies in (−m, 0] and completes the truncating quotient, a == trunc(a/m)·m + r |
| PersonInfo.CheckSuffix | src/main/java/com/apifan/common/random/source/PersonInfoSource.java:590-591 | for a non-negative sum, exactly one character is appended, and it is one of the 11 check characters |
| PersonInfo.ChecksumOf | src/main/java/com/apifan/common/random/source/PersonInfoSource.java:583-588 | the checksum loop finishes exactly when the text has at most 20 characters; its sum is then the weighted sum `IdSum` |
| PersonInfo.IdSumIsIsoSum | src/main/java/com/apifan/common/random/source/PersonInfoSource.java:583-588 | over at most 17 digits, the loop's sum is the ISO 7064 weighted sum and is non-negative |
| PersonInfo.CompletionUnique | src/main/java/com/apifan/common/random/source/PersonInfoSource.java:590 | modulo 11, exactly one value in 0..10 brings a sum to 1 |
| PersonInfo.CheckSuffixCompletes | src/main/java/com/apifan/common/random/source/PersonInfoSource.java:581-591 | for 17 digits, the appended character makes a valid GB 11643-1999 number; it is the only digit or `X` that does |
| PersonInfo.ValidWithLast | src/main/java/com/apifan/common/random/source/PersonInfoSource.java:590-591 | 17 digits followed by a character form a valid number exactly when the weighted sum including that character is 1 modulo 11 |
| PersonInfo.SequenceFor | src/main/java/com/apifan/common/random/source/PersonInfoSource.java:572-579 | a female sequence is even and in 0..998; a male one is odd and in 1..999; either is at most one away from the draw |
| PersonInfo.SequenceReachable | src/main/java/com/apifan/common/random/source/PersonInfoSource.java:572-579 | every sequence of the right parity, female "000" included, comes from some draw in [1, 1000) |
| PersonInfo.SequenceField | src/main/java/com/apifan/common/random/source/PersonInfoSource.java:581 | `%03d` of 0..999 is exactly three digits spelling the number |
| PersonInfo.ComposeIdCard | src/main/java/com/apifan/common/random/source/PersonInfoSource.java:581-591 | the result starts with prefix + date + `%03d` sequence; it fails with a null unboxing exactly when that body exceeds 20 characters |
| PersonInfo.ComposeNumber | src/main/java/com/apifan/common/random/source/PersonInfoSource.java:581-591 | the imperative last steps of `randomIdCard` compute exactly `ComposeIdCard` |
| PersonInfo.CompletedBody | src/main/java/com/apifan/common/random/source/PersonInfoSource.java:581-591 | a 6+8+3-digit body plus its check character is 18 characters with the fields at positions 0-5, 6-13 and 14-16; it is valid, and recomputing the check over the first 17 characters reproduces the 18th |
| PersonInfo.IdCardLayout | src/main/java/com/apifan/common/random/source/PersonInfoSource.java:570-591 | with a six-digit prefix and a year in 1..9999, the number has every GB 11643-1999 field: prefix, date digits reading back as year/month/day, sequence, and a reproducible check character; it is valid |
| PersonInfo.IdCardGender | src/main/java/com/apifan/common/random/source/PersonInfoSource.java:572-591 | the sequence field of the number is odd exactly for a male |
| PersonInfo.ParseLines | src/main/java/com/apifan/common/random/source/PersonInfoSource.java:121-131 | loading succeeds exactly when every non-empty line has at least three fields, and fails with an index exception otherwise; it yields at most one row per line |
| PersonInfo.ParseLinesAppend | src/main/java/com/apifan/common/random/source/PersonInfoSource.java:121-131 | lines are parsed independently: parsing two blocks gives the rows of each, in order |
| PersonInfo.ProvinceRoots | src/main/java/com/apifan/common/random/source/PersonInfoSource.java:134-142 | the roots are exactly the loaded rows whose parent is "0" |
| PersonInfo.PrefixesWith | src/main/java/com/apifan/common/random/source/PersonInfoSource.java:604-611 | every collected prefix starts with the two-character key |
| PersonInfo.PrefixesWithMembers | src/main/java/com/apifan/common/random/source/PersonInfoSource.java:604-611 | a prefix is collected exactly when some row carries it and it starts with the key |
| PersonInfo.FindIdPrefix | src/main/java/com/apifan/common/random/source/PersonInfoSource.java:600-613 | null for a missing node or an empty prefix; `substring(0, 2)` throws exactly for a one-character prefix when rows exist; otherwise the prefixes sharing the first two characters |
| PersonInfo.PersonInfoSource.FindIdPrefixByProvince | src/main/java/com/apifan/common/random/source/PersonInfoSource.java:600-613 | the imperative loop over `idPrefixList` returns exactly `FindIdPrefix` |
| PersonInfo.RootListsItself | src/main/java/com/apifan/common/random/source/PersonInfoSource.java:604-611 | a root's own prefix is in its list |
| PersonInfo.BuildIndex | src/main/java/com/apifan/common/random/source/PersonInfoSource.java:145-150 | building succeeds exactly when every root's lookup does; the keys are exactly the roots' locations |
| PersonInfo.ProvinceIndexShape | src/main/java/com/apifan/common/random/source/PersonInfoSource.java:134-150 | the index build throws exactly when some root has a one-character prefix; its keys are exactly the locations of the rows with parent "0" |
| PersonInfo.BuildIndexValue | src/main/java/com/apifan/common/random/source/PersonInfoSource.java:145-150 | each entry is the lookup result of some root with that location |
| PersonInfo.ProvinceIndexEntry | src/main/java/com/apifan/common/random/source/PersonInfoSource.java:121-150 | each entry belongs to a root with that location: null for an empty prefix, otherwise exactly the loaded prefixes, in load order, that share the root's first two characters, the root's own among them |
| PersonInfo.PersonInfoSource.constructor | src/main/java/com/apifan/common/random/source/PersonInfoSource.java:118-151 | the three loops leave `idPrefixList` equal to the parsed rows and `provinceIdPrefixMap` equal to `ProvinceIndex` of them |
| PersonInfo.Load | src/main/java/com/apifan/common/random/source/PersonInfoSource.java:118-151 | loading fails with an index exception exactly when a row is short or a root has a one-character prefix; otherwise it yields a fresh source as the constructor builds it |
| PersonInfo.ProvincePrefixes | src/main/java/com/apifan/common/random/source/PersonInfoSource.java:557-562 | a non-empty list is the stored list of the named province |
| PersonInfo.ChosenPrefix | src/main/java/com/apifan/common/random/source/PersonInfoSource.java:556-567 | the prefix is a member of the province's list, or of the whole table, or "" for an empty table; a non-empty drawn list element is taken as it is |
| PersonInfo.ChosenPrefixInProvince | src/main/java/com/apifan/common/random/source/PersonInfoSource.java:556-567 | naming a province with a non-empty list yields a loaded prefix sharing its first two characters with that province's root |
| PersonInfo.IdCardOf | src/main/java/com/apifan/common/random/source/PersonInfoSource.java:551-592 | an illegal-argument failure occurs exactly for a missing date or a range that is not increasing; only that and the null unboxing can fail |
| PersonInfo.PersonInfoSource.RandomIdCard | src/main/java/com/apifan/common/random/source/PersonInfoSource.java:551-592 | the method, with its prefix choice and checksum loop, returns exactly `IdCardOf` |
| PersonInfo.IdCardOfValid | src/main/java/com/apifan/common/random/source/PersonInfoSource.java:551-592 | with a six-digit prefix and a range in the years 1..9999, the result is valid, carries the prefix, has a birth date inside [begin, end], and its sequence parity is the gender |
| PersonInfo.YearSpan | src/main/java/com/apifan/common/random/source/PersonInfoSource.java:415-416 | Jan 1 of the first year and Dec 31 of the last; throws exactly outside the supported years; ordered exactly when the years are |
| PersonInfo.YearSpanDays | src/main/java/com/apifan/common/random/source/PersonInfoSource.java:415-416 | the span's ends are Jan 1 of the first year and Dec 31 of the last |
| PersonInfo.YearSpanOrdered | src/main/java/com/apifan/common/random/source/PersonInfoSource.java:429-434 | Jan 1 of year a precedes Dec 31 of year b exactly when a ≤ b |
| PersonInfo.IdCardForYears | src/main/java/com/apifan/common/random/source/PersonInfoSource.java:413-417 | fails with a date exception exactly when a year is unsupported; fails with an illegal argument exactly when the first year is after the last |
| PersonInfo.IdCardForYearsValid | src/main/java/com/apifan/common/random/source/PersonInfoSource.java:428-436 | for birth years in 1..9999 the number is valid, its date field lies within those years, and its parity is the gender |
| PersonInfo.AgeWrapHarmless | src/main/java/com/apifan/common/random/source/PersonInfoSource.java:414 | `int` wrap-around in `year - age` only ever turns an out-of-range year into another out-of-range year |
| PersonInfo.AgeYearSpan | src/main/java/com/apifan/common/random/source/PersonInfoSource.java:431-432 | the span of the wrapped birth years is the span of the exact ones |
| PersonInfo.PersonInfoSource.RandomIdCardByAge | src/main/java/com/apifan/common/random/source/PersonInfoSource.java:412-418 | a single age gives Jan 1 to Dec 31 of the year currentYear − age; female at lines 513-519 |
| PersonInfo.PersonInfoSource.RandomIdCardByAgeRange | src/main/java/com/apifan/common/random/source/PersonInfoSource.java:428-436 | `minAge < maxAge` is required; the span runs from Jan 1 of currentYear − maxAge to Dec 31 of currentYear − minAge; female at lines 496-504 |
| PersonInfo.CasePairs | src/main/java/com/apifan/common/random/source/PersonInfoSource.java:307-310 | the letter loop adds two characters per step |
| PersonInfo.CasePairsCounts | src/main/java/com/apifan/common/random/source/PersonInfoSource.java:307-310 | the pairs hold exactly length/3 upper-case and length/3 lower-case letters, and no digit or special character |
| PersonInfo.AppendCasePairs | src/main/java/com/apifan/common/random/source/PersonInfoSource.java:307-310 | the letter loop appends exactly `CasePairs` |
| PersonInfo.AppendChars | src/main/java/com/apifan/common/random/source/PersonInfoSource.java:313-320 | the special-character loop appends exactly the drawn characters |
| PersonInfo.AppendDigits | src/main/java/com/apifan/common/random/source/PersonInfoSource.java:323-328 | the digit loop appends exactly the drawn digits |
| PersonInfo.StrongPasswordFill | src/main/java/com/apifan/common/random/source/PersonInfoSource.java:300-328 | for every b < n/3, the letters and the specials, 2·(n/3) + b, stay below the length n ≥ 8, so at least one digit is added |
| PersonInfo.RandomStrongPassword | src/main/java/com/apifan/common/random/source/PersonInfoSource.java:299-333 | the length is max(length, 8); the result is a permutation of letters + specials + digits; it holds at least length/3 letters of each case and at least one digit, exactly those counts (and b specials) when the specials are not letters or digits |
| PersonInfo.StrongPasswordCounts | src/main/java/com/apifan/common/random/source/PersonInfoSource.java:331-332 | every arrangement of the generated characters has those counts |
| PersonInfo.PasswordCounts | src/main/java/com/apifan/common/random/source/PersonInfoSource.java:331-332 | shuffling keeps the count of every character class |
| PersonInfo.RandomChineseMobile | src/main/java/com/apifan/common/random/source/PersonInfoSource.java:282-290 | the prefix (or "") followed by the drawn digits; 11 characters whenever the prefix has at most 11, digits after the prefix, all digits for a digit prefix |
| PersonInfo.MobileDigits | src/main/java/com/apifan/common/random/source/PersonInfoSource.java:285-289 | the appended part is the digits, and a digit prefix makes the whole number digits |
| PersonInfo.RandomNickNameAsWritten | src/main/java/com/apifan/common/random/source/PersonInfoSource.java:235-244 | as written: succeeds exactly for maxLength < `Integer.MAX_VALUE`, while `maxLength + 1` does not wrap |
| PersonInfo.NickNameMaxLengthFails | src/main/java/com/apifan/common/random/source/PersonInfoSource.java:241 | `maxLength = Integer.MAX_VALUE` throws an illegal-argument exception |
| PersonInfo.RandomNickName | src/main/java/com/apifan/common/random/source/PersonInfoSource.java:235-244 | a letter, then letters or digits; 4 to max(maxLength, 4) characters |
| PersonInfo.NickNameAgrees | src/main/java/com/apifan/common/random/source/PersonInfoSource.java:235-244 | the as-written and corrected forms agree wherever the bound does not wrap |
| Other.CheckDigit | src/main/java/com/apifan/common/random/source/OtherSource.java:563-566 | the check digit is a digit that brings the weighted total to a multiple of 10 |
| Other.GetCheckDigit | src/main/java/com/apifan/common/random/source/OtherSource.java:549-567 | a blank input is refused; a non-digit throws a number-format exception; otherwise the loop yields `CheckDigit` |
| Other.EanTotalIsGs1Sum | src/main/java/com/apifan/common/random/source/OtherSource.java:551-561 | on odd-length codes, the left-counted 1/3 factors equal the right-counted GS1 weights |
| Other.EanTotalAppend | src/main/java/com/apifan/common/random/source/OtherSource.java:551-561 | one more digit adds digit × factor of its position |
| Other.CheckDigitCompletes | src/main/java/com/apifan/common/random/source/OtherSource.java:549-567 | for an even number of data digits, appending the check digit gives a valid GS1 code, and no other digit does |
| Other.PublisherCodeWidth | src/main/java/com/apifan/common/random/source/OtherSource.java:72-79 | every publisher code of the six ranges has four or five digits |
| Other.RandomIsbn | src/main/java/com/apifan/common/random/source/OtherSource.java:418-430 | "978", "7", publisher code and 8 − len(publisher) digits are 12 digits; the check digit is appended; the undelimited form is a valid 13-digit GS1 code starting "9787", and the delimited form joins the five parts with "-" |
| Other.RandomEan | src/main/java/com/apifan/common/random/source/OtherSource.java:437-451 | the code is 13 digits: "690" or "691", the manufacturer and product digits, then the check digit; it is a valid GS1 code |
| Other.PlateAlphabets | src/main/java/com/apifan/common/random/source/OtherSource.java:34-46 | 31 provinces; the 24 plate letters are exactly the upper-case letters other than I and O |
| Other.LettersFor | src/main/java/com/apifan/common/random/source/OtherSource.java:264-266 | the drawn letters are plate letters |
| Other.RandomPlateNumber | src/main/java/com/apifan/common/random/source/OtherSource.java:257-284 | province, series letter, the "D" or "F" tag for a new-energy vehicle, then 5 characters: a permutation of the drawn alphaCnt (0..2) letters and 5 − alphaCnt digits |
| Other.ShuffledPlateCounts | src/main/java/com/apifan/common/random/source/OtherSource.java:274 | after any shuffle, the body still holds exactly the drawn letters and digits and nothing else |
| Other.PlateLayout | src/main/java/com/apifan/common/random/source/OtherSource.java:282-283 | where each part of the joined plate sits |
| Lists.CountPermutation | src/main/java/com/apifan/common/random/source/PersonInfoSource.java:331 | reordering keeps every count |
| Lists.Shuffle | src/main/java/com/apifan/common/random/source/OtherSource.java:274 | `Collections.shuffle` keeps the length and the multiset of elements |
| Strings.NatToString | src/main/java/com/apifan/common/random/source/OtherSource.java:422 | `String.valueOf(n)` is decimal digits that read back as n |
| Strings.ZeroPadValue | src/main/java/com/apifan/common/random/source/PersonInfoSource.java:581 | `%0Nd` is digits reading back as n, of width N when n fits |
| Strings.SplitJoin | src/main/java/com/apifan/common/random/source/PersonInfoSource.java:125 | splitting on "," loses nothing: joining the fields gives the line back |
| Calendar.CivilOf | src/main/java/com/apifan/common/random/source/DateTimeSource.java:82-83 | the date of a day number is a valid date whose day number is that number |
| Calendar.CivilOfEpochDay | src/main/java/com/apifan/common/random/source/DateTimeSource.java:82-83 | day number → date → day number, and date → day number → date, are both identities |
| Calendar.EpochDayInjective | src/main/java/com/apifan/common/random/source/DateTimeSource.java:82-83 | two different dates never share a day number |
| Calendar.YearOfDay | src/main/java/com/apifan/common/random/source/DateTimeSource.java:81-83 | Jan 1..Dec 31 of a year are exactly the days of that year, and there are 366 in a leap year and 365 otherwise |
| Calendar.YearOfDayMonotone | src/main/java/com/apifan/common/random/source/DateTimeSource.java:96-97 | a later day never falls in an earlier year |
| Calendar.EpochOrigin | src/main/java/com/apifan/common/random/source/DateTimeSource.java:82 | day 0 is 1970-01-01 |
| Calendar.FormatYyyyMMddFields | src/main/java/com/apifan/common/random/source/PersonInfoSource.java:570 | for years 1..9999 the `yyyyMMdd` text is 8 digits spelling year, month and day, which read back as the same day |
| DateTime.RandomLocalDateInYear | src/main/java/com/apifan/common/random/source/DateTimeSource.java:79-84 | succeeds exactly for 1970 ≤ year ≤ 9999; the result is between Jan 1 and Dec 31 of that year |
| DateTime.InYearReachable | src/main/java/com/apifan/common/random/source/DateTimeSource.java:81-83 | every day of an accepted year, Feb 29 included, is produced by some offset |
| DateTime.RandomLocalDateBetween | src/main/java/com/apifan/common/random/source/DateTimeSource.java:93-98 | succeeds exactly when both bounds are present and begin < end (equal dates rejected); the result lies in [begin, end] |
| DateTime.BetweenReachable | src/main/java/com/apifan/common/random/source/DateTimeSource.java:96-97 | every day of [begin, end], both ends included, is produced by some offset |
| DateTime.RandomFutureLocalDate | src/main/java/com/apifan/common/random/source/DateTimeSource.java:144-146 | null base throws; the result is 1..99998 days after base and always succeeds unless that passes `LocalDate.MAX` |
| DateTime.RandomPastLocalDate | src/main/java/com/apifan/common/random/source/DateTimeSource.java:198-201 | maxDays ≤ 1 and maxDays = `Long.MAX_VALUE` are refused; a null base then throws; the result lies in [base − maxDays, base − 1]; it succeeds whenever base − maxDays is on or after `LocalDate.MIN`, and otherwise fails with a date exception, or an arithmetic one when the sum leaves the `long` range |
| DateTime.PastLocalDateLongMaxRefused | src/main/java/com/apifan/common/random/source/DateTimeSource.java:198-199 | `maxDays = Long.MAX_VALUE` is refused with an illegal argument from every base, while `Long.MAX_VALUE − 1` is not |
| DateTime.PastLocalDateAddExactOverflows | src/main/java/com/apifan/common/random/source/DateTimeSource.java:199 | from `LocalDate.MIN` the largest draw overflows `Math.addExact`, while a draw of 1 throws only a date exception |
| DateTime.FromNanos | src/main/java/com/apifan/common/random/source/DateTimeSource.java:315 | the date-time at a timeline position has a valid time of day and that position; it is representable exactly when the position is on the timeline |
| DateTime.NanosFromNanos | src/main/java/com/apifan/common/random/source/DateTimeSource.java:315 | a valid date-time is the only one at its position on the timeline |
| DateTime.LocalDateTimeOf | src/main/java/com/apifan/common/random/source/DateTimeSource.java:268 | `LocalDateTime.of` succeeds exactly for a supported year and a day the month has; the result carries the date and the time fields |
| DateTime.RandomTimeAsWritten | src/main/java/com/apifan/common/random/source/DateTimeSource.java:262-269 | as written: the result never shows a millisecond |
| DateTime.RandomTimeLosesMilliseconds | src/main/java/com/apifan/common/random/source/DateTimeSource.java:267-268 | a 500 ms draw yields 500 ns |
| DateTime.RandomTime | src/main/java/com/apifan/common/random/source/DateTimeSource.java:262-269 | a month outside 1..12 is refused; otherwise succeeds exactly for an existing date in the supported years; the result has that date, the drawn hour/minute/second and the drawn millisecond |
| DateTime.RandomPastTime | src/main/java/com/apifan/common/random/source/DateTimeSource.java:311-316 | null base refused, and `maxSeconds = Long.MAX_VALUE`, whose bound wraps; the result is exactly second + millisecond draws before base, at most maxSeconds s + 999 ms for maxSeconds > 1; succeeds whenever that bound stays on the timeline |
| DateTime.RandomFutureTime | src/main/java/com/apifan/common/random/source/DateTimeSource.java:357-362 | the same, added to base |
| DateTime.UnlimitedDrawOverflows | src/main/java/com/apifan/common/random/source/DateTimeSource.java:313 | a "no limit" draw of 2^56 s or more throws from any base, in both directions |
| DateTime.WrapInt32 | src/main/java/com/apifan/common/random/source/DateTimeSource.java:291 | Java `int` arithmetic: the result is in range, congruent modulo 2^32, and unchanged when no overflow occurs |
| DateTime.RandomPastTimeInDaysAsWritten | src/main/java/com/apifan/common/random/source/DateTimeSource.java:289-292 | as written: maxDays < 1 refused; any result is in the past |
| DateTime.PastTimeInDaysOverflows | src/main/java/com/apifan/common/random/source/DateTimeSource.java:291 | maxDays = 24856 wraps the bound negative, and a result more than maxDays days back comes out |
| DateTime.RandomPastTimeInDays | src/main/java/com/apifan/common/random/source/DateTimeSource.java:289-292 | corrected: the result is less than maxDays days + 1 s before now, and succeeds whenever that stays on the timeline |
| DateTime.RandomFutureTimeInDaysAsWritten | src/main/java/com/apifan/common/random/source/DateTimeSource.java:335-338 | as written: maxDays < 1 refused; any result is in the future |
| DateTime.FutureTimeInDaysOverflows | src/main/java/com/apifan/common/random/source/DateTimeSource.java:337 | maxDays = 49711 wraps to 63104 s, so the result stays within one day |
| DateTime.RandomFutureTimeInDays | src/main/java/com/apifan/common/random/source/DateTimeSource.java:335-338 | corrected: the result is less than maxDays days + 1 s after now, and succeeds whenever that stays on the timeline |
| DateTime.WrapInt64 | src/main/java/com/apifan/common/random/source/DateTimeSource.java:387 | Java `long` arithmetic: the result is in range, congruent modulo 2^64, and unchanged when no overflow occurs |
| DateTime.RandomTimestamp | src/main/java/com/apifan/common/random/source/DateTimeSource.java:382-388 | null or unordered instants are an illegal argument; otherwise it succeeds exactly when the duration's milliseconds and begin's epoch millisecond are `long` values, and fails with an arithmetic exception when not; the result is a `long`, lies in [begin, end] in epoch ms when end's is a `long`, and before end whenever they are at least 1 ms apart |
| DateTime.SameMillisecondReturnsEnd | src/main/java/com/apifan/common/random/source/DateTimeSource.java:385-387 | for every ordered pair, the draw 0 yields the end's timestamp exactly when both instants lie in the same millisecond, a `long` one |
| DateTime.RandomTimestampOfDay | src/main/java/com/apifan/common/random/source/DateTimeSource.java:418-423 | null date refused; `LocalDate.MAX` throws a date exception; a day whose start is no `long` epoch millisecond throws an arithmetic one; otherwise an instant of that day at UTC+8 |
| DateTime.RandomOffsetTimestamp | src/main/java/com/apifan/common/random/source/DateTimeSource.java:443-448 | succeeds exactly for a present base, `Math.abs(maxSeconds)` > 1 (so never `Long.MIN_VALUE`), a `long` bound abs(maxSeconds)·1000 + 1 that stays ≥ 1, and a `long` epoch millisecond of base, which alone fails with an arithmetic exception; without overflow it adds (0, maxSeconds·1000] ms for a positive maxSeconds and subtracts (0, abs(maxSeconds)·1000] for a negative one |
| DateTime.OffsetTimestampExtremesRefused | src/main/java/com/apifan/common/random/source/DateTimeSource.java:445-446 | `Long.MIN_VALUE` fails the `Math.abs` check, and `Long.MAX_VALUE` wraps the bound to −999, which `nextLong` refuses |
| DateTime.RandomFutureTimestamp | src/main/java/com/apifan/common/random/source/DateTimeSource.java:397-399 | the private form unchanged: `Long.MIN_VALUE` refused; without overflow, after base by at most maxSeconds s for a positive maxSeconds, and before base for a negative one |
| DateTime.RandomPastTimestamp | src/main/java/com/apifan/common/random/source/DateTimeSource.java:408-410 | a positive maxSeconds is negated and `Long.MIN_VALUE` passed on and refused; without overflow the result is before base, by at most abs(maxSeconds) s |

## Left out

**Out of the model entirely:**
- `DataUtils` (JSON, CSV and SQL templating): its output comes from opaque value suppliers and Jackson serialisation.
- Resource loading (`ResourceUtils.readLines`, `readString`, base64) and the name, QQ, poem, idiom and word lists: file I/O and list picks. The region table arrives as its list of lines.
- The other generators of the three classes:
  - names, Chinese and pinyin nicknames, QQ;
  - `randomChinese` (GBK decoding);
  - `randomChineseSentence`, company and department names;
  - social credit codes, stock, fund and credit-card delegates;
  - colours, mobile models, `randomGender`.

  They are list picks or calls into classes that are not part of this model.
- The `java.util.Date` and `ZonedDateTime` conversions, `randomTimezoneName`, and the formatter cache.
- Date formatting by arbitrary pattern: only the fixed `yyyyMMdd` form is modelled. The pattern-taking `randomDate` overloads are therefore out, and so are the `Date`-returning overloads, which only convert.
- `LocalDate.now()` and `LocalDateTime.now()`: the current year, date or date-time is a parameter (`currentYear`, `now`).
- The `Province` enum overloads of the identity-number methods: they pass `province.getName()` on unchanged.
- Distributions and pseudo-randomness: only the ranges of the draws are stated.

**Simplifications of what is modelled:**
- `getRandomElement(list)` on an empty list gives `null`. The province list is only drawn from when non-empty. An empty plate, publisher or special-character list is excluded by the constant lists.
- The mobile prefix list and the special-character list (`RandomConstant`) are not part of this model. The drawn mobile prefix is a parameter, and each special character is one character.
- `HashSet` iteration order over the province roots is modelled as load order. A later root with the same location replaces the earlier entry, so the map is order-dependent only when two roots share a location.
- The `null` checks inside the constructor's loops are left out: no loaded row is ever `null`.
- `Integer.parseInt(String.valueOf(toCheck.charAt(i - 1)))` in `getCheckDigit` also accepts Unicode decimal digits beyond the ASCII ones. `Other.GetCheckDigit` treats every character that is not an ASCII digit as a number-format failure.
- `Other.GetCheckDigit`: Java `int` overflow of `total` is not modelled. The inputs the composers pass have 12 digits, far from the limit.
- `PersonInfo.PersonInfoSource.constructor` requires a table that loads without throwing. `PersonInfo.Load` models the failing case.
- `PersonInfo.CasePairs` and the other password members cover only the ASCII letters `randomAlphabetic(1)` produces.
- PersonInfo.CasePairs: `toUpperCase()` and `toLowerCase()` follow the default locale in Java; the model maps case as in an English-like locale. Under a Turkish or Azeri locale `i` becomes `İ` and `I` becomes `ı`, and the model's password differs from Java's.
- PersonInfo.RandomStrongPassword: its counts of upper- and lower-case ASCII letters hold only under that ASCII case mapping; under a Turkish or Azeri locale some letters become `İ` or `ı`, which the counts do not cover.
- PersonInfo.SequenceField: `String.format("%03d")` writes the default locale's digits; the model writes ASCII digits, as an English-like locale does. `Strings.ZeroPad` and `Strings.ZeroPadValue` assume the same.
- `PersonInfo.ChecksumOf`, `PersonInfo.ComposeNumber`, `PersonInfo.AppendCasePairs`, `PersonInfo.AppendChars` and `PersonInfo.AppendDigits` are single loops or steps of one Java method, kept separate so that each proof stays small.
- `PersonInfo.PersonInfoSource.RandomIdCardByAge` and `PersonInfo.PersonInfoSource.RandomIdCardByAgeRange` model the male and female overloads together, with the gender as a parameter.
- `DateTime.RandomTimeAsWritten` states only the lost millisecond and the success condition. `DateTime.RandomTime` carries the full contract.

## Findings

| source | as written | input that shows it | evidently intended | confidence | as-written member | corrected member |
|---|---|---|---|---|---|---|
| src/main/java/com/apifan/common/random/source/DateTimeSource.java:267-268 | `randomTime` passes the millisecond draw from [0, 1000) as `nanoOfSecond` | a draw of 500 gives 500 ns, not 500 ms | a random millisecond of the second (draw × 1 000 000 ns) | not executed | DateTime.RandomTimeAsWritten, DateTime.RandomTimeLosesMilliseconds | DateTime.RandomTime |
| src/main/java/com/apifan/common/random/source/DateTimeSource.java:291 | `maxDays * 86400` is an `int` product and wraps before widening to `long` | `randomPastTime(24856)` wraps to −2147408896, so the draw becomes unlimited and the result can be more than 24856 days back | a past time at most `maxDays` days back | not executed | DateTime.RandomPastTimeInDaysAsWritten, DateTime.PastTimeInDaysOverflows | DateTime.RandomPastTimeInDays |
| src/main/java/com/apifan/common/random/source/DateTimeSource.java:337 | the same `int` product in `randomFutureTime(int)` | `randomFutureTime(49711)` wraps to 63104 s, so every result lies within the first day | a future time up to `maxDays` days ahead | not executed | DateTime.RandomFutureTimeInDaysAsWritten, DateTime.FutureTimeInDaysOverflows | DateTime.RandomFutureTimeInDays |
| src/main/java/com/apifan/common/random/source/PersonInfoSource.java:241 | `maxLength + 1` is `int` arithmetic | `randomNickName(Integer.MAX_VALUE)` wraps the bound negative and `nextInt(4, bound)` throws | a nickname of 4..maxLength characters | not executed | PersonInfo.RandomNickNameAsWritten, PersonInfo.NickNameMaxLengthFails | PersonInfo.RandomNickName |
