/**
 Input validation and the preimages of the peppered hashes: every part is
 trimmed and lower-cased and the parts are joined by '|'.
 */
module Preimage {
  import opened Text
  import Decimal

  datatype Input = Input(image: string, name: string, dob: string, gender: string)

  datatype Validation = Valid | ImageRequired | NameRequired | DobRequired | DobMalformed | GenderRequired | GenderUnknown

  predicate IsLeap(year: nat) {
    year % 4 == 0 && (year % 100 != 0 || year % 400 == 0)
  }

  function DaysIn(month: nat, year: nat): nat {
    if month == 2 then (if IsLeap(year) then 29 else 28)
    else if month in {4, 6, 9, 11} then 30
    else 31
  }

  /** The layout 2006-01-02: four digits, two, two, and a day that exists. */
  predicate IsDate(s: string) {
    && |s| == 10 && s[4] == '-' && s[7] == '-'
    && (forall i | 0 <= i < 10 && i != 4 && i != 7 :: Decimal.IsDigit(s[i]))
    && var year, month, day := Decimal.Value(s[..4]), Decimal.Value(s[5..7]), Decimal.Value(s[8..]);
      1 <= month <= 12 && 1 <= day <= DaysIn(month, year)
  }

  function ValidateInput(u: Unicode, input: Input): Validation {
    if |input.image| == 0 then ImageRequired
    else if TrimSpace(u, input.name) == "" then NameRequired
    else if TrimSpace(u, input.dob) == "" then DobRequired
    else if !IsDate(input.dob) then DobMalformed
    else
      var gender := ToUpper(u, TrimSpace(u, input.gender));
      if gender == "" then GenderRequired
      else if gender !in {"M", "F", "O", "MALE", "FEMALE", "OTHER"} then GenderUnknown
      else Valid
  }

  function Normalize(u: Unicode, s: string): string {
    ToLower(u, TrimSpace(u, s))
  }

  /** The normalised parts with '|' between them. */
  function Joined(u: Unicode, parts: seq<string>): string {
    if parts == [] then ""
    else if |parts| == 1 then Normalize(u, parts[0])
    else Joined(u, parts[..|parts| - 1]) + "|" + Normalize(u, parts[|parts| - 1])
  }

  /** `PepperHash` writes the parts one by one into the keyed hash `mac`. */
  method PepperHash(u: Unicode, mac: string -> string, parts: seq<string>) returns (r: string)
    ensures r == mac(Joined(u, parts))
  {
    var written := "";
    for i := 0 to |parts|
      invariant written == Joined(u, parts[..i])
    {
      assert parts[..i + 1][..i] == parts[..i];
      if i > 0 {
        written := written + "|";
      }
      written := written + Normalize(u, parts[i]);
    }
    assert parts[..|parts|] == parts;
    r := mac(written);
  }

  function DemographicHash(u: Unicode, mac: string -> string, dob: string, gender: string): string {
    mac(Joined(u, [dob, gender]))
  }

  function NameHash(u: Unicode, mac: string -> string, name: string): string {
    mac(Joined(u, [name]))
  }

  lemma DemographicPreimage(u: Unicode, dob: string, gender: string)
    ensures Joined(u, [dob, gender]) == Normalize(u, dob) + "|" + Normalize(u, gender)
  {
    assert [dob, gender][..1] == [dob];
  }

  // ---------- what normalisation does ----------

  /** A part is hashed without the white space around it and with its capital letters made small; beyond ASCII the table decides. */
  lemma NormalizeIs(u: Unicode, s: string) returns (i: nat, j: nat)
    ensures Core(u, s, i, j) && |Normalize(u, s)| == j - i
    ensures forall k | 0 <= k < j - i :: Normalize(u, s)[k]
              == var c := s[i + k];
                 if c >= 128 as char then u.lower(c) else if 'A' <= c <= 'Z' then (c as int + 32) as char else c
  {
    i, j := TrimSpaceFindsCore(u, s);
  }

  /** Normalisation identifies exactly the texts that differ at most in outer white space and in case. */
  lemma NormalizeEqualIff(u: Unicode, a: string, b: string)
    ensures Normalize(u, a) == Normalize(u, b) <==> SameText(u, a, b)
  {
    var i, j := TrimSpaceFindsCore(u, a);
    var k, l := TrimSpaceFindsCore(u, b);
    var x, y := a[i..j], b[k..l];
    LowerEqualIff(u, x, y);
    if SameText(u, a, b) {
      var i', j', k', l' :| Core(u, a, i', j') && Core(u, b, k', l') && SameLetters(u, a[i'..j'], b[k'..l']);
      CoreUnique(u, a, i, j, i', j');
      CoreUnique(u, b, k, l, k', l');
    }
  }

  lemma LowerEqualIff(u: Unicode, x: string, y: string)
    ensures ToLower(u, x) == ToLower(u, y) <==> SameLetters(u, x, y)
  {
    forall k | 0 <= k < |x| && k < |y| ensures LowerChar(u, x[k]) == LowerChar(u, y[k]) <==> SameLetter(u, x[k], y[k]) {
      SameLetterIff(u, x[k], y[k]);
    }
    hide LowerChar, SameLetter;
    if ToLower(u, x) == ToLower(u, y) {
      assert |x| == |y|;
      assert forall k | 0 <= k < |x| :: ToLower(u, x)[k] == ToLower(u, y)[k];
    }
  }

  /** A date is left alone by normalisation: it has neither white space nor capitals. */
  lemma DateIsNormal(u: Unicode, dob: string)
    requires IsDate(dob)
    ensures Normalize(u, dob) == dob
  {
    var space := c => IsSpace(u, c);
    assert Decimal.IsDigit(dob[0]) && Decimal.IsDigit(dob[9]);
    assert Trimmed(space, dob);
    TrimTrimmed(space, dob);
    assert forall i | 0 <= i < 10 :: LowerChar(u, dob[i]) == dob[i];
  }

  /** Two validated inputs have equal demographic preimages exactly when the dates of birth are
      equal and the genders differ at most in outer white space and in case. */
  lemma DemographicPreimagesEqualIff(u: Unicode, a: Input, b: Input)
    requires ValidateInput(u, a) == Valid && ValidateInput(u, b) == Valid
    ensures Joined(u, [a.dob, a.gender]) == Joined(u, [b.dob, b.gender]) <==>
            a.dob == b.dob && SameText(u, a.gender, b.gender)
  {
    DemographicPreimage(u, a.dob, a.gender);
    DemographicPreimage(u, b.dob, b.gender);
    DateIsNormal(u, a.dob);
    DateIsNormal(u, b.dob);
    NormalizeEqualIff(u, a.gender, b.gender);
    hide Normalize, Joined, ToUpper, TrimSpace;
    var p, q := a.dob + "|" + Normalize(u, a.gender), b.dob + "|" + Normalize(u, b.gender);
    assert p[..10] == a.dob && p[11..] == Normalize(u, a.gender);
    assert q[..10] == b.dob && q[11..] == Normalize(u, b.gender);
  }

  /** With a keyed hash that does not collide on the two preimages, the stored hashes
      of validated inputs match exactly when the demographics do. */
  lemma DemographicHashesEqualIff(u: Unicode, mac: string -> string, a: Input, b: Input)
    requires ValidateInput(u, a) == Valid && ValidateInput(u, b) == Valid
    requires mac(Joined(u, [a.dob, a.gender])) == mac(Joined(u, [b.dob, b.gender])) ==>
               Joined(u, [a.dob, a.gender]) == Joined(u, [b.dob, b.gender])
    ensures DemographicHash(u, mac, a.dob, a.gender) == DemographicHash(u, mac, b.dob, b.gender) <==>
            a.dob == b.dob && SameText(u, a.gender, b.gender)
  {
    DemographicPreimagesEqualIff(u, a, b);
  }

  /** What is hashed for a validated input is its date, a bar, and its normalised gender; for a name the name alone. */
  lemma HashedTexts(u: Unicode, mac: string -> string, a: Input)
    requires ValidateInput(u, a) == Valid
    ensures DemographicHash(u, mac, a.dob, a.gender) == mac(a.dob + "|" + Normalize(u, a.gender))
    ensures NameHash(u, mac, a.name) == mac(Normalize(u, a.name))
  {
    DemographicPreimage(u, a.dob, a.gender);
    DateIsNormal(u, a.dob);
  }

  // ---------- which inputs are valid ----------

  /** The days of the months of a common year. */
  const MONTHS := [31, 28, 31, 30, 31, 30, 31, 31, 30, 31, 30, 31]

  /** `n` written with exactly `width` digits. */
  function Padded(n: nat, width: nat): string {
    if width == 0 then "" else Padded(n / 10, width - 1) + [(n % 10) as char + '0']
  }

  /** A day of the Gregorian calendar between the years 0 and 9999, leap years being those divisible by 4 that are
      divisible by 400 if by 100. */
  predicate Exists(year: nat, month: nat, day: nat) {
    && year <= 9999 && 1 <= month <= 12 && day >= 1
    && day <= MONTHS[month - 1] + (if month == 2 && (year % 400 == 0 || (year % 4 == 0 && year % 100 != 0)) then 1 else 0)
  }

  lemma {:induction false} PaddedValue(n: nat, width: nat, bound: nat)
    requires bound == Power(width) && n < bound
    ensures |Padded(n, width)| == width && Decimal.AllDigits(Padded(n, width)) && Decimal.Value(Padded(n, width)) == n
  {
    if width > 0 {
      PaddedValue(n / 10, width - 1, Power(width - 1));
      var s := Padded(n, width);
      assert s[..width - 1] == Padded(n / 10, width - 1);
    }
  }

  function Power(width: nat): nat {
    if width == 0 then 1 else 10 * Power(width - 1)
  }

  /** Digits are the padded numeral of their value. */
  lemma {:induction false} ValuePadded(s: string)
    requires Decimal.AllDigits(s)
    ensures Padded(Decimal.Value(s), |s|) == s && Decimal.Value(s) < Power(|s|)
  {
    if s != "" {
      var init, last := s[..|s| - 1], s[|s| - 1];
      ValuePadded(init);
      var v := Decimal.Value(s);
      assert v / 10 == Decimal.Value(init) && v % 10 == Decimal.Digit(last);
      assert init + [last] == s;
    }
  }

  lemma DaysOfMonths(year: nat, month: nat, day: nat)
    requires year <= 9999
    ensures Exists(year, month, day) <==> 1 <= month <= 12 && 1 <= day <= DaysIn(month, year)
  {
  }

  /** The accepted dates are exactly the days of the calendar in four, two and two digits. */
  lemma IsDateIff(s: string)
    ensures IsDate(s) <==> exists year, month, day ::
              Exists(year, month, day) && s == Padded(year, 4) + "-" + Padded(month, 2) + "-" + Padded(day, 2)
  {
    hide Padded, Exists, DaysIn;
    if IsDate(s) {
      var year, month, day := Decimal.Value(s[..4]), Decimal.Value(s[5..7]), Decimal.Value(s[8..]);
      ValuePadded(s[..4]);
      ValuePadded(s[5..7]);
      ValuePadded(s[8..]);
      Powers();
      DaysOfMonths(year, month, day);
      assert s == s[..4] + "-" + s[5..7] + "-" + s[8..];
    }
    if year, month, day :| Exists(year, month, day) && s == Padded(year, 4) + "-" + Padded(month, 2) + "-" + Padded(day, 2) {
      ExistsBounds(year, month, day);
      Powers();
      PaddedValue(year, 4, 10000);
      PaddedValue(month, 2, 100);
      PaddedValue(day, 2, 100);
      DaysOfMonths(year, month, day);
      assert s[..4] == Padded(year, 4) && s[5..7] == Padded(month, 2) && s[8..] == Padded(day, 2);
      DateOfParts(s);
    }
  }

  lemma DateOfParts(s: string)
    requires |s| == 10 && s[4] == '-' && s[7] == '-'
    requires Decimal.AllDigits(s[..4]) && Decimal.AllDigits(s[5..7]) && Decimal.AllDigits(s[8..])
    ensures forall i | 0 <= i < 10 && i != 4 && i != 7 :: Decimal.IsDigit(s[i])
  {
    forall i | 0 <= i < 10 && i != 4 && i != 7 ensures Decimal.IsDigit(s[i]) {
      assert i < 4 ==> s[..4][i] == s[i];
      assert 5 <= i < 7 ==> s[5..7][i - 5] == s[i];
      assert i >= 8 ==> s[8..][i - 8] == s[i];
    }
  }

  lemma ExistsBounds(year: nat, month: nat, day: nat)
    requires Exists(year, month, day)
    ensures year < 10000 && month < 100 && day < 100
  {
  }

  lemma Powers()
    ensures Power(2) == 100 && Power(4) == 10000
  {
    assert Power(1) == 10 && Power(2) == 100 && Power(3) == 1000;
  }

  /** A text is one of the six words for a gender, in any case and with any white space around it. */
  ghost predicate MeansGender(u: Unicode, s: string) {
    exists i, j, word :: Core(u, s, i, j) && word in {"m", "f", "o", "male", "female", "other"} && Spells(u, s[i..j], word)
  }

  /** `x` spells a word of small letters, which any letters may that the table capitalises to the same. */
  predicate Spells(u: Unicode, x: string, word: string) {
    && |x| == |word|
    && forall k | 0 <= k < |x| ::
         || x[k] == word[k] || x[k] as int == word[k] as int - 32
         || (x[k] >= 128 as char && u.upper(x[k]) as int == word[k] as int - 32)
  }

  lemma SpellsIff(u: Unicode, x: string, word: string, capital: string)
    requires |capital| == |word| && forall k | 0 <= k < |word| :: 'a' <= word[k] <= 'z' && capital[k] as int == word[k] as int - 32
    ensures Spells(u, x, word) <==> ToUpper(u, x) == capital
  {
    if ToUpper(u, x) == capital {
      assert forall k | 0 <= k < |x| :: UpperChar(u, x[k]) == capital[k];
    }
    if Spells(u, x, word) {
      assert forall k | 0 <= k < |x| :: ToUpper(u, x)[k] == capital[k];
    }
  }

  lemma GenderIff(u: Unicode, s: string)
    ensures MeansGender(u, s) <==> ToUpper(u, TrimSpace(u, s)) in {"M", "F", "O", "MALE", "FEMALE", "OTHER"}
  {
    var i, j := TrimSpaceFindsCore(u, s);
    var x := s[i..j];
    SpellsIff(u, x, "m", "M");
    SpellsIff(u, x, "f", "F");
    SpellsIff(u, x, "o", "O");
    SpellsIff(u, x, "male", "MALE");
    SpellsIff(u, x, "female", "FEMALE");
    SpellsIff(u, x, "other", "OTHER");
    hide Spells, ToUpper, TrimSpace;
    if MeansGender(u, s) {
      var k, l, word :| Core(u, s, k, l) && word in {"m", "f", "o", "male", "female", "other"} && Spells(u, s[k..l], word);
      CoreUnique(u, s, i, j, k, l);
    }
  }

  ghost predicate Blank(u: Unicode, s: string) {
    forall k | 0 <= k < |s| :: White(u, s[k])
  }

  lemma BlankIff(u: Unicode, s: string)
    ensures Blank(u, s) <==> TrimSpace(u, s) == ""
  {
    var i, j := TrimSpaceFindsCore(u, s);
  }

  /** An input is valid exactly when it has an image, a name that is not blank, a day of the calendar and a known gender; otherwise
      the first of these that is missing is reported. */
  lemma ValidInputIff(u: Unicode, a: Input)
    ensures var v := ValidateInput(u, a);
            && (v == Valid <==> a.image != "" && !Blank(u, a.name) && IsDate(a.dob) && MeansGender(u, a.gender))
            && (v == ImageRequired <==> a.image == "")
            && (v == NameRequired <==> a.image != "" && Blank(u, a.name))
            && (v == DobRequired <==> a.image != "" && !Blank(u, a.name) && Blank(u, a.dob))
            && (v == DobMalformed <==> a.image != "" && !Blank(u, a.name) && !Blank(u, a.dob) && !IsDate(a.dob))
            && (v == GenderRequired <==> a.image != "" && !Blank(u, a.name) && IsDate(a.dob) && Blank(u, a.gender))
  {
    GenderIff(u, a.gender);
    BlankIff(u, a.name);
    BlankIff(u, a.dob);
    BlankIff(u, a.gender);
    if IsDate(a.dob) {
      DateIsNormal(u, a.dob);
      assert |a.dob| == 10 && Normalize(u, a.dob) == a.dob;
    }
    hide MeansGender, IsDate, Blank, TrimSpace;
    assert ToUpper(u, TrimSpace(u, a.gender)) == "" <==> TrimSpace(u, a.gender) == "";
  }

  /** Normalised parts without '|' of their own can be read back from the joined text. */
  lemma {:induction false} JoinInjective(u: Unicode, a: seq<string>, b: seq<string>)
    requires a != [] && b != []
    requires forall i | 0 <= i < |a| :: '|' !in Normalize(u, a[i])
    requires forall i | 0 <= i < |b| :: '|' !in Normalize(u, b[i])
    requires Joined(u, a) == Joined(u, b)
    ensures |a| == |b| && forall i | 0 <= i < |a| :: Normalize(u, a[i]) == Normalize(u, b[i])
  {
    hide Joined, Normalize;
    var s := Joined(u, a);
    var x, y := Normalize(u, a[|a| - 1]), Normalize(u, b[|b| - 1]);
    LastPart(u, a);
    LastPart(u, b);
    SameSuffix(s, x, y, |a| == 1, |b| == 1);
    if |a| > 1 {
      var a', b' := a[..|a| - 1], b[..|b| - 1];
      assert Joined(u, a') == s[..|s| - |x| - 1] == Joined(u, b');
      JoinInjective(u, a', b');
      assert forall i | 0 <= i < |a'| :: a[i] == a'[i] && b[i] == b'[i];
    }
  }

  /** Two '|'-free endings of a text, each the whole text or preceded by '|', are the same. */
  lemma SameSuffix(s: string, x: string, y: string, wholeX: bool, wholeY: bool)
    requires |x| <= |s| && s[|s| - |x|..] == x && '|' !in x
    requires |y| <= |s| && s[|s| - |y|..] == y && '|' !in y
    requires if wholeX then |x| == |s| else |x| < |s| && s[|s| - |x| - 1] == '|'
    requires if wholeY then |y| == |s| else |y| < |s| && s[|s| - |y| - 1] == '|'
    ensures x == y && wholeX == wholeY
  {
    assert forall k | |s| - |x| <= k < |s| :: s[k] == x[k - (|s| - |x|)];
    assert forall k | |s| - |y| <= k < |s| :: s[k] == y[k - (|s| - |y|)];
  }

  /** The joined text ends in the last part, which a '|' precedes unless it is the only one. */
  lemma LastPart(u: Unicode, a: seq<string>)
    requires a != []
    ensures var s, x := Joined(u, a), Normalize(u, a[|a| - 1]);
            && |s| >= |x| && s[|s| - |x|..] == x
            && (if |a| == 1 then |s| == |x|
                else |s| > |x| && s[|s| - |x| - 1] == '|' && s[..|s| - |x| - 1] == Joined(u, a[..|a| - 1]))
  {
  }

  /** On arbitrary text the join is not injective: different names and dates share a preimage. */
  lemma JoinNotInjective(u: Unicode)
    ensures Joined(u, ["a|b", "c"]) == Joined(u, ["a", "b|c"])
    ensures Normalize(u, "a|b") != Normalize(u, "a")
  {
    var space := c => IsSpace(u, c);
    DemographicPreimage(u, "a|b", "c");
    DemographicPreimage(u, "a", "b|c");
    forall s | s in {"a|b", "c", "a", "b|c"} ensures Normalize(u, s) == s {
      assert Trimmed(space, s);
      TrimTrimmed(space, s);
      assert forall i | 0 <= i < |s| :: LowerChar(u, s[i]) == s[i];
    }
  }
}
