/**
 Trimming and case mapping of text. Characters beyond ASCII go through a table
 of the Unicode standard that is passed in, so nothing is said about them.
 */
module Text {

  datatype Unicode = Unicode(lower: char -> char, upper: char -> char, space: char -> bool)

  predicate IsAscii(c: char) { c as int < 128 }

  predicate IsUpper(c: char) { 'A' <= c <= 'Z' }

  predicate IsLower(c: char) { 'a' <= c <= 'z' }

  function LowerChar(u: Unicode, c: char): char {
    if !IsAscii(c) then u.lower(c) else if IsUpper(c) then c + 32 as char else c
  }

  function UpperChar(u: Unicode, c: char): char {
    if !IsAscii(c) then u.upper(c) else if IsLower(c) then c - 32 as char else c
  }

  /** The ASCII white space is tab to carriage return and the space. */
  predicate IsSpace(u: Unicode, c: char) {
    if !IsAscii(c) then u.space(c) else c == ' ' || 9 <= c as int <= 13
  }

  function ToLower(u: Unicode, s: string): (r: string)
    ensures |r| == |s|
    ensures forall i | 0 <= i < |s| :: r[i] == LowerChar(u, s[i])
  {
    seq(|s|, i requires 0 <= i < |s| => LowerChar(u, s[i]))
  }

  function ToUpper(u: Unicode, s: string): (r: string)
    ensures |r| == |s|
    ensures forall i | 0 <= i < |s| :: r[i] == UpperChar(u, s[i])
  {
    seq(|s|, i requires 0 <= i < |s| => UpperChar(u, s[i]))
  }

  function TrimLeft(space: char -> bool, s: string): string {
    if s != "" && space(s[0]) then TrimLeft(space, s[1..]) else s
  }

  function TrimRight(space: char -> bool, s: string): string {
    if s != "" && space(s[|s| - 1]) then TrimRight(space, s[..|s| - 1]) else s
  }

  /** Removal of all leading and trailing characters of a class. */
  function Trim(space: char -> bool, s: string): string {
    TrimRight(space, TrimLeft(space, s))
  }

  function TrimSpace(u: Unicode, s: string): string {
    Trim(c => IsSpace(u, c), s)
  }

  ghost predicate Trimmed(space: char -> bool, s: string) {
    s == "" || (!space(s[0]) && !space(s[|s| - 1]))
  }

  lemma TrimLeftSuffix(space: char -> bool, s: string) returns (i: nat)
    ensures i <= |s| && TrimLeft(space, s) == s[i..]
    ensures forall k | 0 <= k < i :: space(s[k])
    ensures i < |s| ==> !space(s[i])
  {
    if s != "" && space(s[0]) {
      var k := TrimLeftSuffix(space, s[1..]);
      i := k + 1;
      assert s[1..][k..] == s[i..];
      assert forall m | 1 <= m < i :: s[m] == s[1..][m - 1];
    } else {
      i := 0;
    }
  }

  lemma TrimRightPrefix(space: char -> bool, s: string) returns (j: nat)
    ensures j <= |s| && TrimRight(space, s) == s[..j]
    ensures forall k | j <= k < |s| :: space(s[k])
    ensures j > 0 ==> !space(s[j - 1])
  {
    if s != "" && space(s[|s| - 1]) {
      j := TrimRightPrefix(space, s[..|s| - 1]);
      assert s[..|s| - 1][..j] == s[..j];
      assert forall m | j <= m < |s| - 1 :: s[m] == s[..|s| - 1][m];
    } else {
      j := |s|;
    }
  }

  /** Trimming cuts the text to its part between the first and the last other character. */
  lemma TrimIsSlice(space: char -> bool, s: string) returns (i: nat, j: nat)
    ensures i <= j <= |s| && Trim(space, s) == s[i..j]
    ensures forall k | 0 <= k < i || j <= k < |s| :: space(s[k])
    ensures Trimmed(space, Trim(space, s))
  {
    i := TrimLeftSuffix(space, s);
    var d := TrimRightPrefix(space, s[i..]);
    j := i + d;
    assert s[i..][..d] == s[i..j];
    forall k | 0 <= k < i || j <= k < |s| ensures space(s[k]) {
      if k >= j {
        assert s[i..][k - i] == s[k];
      }
    }
    if d > 0 {
      assert s[i..][0] == s[i] && s[i..][d - 1] == s[j - 1];
    }
  }

  lemma TrimTrimmed(space: char -> bool, s: string)
    requires Trimmed(space, s)
    ensures Trim(space, s) == s
  {
  }

  // ---------- trimming and case mapping in plain terms ----------

  /** Tab, line feed, vertical tab, form feed, carriage return, space, and what the table says beyond ASCII. */
  predicate White(u: Unicode, c: char) {
    if c < 128 as char then c in {'\t', '\n', 11 as char, 12 as char, '\r', ' '} else u.space(c)
  }

  /** `s[i..j]` is what is left of `s` without the white space around it. */
  ghost predicate Core(u: Unicode, s: string, i: int, j: int) {
    && 0 <= i <= j <= |s| && (forall k | 0 <= k < i || j <= k < |s| :: White(u, s[k]))
    && (i < j ==> !White(u, s[i]) && !White(u, s[j - 1]))
  }

  /** The same character up to the case of ASCII letters; beyond ASCII the table decides. */
  predicate SameLetter(u: Unicode, c: char, d: char) {
    || c == d
    || ('A' <= c <= 'Z' && d as int == c as int + 32)
    || ('A' <= d <= 'Z' && c as int == d as int + 32)
    || ((c >= 128 as char || d >= 128 as char) && LowerChar(u, c) == LowerChar(u, d))
  }

  predicate SameLetters(u: Unicode, x: string, y: string) {
    |x| == |y| && forall k | 0 <= k < |x| :: SameLetter(u, x[k], y[k])
  }

  /** Two texts that differ at most in the white space around them and in the case of letters. */
  ghost predicate SameText(u: Unicode, a: string, b: string) {
    exists i, j, k, l :: Core(u, a, i, j) && Core(u, b, k, l) && SameLetters(u, a[i..j], b[k..l])
  }

  lemma SpaceIsWhite(u: Unicode, c: char)
    ensures IsSpace(u, c) <==> White(u, c)
  {
  }

  /** Trimming finds the core. */
  lemma TrimSpaceFindsCore(u: Unicode, s: string) returns (i: nat, j: nat)
    ensures Core(u, s, i, j) && TrimSpace(u, s) == s[i..j]
  {
    var space := c => IsSpace(u, c);
    i, j := TrimIsSlice(space, s);
    forall k | 0 <= k < |s| ensures space(s[k]) <==> White(u, s[k]) {
      SpaceIsWhite(u, s[k]);
    }
    if i < j {
      assert s[i..j][0] == s[i] && s[i..j][j - i - 1] == s[j - 1];
    }
  }

  /** A text has only one core. */
  lemma CoreUnique(u: Unicode, s: string, i: int, j: int, k: int, l: int)
    requires Core(u, s, i, j) && Core(u, s, k, l)
    ensures s[i..j] == s[k..l]
  {
    if i < j {
      assert k <= i && j <= l;
      assert i <= k && l <= j;
    }
  }

  lemma SameLetterIff(u: Unicode, c: char, d: char)
    ensures LowerChar(u, c) == LowerChar(u, d) <==> SameLetter(u, c, d)
  {
  }
}
