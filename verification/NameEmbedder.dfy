/**
 The deterministic name embedding of the inference service: a normal form of
 names, its character n-grams, and their signed accumulation in 768 buckets.
 Unicode decomposition and lower-casing, the two digests and the square root are
 parameters of which only the stated laws are used.
 */
module NameEmbedder {
  import opened Text
  import Decimal
  import Vectors

  const DIM := 768

  // ---------- the normal form ----------

  /** `fold` decomposes, drops combining marks and lower-cases; `space` is the white space of the regular expressions. */
  datatype Charset = Charset(fold: string -> string, space: char -> bool)

  predicate Plain(c: char) {
    'a' <= c <= 'z' || '0' <= c <= '9'
  }

  predicate Clean(c: char) {
    Plain(c) || c == ' '
  }

  predicate AllClean(s: string) {
    forall i | 0 <= i < |s| :: Clean(s[i])
  }

  predicate NoDoubleSpace(s: string) {
    forall i | 0 <= i < |s| - 1 :: s[i] != ' ' || s[i + 1] != ' '
  }

  /** On lower-case ASCII folding does nothing, and the only white space there is the space. */
  ghost predicate Standard(u: Charset) {
    && (forall s | AllClean(s) :: u.fold(s) == s)
    && u.space(' ') && forall c | Plain(c) :: !u.space(c)
  }

  /** Every maximal run of characters of a class becomes one space. */
  function Squeeze(s: string, p: char -> bool): string {
    if s == "" then ""
    else
      var init, last := s[..|s| - 1], s[|s| - 1];
      if !p(last) then Squeeze(init, p) + [last]
      else if init != "" && p(init[|init| - 1]) then Squeeze(init, p)
      else Squeeze(init, p) + " "
  }

  function Normalize(u: Charset, name: string): string {
    Squeeze(Squeeze(Trim(u.space, u.fold(name)), c => !Clean(c)), u.space)
  }

  lemma {:induction false} SqueezeUncleanIsClean(s: string)
    ensures AllClean(Squeeze(s, c => !Clean(c)))
  {
    if s != "" {
      SqueezeUncleanIsClean(s[..|s| - 1]);
    }
  }

  lemma {:induction false} SqueezeSpaces(u: Charset, s: string)
    requires Standard(u) && AllClean(s)
    ensures var r := Squeeze(s, u.space);
            && AllClean(r) && NoDoubleSpace(r)
            && (r == "" <==> s == "") && (r != "" ==> (r[|r| - 1] == ' ' <==> s[|s| - 1] == ' '))
  {
    if s != "" {
      var init, last := s[..|s| - 1], s[|s| - 1];
      assert Clean(last);
      SqueezeSpaces(u, init);
      assert init != "" ==> Clean(init[|init| - 1]);
    }
  }

  /** The letters and digits are the code points 97 to 122 and 48 to 57. */
  lemma PlainCodes(c: char)
    ensures Plain(c) <==> 97 <= c as int <= 122 || 48 <= c as int <= 57
  {
  }

  /** A normalised name has only lower-case letters, digits and single spaces. */
  lemma NormalForm(u: Charset, name: string)
    requires Standard(u)
    ensures AllClean(Normalize(u, name)) && NoDoubleSpace(Normalize(u, name))
  {
    var t := Trim(u.space, u.fold(name));
    SqueezeUncleanIsClean(t);
    SqueezeSpaces(u, Squeeze(t, c => !Clean(c)));
  }

  lemma {:induction false} SqueezeCleanIdentity(s: string)
    requires AllClean(s)
    ensures Squeeze(s, c => !Clean(c)) == s
  {
    if s != "" {
      SqueezeCleanIdentity(s[..|s| - 1]);
    }
  }

  lemma {:induction false} SqueezeSingleIdentity(u: Charset, s: string)
    requires Standard(u) && AllClean(s) && NoDoubleSpace(s)
    ensures Squeeze(s, u.space) == s
  {
    if s != "" {
      var init, last := s[..|s| - 1], s[|s| - 1];
      assert Clean(last);
      SqueezeSingleIdentity(u, init);
      assert init != "" ==> Clean(init[|init| - 1]);
      assert init + [last] == s;
    }
  }

  /** Normalising a normalised name only strips it. */
  lemma NormalizeTwice(u: Charset, name: string)
    requires Standard(u)
    ensures Normalize(u, Normalize(u, name)) == Trim(u.space, Normalize(u, name))
  {
    var y := Normalize(u, name);
    NormalForm(u, name);
    var i, j := TrimIsSlice(u.space, y);
    SqueezeCleanIdentity(y[i..j]);
    SqueezeSingleIdentity(u, y[i..j]);
  }

  /** From the second pass on normalising changes nothing. */
  lemma NormalizeStable(u: Charset, name: string)
    requires Standard(u)
    ensures var twice := Normalize(u, Normalize(u, name)); Normalize(u, twice) == twice
  {
    var y := Normalize(u, name);
    NormalizeTwice(u, name);
    NormalizeTwice(u, y);
    var _, _ := TrimIsSlice(u.space, y);
    TrimTrimmed(u.space, Trim(u.space, y));
  }

  lemma {:induction false} SqueezeEnds(s: string, p: char -> bool)
    requires s != ""
    ensures var r := Squeeze(s, p);
            && r != "" && r[0] == (if p(s[0]) then ' ' else s[0])
            && r[|r| - 1] == (if p(s[|s| - 1]) then ' ' else s[|s| - 1])
  {
    if |s| > 1 {
      SqueezeEnds(s[..|s| - 1], p);
    }
  }

  /** One pass is already stable exactly when the folded, stripped name begins and ends with a letter or
      digit: punctuation at an end is replaced by a space after the stripping. */
  lemma NormalizeOnceStableIff(u: Charset, name: string)
    requires Standard(u)
    ensures var t := Trim(u.space, u.fold(name));
            Normalize(u, Normalize(u, name)) == Normalize(u, name)
            <==> t == "" || (Plain(t[0]) && Plain(t[|t| - 1]))
  {
    var t, y := Trim(u.space, u.fold(name)), Normalize(u, name);
    NormalizeTwice(u, name);
    var _, _ := TrimIsSlice(u.space, y);
    var _, _ := TrimIsSlice(u.space, u.fold(name));
    assert Trim(u.space, y) == y <==> Trimmed(u.space, y) by {
      if Trimmed(u.space, y) {
        TrimTrimmed(u.space, y);
      }
    }
    if t != "" {
      SqueezeEnds(t, c => !Clean(c));
      SqueezeEnds(Squeeze(t, c => !Clean(c)), u.space);
    }
  }

  // ---------- tokens ----------

  /** The maximal runs of other characters than white space. */
  function Tokens(space: char -> bool, s: string): (r: seq<string>)
    ensures s != "" && !space(s[|s| - 1]) ==> r != []
  {
    if s == "" then []
    else
      var init, last := s[..|s| - 1], s[|s| - 1];
      var before := Tokens(space, init);
      if space(last) then before
      else if init == "" || space(init[|init| - 1]) then before + [[last]]
      else before[..|before| - 1] + [before[|before| - 1] + [last]]
  }

  lemma {:induction false} TokensOfBlank(space: char -> bool, s: string)
    requires forall k | 0 <= k < |s| :: space(s[k])
    ensures Tokens(space, s) == []
  {
    if s != "" {
      TokensOfBlank(space, s[..|s| - 1]);
    }
  }

  lemma {:induction false} TokensSkipLeading(space: char -> bool, s: string, i: nat)
    requires i <= |s| && forall k | 0 <= k < i :: space(s[k])
    ensures Tokens(space, s) == Tokens(space, s[i..])
    decreases |s|
  {
    if i == |s| {
      TokensOfBlank(space, s);
    } else if i == |s| - 1 {
      TokensOfBlank(space, s[..i]);
      assert s[i..] == [s[i]] && s[i..][..0] == "";
    } else {
      var init, tail := s[..|s| - 1], s[i..];
      TokensSkipLeading(space, init, i);
      assert tail[..|tail| - 1] == init[i..];
      assert tail[|tail| - 1] == s[|s| - 1] && init[i..][|tail| - 2] == init[|init| - 1];
    }
  }

  lemma {:induction false} TokensSkipTrailing(space: char -> bool, s: string, j: nat)
    requires j <= |s| && forall k | j <= k < |s| :: space(s[k])
    ensures Tokens(space, s) == Tokens(space, s[..j])
    decreases |s|
  {
    if j < |s| {
      TokensSkipTrailing(space, s[..|s| - 1], j);
      assert s[..|s| - 1][..j] == s[..j];
    } else {
      assert s[..j] == s;
    }
  }

  /** The tokens of a name are the same after every pass. */
  lemma TokensStable(u: Charset, name: string)
    requires Standard(u)
    ensures Tokens(u.space, Normalize(u, Normalize(u, name))) == Tokens(u.space, Normalize(u, name))
  {
    var y := Normalize(u, name);
    NormalizeTwice(u, name);
    var i, j := TrimIsSlice(u.space, y);
    TokensSkipTrailing(u.space, y, j);
    TokensSkipLeading(u.space, y[..j], i);
    assert y[..j][i..] == y[i..j];
  }

  /** Words with one space between them. */
  function Spaced(words: seq<string>): string {
    if words == [] then "" else if |words| == 1 then words[0] else Spaced(words[..|words| - 1]) + " " + words[|words| - 1]
  }

  lemma NoTokens(space: char -> bool)
    ensures Tokens(space, "") == [] && Spaced([]) == ""
  {
  }

  lemma SpacedOneMore(words: seq<string>, w: string)
    ensures Spaced(words + [w]) == if words == [] then w else Spaced(words) + " " + w
  {
    assert (words + [w])[..|words|] == words;
  }

  lemma SpacedLonger(words: seq<string>, w: string, c: char)
    ensures Spaced(words + [w + [c]]) == Spaced(words + [w]) + [c]
  {
    hide Spaced;
    SpacedOneMore(words, w + [c]);
    SpacedOneMore(words, w);
    if words != [] {
      var s := Spaced(words) + " ";
      assert s + (w + [c]) == (s + w) + [c];
    }
  }

  lemma TokensOneMore(space: char -> bool, init: string, c: char)
    ensures var before := Tokens(space, init);
            Tokens(space, init + [c])
            == if space(c) then before
               else if init == "" || space(init[|init| - 1]) then before + [[c]]
               else before[..|before| - 1] + [before[|before| - 1] + [c]]
  {
    assert (init + [c])[..|init|] == init;
  }

  /** A normal form without a space in front is its tokens with single spaces between them, and perhaps one behind. */
  lemma {:induction false} TextOfTokens(u: Charset, y: string)
    requires Standard(u) && AllClean(y) && NoDoubleSpace(y) && (y != "" ==> y[0] != ' ')
    ensures y == Spaced(Tokens(u.space, y)) + if y != "" && y[|y| - 1] == ' ' then " " else ""
  {
    hide Spaced, Tokens, Standard, AllClean, NoDoubleSpace;
    NoTokens(u.space);
    if y != "" {
      var init, last := y[..|y| - 1], y[|y| - 1];
      var before := Tokens(u.space, init);
      LastOfNormalForm(u, init, last, y);
      TextOfTokens(u, init);
      TokensOneMore(u.space, init, last);
      if last != ' ' {
        if init == "" || init[|init| - 1] == ' ' {
          WordBegins(before, init, last);
        } else {
          WordGoesOn(before, init, last);
        }
      }
    }
  }

  lemma LastOfNormalForm(u: Charset, init: string, last: char, y: string)
    requires Standard(u) && AllClean(y) && NoDoubleSpace(y) && y == init + [last]
    ensures AllClean(init) && NoDoubleSpace(init) && (u.space(last) <==> last == ' ')
    ensures init != "" ==> (u.space(init[|init| - 1]) <==> init[|init| - 1] == ' ') && (init[|init| - 1] != ' ' || last != ' ')
    ensures init != "" ==> init[0] == y[0]
  {
    assert forall i | 0 <= i < |init| :: init[i] == y[i];
    assert y[|init|] == last && Clean(last);
    if init != "" {
      assert Clean(y[|init| - 1]);
    }
  }

  lemma WordBegins(words: seq<string>, text: string, c: char)
    requires text == "" || text[|text| - 1] == ' '
    requires text == Spaced(words) + (if text != "" then " " else "") && (text != "" ==> text[0] != ' ')
    requires text == "" ==> words == []
    ensures Spaced(words + [[c]]) == text + [c]
  {
    SpacedOneMore(words, [c]);
    if words == [] {
      assert Spaced(words) == "";
    }
  }

  lemma WordGoesOn(words: seq<string>, text: string, c: char)
    requires words != [] && text == Spaced(words)
    ensures Spaced(words[..|words| - 1] + [words[|words| - 1] + [c]]) == text + [c]
  {
    hide Spaced;
    SpacedLonger(words[..|words| - 1], words[|words| - 1], c);
    assert words == words[..|words| - 1] + [words[|words| - 1]];
  }

  lemma {:induction false} TokensByClass(p: char -> bool, q: char -> bool, s: string)
    requires forall c | c in s :: p(c) <==> q(c)
    ensures Tokens(p, s) == Tokens(q, s)
  {
    if s != "" {
      var init, last := s[..|s| - 1], s[|s| - 1];
      assert last in s && forall c | c in init :: c in s;
      assert init != "" ==> init[|init| - 1] in s;
      TokensByClass(p, q, init);
    }
  }

  lemma SqueezeNothing(p: char -> bool)
    ensures Squeeze("", p) == ""
  {
  }

  ghost predicate Within(p: char -> bool, sep: char -> bool) {
    sep(' ') && forall c :: p(c) ==> sep(c)
  }

  /** Squeezing separators into spaces changes no token. */
  lemma {:induction false} TokensOfSqueezed(sep: char -> bool, p: char -> bool, s: string)
    requires Within(p, sep)
    ensures Tokens(sep, Squeeze(s, p)) == Tokens(sep, s)
  {
    hide Tokens, Squeeze, Within;
    if s == "" {
      SqueezeNothing(p);
    } else {
      var init, last := s[..|s| - 1], s[|s| - 1];
      TokensOfSqueezed(sep, p, init);
      if p(last) {
        SeparatorSqueezed(sep, p, init, last);
      } else {
        KeptSqueezed(sep, p, init, last);
      }
      assert s == init + [last];
    }
  }

  lemma SqueezeOneMore(init: string, last: char, p: char -> bool)
    ensures Squeeze(init + [last], p)
            == if !p(last) then Squeeze(init, p) + [last]
               else if init != "" && p(init[|init| - 1]) then Squeeze(init, p) else Squeeze(init, p) + " "
  {
    var s := init + [last];
    SqueezeStep(s, p);
    hide Squeeze;
    assert s[..|s| - 1] == init && s[|s| - 1] == last;
  }

  lemma SqueezeStep(s: string, p: char -> bool)
    requires s != ""
    ensures var init, last := s[..|s| - 1], s[|s| - 1];
            Squeeze(s, p) == if !p(last) then Squeeze(init, p) + [last]
                             else if init != "" && p(init[|init| - 1]) then Squeeze(init, p) else Squeeze(init, p) + " "
  {
  }

  /** A separator ends the last token, whether it is kept as a space or dropped. */
  lemma SeparatorSqueezed(sep: char -> bool, p: char -> bool, init: string, last: char)
    requires Within(p, sep) && p(last) && Tokens(sep, Squeeze(init, p)) == Tokens(sep, init)
    ensures Tokens(sep, Squeeze(init + [last], p)) == Tokens(sep, init + [last])
  {
    hide Tokens, Squeeze;
    var r := Squeeze(init, p);
    SqueezeOneMore(init, last, p);
    TokensOneMore(sep, init, last);
    TokensOneMore(sep, r, ' ');
    assert r + [' '] == r + " ";
  }

  /** A character that is kept goes on or begins the same token before and after squeezing. */
  lemma KeptSqueezed(sep: char -> bool, p: char -> bool, init: string, last: char)
    requires Within(p, sep) && !p(last) && Tokens(sep, Squeeze(init, p)) == Tokens(sep, init)
    ensures Tokens(sep, Squeeze(init + [last], p)) == Tokens(sep, init + [last])
  {
    hide Tokens, Squeeze;
    var r := Squeeze(init, p);
    SqueezeOneMore(init, last, p);
    TokensOneMore(sep, init, last);
    TokensOneMore(sep, r, last);
    if init == "" {
      SqueezeNothing(p);
    } else {
      SqueezeEnds(init, p);
      assert sep(r[|r| - 1]) <==> sep(init[|init| - 1]);
    }
  }

  /** The tokens of a normalised name are the maximal runs of letters and digits of the folded name. */
  lemma TokensAreRuns(u: Charset, name: string)
    requires Standard(u)
    ensures Tokens(u.space, Normalize(u, name)) == Tokens(c => !Plain(c), u.fold(name))
  {
    var sep, unclean, f := c => !Plain(c), c => !Clean(c), u.fold(name);
    var i, j := TrimIsSlice(u.space, f);
    forall k | 0 <= k < i || j <= k < |f| ensures sep(f[k]) {
      assert u.space(f[k]);
    }
    TokensSkipTrailing(sep, f, j);
    TokensSkipLeading(sep, f[..j], i);
    assert f[..j][i..] == f[i..j];
    TokensOfSqueezed(sep, unclean, f[i..j]);
    TokensOfSqueezed(sep, u.space, Squeeze(f[i..j], unclean));
    NormalForm(u, name);
    var y := Normalize(u, name);
    forall c | c in y ensures u.space(c) <==> sep(c) {
      assert Clean(c);
    }
    TokensByClass(u.space, sep, y);
  }

  /** What normalisation gives: the runs of letters and digits of the folded name with single spaces between them,
      and one space at an end where the stripped name has something else. */
  lemma NormalizeIs(u: Charset, name: string)
    requires Standard(u)
    ensures var t, words := Trim(u.space, u.fold(name)), Tokens(c => !Plain(c), u.fold(name));
            Normalize(u, name)
            == (if t != "" && !Plain(t[0]) then " " else "") + Spaced(words)
               + (if t != "" && words != [] && !Plain(t[|t| - 1]) then " " else "")
  {
    var t, y := Trim(u.space, u.fold(name)), Normalize(u, name);
    var _, _ := TrimIsSlice(u.space, u.fold(name));
    NormalForm(u, name);
    TokensAreRuns(u, name);
    if t == "" {
      NoTokens(u.space);
    } else {
      EndsOfNormalForm(u, name);
      WholeText(u, y);
    }
  }

  /** A normal form has a space at an end exactly where the stripped name has something other than a letter or digit. */
  lemma EndsOfNormalForm(u: Charset, name: string)
    requires Standard(u)
    ensures var t, y := Trim(u.space, u.fold(name)), Normalize(u, name);
            (t == "" <==> y == "") && (t != "" ==> (y[0] == ' ' <==> !Plain(t[0])) && (y[|y| - 1] == ' ' <==> !Plain(t[|t| - 1])))
  {
    var t := Trim(u.space, u.fold(name));
    var _, _ := TrimIsSlice(u.space, u.fold(name));
    NormalForm(u, name);
    if t != "" {
      SqueezeEnds(t, c => !Clean(c));
      SqueezeEnds(Squeeze(t, c => !Clean(c)), u.space);
    }
  }

  /** A normal form is its tokens with single spaces between them, and perhaps one at either end. */
  lemma WholeText(u: Charset, y: string)
    requires Standard(u) && AllClean(y) && NoDoubleSpace(y) && y != ""
    ensures y == (if y[0] == ' ' then " " else "") + Spaced(Tokens(u.space, y))
                 + (if Tokens(u.space, y) != [] && y[|y| - 1] == ' ' then " " else "")
  {
    hide Tokens, Spaced;
    NoTokens(u.space);
    if y[0] == ' ' {
      var z := y[1..];
      TokensSkipLeading(u.space, y, 1);
      assert z != "" ==> z[0] != ' ';
      TextOfTokens(u, z);
      assert z != "" ==> z[|z| - 1] == y[|y| - 1];
      assert y == " " + z;
    } else {
      TextOfTokens(u, y);
    }
  }

  // ---------- n-grams ----------

  function Padded(text: string): string {
    "  " + text + "  "
  }

  predicate Blank(space: char -> bool, s: string) {
    forall i | 0 <= i < |s| :: space(s[i])
  }

  /** The first `k` windows of length `n`, without the blank ones. */
  function Grams(space: char -> bool, p: string, n: nat, k: nat): seq<string>
    requires k == 0 || k - 1 + n <= |p|
  {
    if k == 0 then []
    else Grams(space, p, n, k - 1) + if Blank(space, p[k - 1..k - 1 + n]) then [] else [p[k - 1..k - 1 + n]]
  }

  function AllGrams(space: char -> bool, p: string, n: nat): seq<string> {
    Grams(space, p, n, if |p| + 1 >= n then |p| + 1 - n else 0)
  }

  function Ngrams(space: char -> bool, text: string): seq<string> {
    AllGrams(space, Padded(text), 2) + AllGrams(space, Padded(text), 3) + AllGrams(space, Padded(text), 4)
  }

  predicate StandsAt(p: string, i: int, g: string) {
    0 <= i <= |p| - |g| && p[i..i + |g|] == g
  }

  /** `g` stands at one of the first `k` places. */
  ghost predicate StandsBefore(p: string, k: nat, g: string) {
    exists i :: i < k && StandsAt(p, i, g)
  }

  lemma StandsBeforeOneMore(p: string, k: nat, g: string)
    requires k > 0
    ensures StandsBefore(p, k, g) <==> StandsBefore(p, k - 1, g) || StandsAt(p, k - 1, g)
    ensures !StandsBefore(p, 0, g)
  {
    hide StandsAt;
    if i :| i < 0 && StandsAt(p, i, g) {
      NotBeforeStart(p, i, g);
    }
  }

  lemma NotBeforeStart(p: string, i: int, g: string)
    requires StandsAt(p, i, g)
    ensures i >= 0
  {
  }

  lemma {:induction false} GramsIff(space: char -> bool, p: string, n: nat, k: nat, g: string)
    requires k == 0 || k - 1 + n <= |p|
    ensures g in Grams(space, p, n, k) <==> |g| == n && !Blank(space, g) && StandsBefore(p, k, g)
  {
    StandsBeforeOneMore(p, 1, g);
    if k > 0 {
      hide Grams, Blank, StandsAt, StandsBefore;
      GramsIff(space, p, n, k - 1, g);
      GramsMember(space, p, n, k, g);
      StandsBeforeOneMore(p, k, g);
    }
  }

  lemma GramsMember(space: char -> bool, p: string, n: nat, k: nat, g: string)
    requires k > 0 && k - 1 + n <= |p|
    ensures g in Grams(space, p, n, k) <==>
            g in Grams(space, p, n, k - 1) || (|g| == n && !Blank(space, g) && StandsAt(p, k - 1, g))
  {
    hide Blank;
    var w := p[k - 1..k - 1 + n];
    assert g in Grams(space, p, n, k) <==> g in Grams(space, p, n, k - 1) || (!Blank(space, w) && g == w);
    hide Grams;
  }

  /** The n-gram features are the non-blank pieces of two, three and four characters of the text with two spaces on
      either side. */
  lemma NgramIff(space: char -> bool, text: string, g: string)
    ensures g in Ngrams(space, text) <==>
            2 <= |g| <= 4 && !Blank(space, g) && exists i :: StandsAt("  " + text + "  ", i, g)
  {
    var p := "  " + text + "  ";
    PaddedLength(text);
    GramsIff(space, p, 2, |text| + 3, g);
    GramsIff(space, p, 3, |text| + 2, g);
    GramsIff(space, p, 4, |text| + 1, g);
    hide Grams, Blank;
    assert |p| == |text| + 4;
    forall i | StandsAt(p, i, g) ensures i < |text| + 5 - |g| {
    }
    hide StandsAt;
  }

  function Outer(c: char): nat {
    if c == ' ' then 1 else 0
  }

  /** Non-empty normal forms other than the single space that punctuation alone leaves. */
  predicate Named(text: string) {
    AllClean(text) && NoDoubleSpace(text) && text != "" && text != " "
  }

  /** The blank windows of a normal form are those inside the padding, to which a space at either end adds one character. */
  lemma BlankWindows(u: Charset, text: string, n: nat, i: nat)
    requires Standard(u) && Named(text) && 2 <= n && i + n <= |text| + 4
    ensures Blank(u.space, Padded(text)[i..i + n])
            <==> i + n <= 2 + Outer(text[0]) || i >= |text| + 2 - Outer(text[|text| - 1])
  {
    var p, w := Padded(text), Padded(text)[i..i + n];
    var lead, trail := Outer(text[0]), Outer(text[|text| - 1]);
    PaddedChars(u, text);
    assert forall k | 0 <= k < n :: w[k] == p[i + k];
    if i + n > 2 + lead && i < |text| + 2 - trail {
      var j := if i < 2 + lead then 2 + lead else if u.space(p[i]) then i + 1 else i;
      assert !u.space(p[j]) by {
        if i >= 2 + lead && u.space(p[i]) {
          assert text[i - 2] == ' ' && text[i - 1] != ' ';
        }
      }
      assert w[j - i] == p[j];
    }
  }

  /** The white space of the padded text is its padding and the spaces of the text; next to an outer space
      stands none. */
  lemma PaddedChars(u: Charset, text: string)
    requires Standard(u) && Named(text)
    ensures var p, lead, trail := Padded(text), Outer(text[0]), Outer(text[|text| - 1]);
            && (forall k | 0 <= k < |p| :: u.space(p[k]) <==> k < 2 || k >= |text| + 2 || text[k - 2] == ' ')
            && lead + trail < |text| && text[lead] != ' ' && text[|text| - 1 - trail] != ' '
  {
    var p := Padded(text);
    assert forall k | 2 <= k < |text| + 2 :: p[k] == text[k - 2] && Clean(text[k - 2]);
    if |text| == 1 {
      assert text == [text[0]];
    }
  }

  lemma PaddedEnds(text: string)
    requires Named(text)
    ensures Outer(text[0]) + Outer(text[|text| - 1]) < |text|
  {
    if |text| == 1 {
      assert text == [text[0]];
    }
  }

  function Least(a: int, b: int): int {
    if a < b then a else b
  }

  function AtLeastZero(a: int): nat {
    if a < 0 then 0 else a
  }

  lemma GramsOneMore(space: char -> bool, p: string, n: nat, k: nat)
    requires k > 0 && k - 1 + n <= |p|
    ensures |Grams(space, p, n, k)| == |Grams(space, p, n, k - 1)| + if Blank(space, p[k - 1..k - 1 + n]) then 0 else 1
  {
  }

  /** Among `k` windows of which the blank ones are some at the beginning and some at the end, the others are counted. */
  lemma {:induction false} CountGrams(space: char -> bool, p: string, n: nat, k: nat, first: int, last: int)
    requires (k == 0 || k - 1 + n <= |p|) && first <= last
    requires forall i | 0 <= i < k :: BlankAt(space, p, n, i) <==> i < first || i >= last
    ensures |Grams(space, p, n, k)| == k - Least(k, AtLeastZero(first)) - Least(k, AtLeastZero(k - last))
  {
    if k > 0 {
      CountGrams(space, p, n, k - 1, first, last);
      GramsOneMore(space, p, n, k);
      assert BlankAt(space, p, n, k - 1) <==> k - 1 < first || k - 1 >= last;
      hide Grams, Blank;
    }
  }

  predicate BlankAt(space: char -> bool, p: string, n: nat, i: int) {
    0 <= i <= |p| - n && Blank(space, p[i..i + n])
  }

  /** The features of length `n`: all windows of the padded text but those inside the padding and an adjacent space. */
  lemma CountOfLength(u: Charset, text: string, n: nat)
    requires Standard(u) && Named(text) && 2 <= n <= 4
    ensures |AllGrams(u.space, Padded(text), n)|
            == |text| + 5 - n - AtLeastZero(3 + Outer(text[0]) - n) - AtLeastZero(3 + Outer(text[|text| - 1]) - n)
  {
    PaddedLength(text);
    PaddedEnds(text);
    forall i | 0 <= i < |text| + 5 - n
      ensures BlankAt(u.space, Padded(text), n, i) <==> i < 3 + Outer(text[0]) - n || i >= |text| + 2 - Outer(text[|text| - 1])
    {
      BlankWindows(u, text, n, i);
    }
    hide Grams, BlankAt, Padded, Standard;
    CountGrams(u.space, Padded(text), n, |text| + 5 - n, 3 + Outer(text[0]) - n, |text| + 2 - Outer(text[|text| - 1]));
  }

  /** A non-empty normal form of length L has 3 L + 4 n-gram features, less two for a space at either
      end: each adds a blank pair and a blank triple. The single space has none. */
  lemma NgramCount(u: Charset, text: string)
    requires Standard(u) && AllClean(text) && NoDoubleSpace(text) && text != ""
    ensures |Ngrams(u.space, text)|
            == if text == " " then 0 else 3 * |text| + 4 - 2 * Outer(text[0]) - 2 * Outer(text[|text| - 1])
  {
    hide Grams, Padded, Standard;
    PaddedLength(text);
    if text == " " {
      hide AllGrams;
      SpaceHasNoGrams(u, 2);
      SpaceHasNoGrams(u, 3);
      SpaceHasNoGrams(u, 4);
    } else {
      hide AllGrams;
      CountOfLength(u, text, 2);
      CountOfLength(u, text, 3);
      CountOfLength(u, text, 4);
    }
  }

  lemma PaddedLength(text: string)
    ensures |Padded(text)| == |text| + 4
  {
  }

  lemma SpaceHasNoGrams(u: Charset, n: nat)
    requires Standard(u) && 2 <= n <= 4
    ensures |AllGrams(u.space, Padded(" "), n)| == 0
  {
    var p := Padded(" ");
    assert |p| == 5 && forall i | 0 <= i < 5 :: p[i] == ' ';
    CountGrams(u.space, p, n, 6 - n, 6 - n, 6 - n);
  }

  // ---------- accumulation ----------

  /** What the digests are used for: the number in the first four bytes and the parity of the fifth. */
  datatype Digests = Digests(slot: string -> nat, even: string -> bool, positionSlot: string -> nat)

  function Weight(f: string): real {
    1.0 + (if |f| < 8 then |f| else 8) as real / 8.0
  }

  /** A feature weighs 1 and an eighth for each of its first eight characters. */
  lemma WeightIs(f: string)
    ensures |f| <= 8 ==> 8.0 * (Weight(f) - 1.0) == |f| as real
    ensures |f| >= 8 ==> Weight(f) == 2.0
  {
  }

  function Signed(h: Digests, f: string): real {
    if h.even(f) then Weight(f) else -Weight(f)
  }

  /** The sum of the signed weights of the features that hash to bucket `b`. */
  function FeatureSum(h: Digests, fs: seq<string>, b: nat): real {
    if fs == [] then 0.0
    else
      FeatureSum(h, fs[..|fs| - 1], b)
      + if h.slot(fs[|fs| - 1]) % DIM == b then Signed(h, fs[|fs| - 1]) else 0.0
  }

  /** The token at a position, tagged with it. */
  function Tagged(position: nat, token: string): string {
    Decimal.Itoa(position) + ":" + token
  }

  /** 0.5 for every token whose position and text hash to bucket `b`. */
  function PositionSum(h: Digests, tokens: seq<string>, b: nat): real {
    if tokens == [] then 0.0
    else
      PositionSum(h, tokens[..|tokens| - 1], b)
      + if h.positionSlot(Tagged(|tokens| - 1, tokens[|tokens| - 1])) % DIM == b then 0.5 else 0.0
  }

  function Features(u: Charset, text: string): seq<string> {
    Ngrams(u.space, text) + Tokens(u.space, text)
  }

  /** The bucket sums of a text. */
  function Buckets(u: Charset, h: Digests, text: string): (r: seq<real>)
    ensures |r| == DIM
  {
    seq(DIM, b requires 0 <= b < DIM => FeatureSum(h, Features(u, text), b) + PositionSum(h, Tokens(u.space, text), b))
  }

  function Zeros(): seq<real> {
    seq(DIM, _ => 0.0)
  }

  method AddFeatures(h: Digests, vec: array<real>, fs: seq<string>)
    requires vec.Length == DIM
    modifies vec
    ensures forall b | 0 <= b < DIM :: vec[b] == old(vec[b]) + FeatureSum(h, fs, b)
  {
    for i := 0 to |fs|
      invariant forall b | 0 <= b < DIM :: vec[b] == old(vec[b]) + FeatureSum(h, fs[..i], b)
    {
      assert fs[..i + 1][..i] == fs[..i];
      var idx := h.slot(fs[i]) % DIM;
      var sign := if h.even(fs[i]) then 1.0 else -1.0;
      var weight := 1.0 + (if |fs[i]| < 8 then |fs[i]| else 8) as real / 8.0;
      vec[idx] := vec[idx] + sign * weight;
    }
    assert fs[..|fs|] == fs;
  }

  method AddPositions(h: Digests, vec: array<real>, tokens: seq<string>)
    requires vec.Length == DIM
    modifies vec
    ensures forall b | 0 <= b < DIM :: vec[b] == old(vec[b]) + PositionSum(h, tokens, b)
  {
    for i := 0 to |tokens|
      invariant forall b | 0 <= b < DIM :: vec[b] == old(vec[b]) + PositionSum(h, tokens[..i], b)
    {
      assert tokens[..i + 1][..i] == tokens[..i];
      var idx := h.positionSlot(Decimal.Itoa(i) + ":" + tokens[i]) % DIM;
      vec[idx] := vec[idx] + 0.5;
    }
    assert tokens[..|tokens|] == tokens;
  }

  /** The embedding of a name is the normalised vector of its bucket sums, and zero for an empty normal form. */
  method NameEmbedding(u: Charset, h: Digests, sqrt: real -> real, name: string) returns (out: array<real>)
    requires Vectors.IsSqrt(sqrt)
    ensures fresh(out)
    ensures var text := Normalize(u, name);
            out[..] == if text == "" then Zeros() else Vectors.Normalized(Buckets(u, h, text), sqrt)
  {
    var text := Normalize(u, name);
    hide Buckets, Vectors.IsSqrt, Vectors.Normalized;
    if text == "" {
      out := new real[DIM](_ => 0.0);
      assert out[..] == Zeros();
    } else {
      var vec := Accumulate(u, h, text);
      out := Vectors.Normalize(vec, sqrt);
    }
  }

  method Accumulate(u: Charset, h: Digests, text: string) returns (vec: array<real>)
    ensures fresh(vec) && vec[..] == Buckets(u, h, text)
  {
    hide FeatureSum, PositionSum, Tokens, Ngrams;
    vec := new real[DIM](_ => 0.0);
    var tokens := Tokens(u.space, text);
    AddFeatures(h, vec, Features(u, text));
    AddPositions(h, vec, tokens);
  }

  lemma {:induction false} SumWithout(h: Digests, fs: seq<string>, i: nat, b: nat)
    requires i < |fs|
    ensures FeatureSum(h, fs, b)
            == FeatureSum(h, fs[..i] + fs[i + 1..], b) + if h.slot(fs[i]) % DIM == b then Signed(h, fs[i]) else 0.0
  {
    if i == |fs| - 1 {
      assert fs[..i] + fs[i + 1..] == fs[..|fs| - 1];
    } else {
      var init, without := fs[..|fs| - 1], fs[..i] + fs[i + 1..];
      SumWithout(h, init, i, b);
      assert without[..|without| - 1] == init[..i] + init[i + 1..];
    }
  }

  lemma {:induction false} SumOfBoth(h: Digests, a: seq<string>, c: seq<string>, b: nat)
    ensures FeatureSum(h, a + c, b) == FeatureSum(h, a, b) + FeatureSum(h, c, b)
  {
    if c == [] {
      assert a + c == a;
    } else {
      SumOfBoth(h, a, c[..|c| - 1], b);
      assert (a + c)[..|a + c| - 1] == a + c[..|c| - 1];
    }
  }

  /** A bucket holds the signed weights of the n-grams and of the tokens that hash there, and 0.5 for each position and
      token that does. */
  lemma BucketHolds(u: Charset, h: Digests, text: string, b: nat)
    requires b < 768
    ensures |Buckets(u, h, text)| == 768
    ensures Buckets(u, h, text)[b]
            == FeatureSum(h, Ngrams(u.space, text), b) + FeatureSum(h, Tokens(u.space, text), b)
               + PositionSum(h, Tokens(u.space, text), b)
  {
    hide Ngrams, Tokens, FeatureSum, PositionSum;
    SumOfBoth(h, Ngrams(u.space, text), Tokens(u.space, text), b);
  }

  lemma MultisetWithout(s: seq<string>, i: nat)
    requires i < |s|
    ensures multiset(s[..i] + s[i + 1..]) == multiset(s) - multiset{s[i]}
  {
    assert s == s[..i] + [s[i]] + s[i + 1..];
  }

  /** The order in which features are processed does not matter. */
  lemma {:induction false} FeatureOrderIrrelevant(h: Digests, a: seq<string>, c: seq<string>, b: nat)
    requires multiset(a) == multiset(c)
    ensures FeatureSum(h, a, b) == FeatureSum(h, c, b)
    decreases |a|
  {
    if a == [] {
      assert |multiset(c)| == 0;
    } else {
      var init, last := a[..|a| - 1], a[|a| - 1];
      SumWithout(h, a, |a| - 1, b);
      assert last in multiset(c);
      var i :| 0 <= i < |c| && c[i] == last;
      var rest := c[..i] + c[i + 1..];
      MultisetWithout(c, i);
      MultisetWithout(a, |a| - 1);
      assert a[..|a| - 1] + a[|a|..] == init;
      hide FeatureSum, Signed;
      SumWithout(h, c, i, b);
      FeatureOrderIrrelevant(h, init, rest, b);
    }
  }

  /** The embedding of every name is the zero vector or has squared norm exactly 1. */
  lemma EmbeddingIsUnit(u: Charset, h: Digests, sqrt: real -> real, text: string)
    requires Vectors.IsSqrt(sqrt)
    ensures var v := Vectors.Normalized(Buckets(u, h, text), sqrt);
            v == Zeros() || Vectors.Dot(v, v) == 1.0
  {
    Vectors.NormalizedIsUnit(Buckets(u, h, text), sqrt);
  }
}
