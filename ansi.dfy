/** Removal of terminal control sequences from Jest failure text: a global
    `replace` with the pattern

      [\u001b\u009b][[()#;?]*.?[0-9]{1,4}(?:;[0-9]{0,4})*.?[0-9A-ORZcf-nqry=><]

    (`AsWritten`), and the classic escape-code pattern it was evidently copied
    from, which has no `.?` and makes the parameter list optional (`Intended`):

      [\u001b\u009b][[()#;?]*(?:[0-9]{1,4}(?:;[0-9]{0,4})*)?[0-9A-ORZcf-nqry=><]

    The matcher follows ECMAScript backtracking: every quantifier is greedy,
    so alternatives are tried from the longest run down and the first
    alternative whose continuation succeeds is the match. */
module Ansi {
  import opened Maybe
  import Text

  datatype Pattern = AsWritten | Intended

  /** `[\u001b\u009b]`: ESC and the single-byte CSI. */
  predicate IsIntroducer(c: char) {
    c == '\U{1B}' || c == '\U{9B}'
  }

  /** `[[()#;?]` */
  predicate IsParamPrefix(c: char) {
    c == '[' || c == '(' || c == ')' || c == '#' || c == ';' || c == '?'
  }

  predicate IsDigit(c: char) {
    '0' <= c <= '9'
  }

  /** `[0-9A-ORZcf-nqry=><]` */
  predicate IsFinal(c: char) {
    IsDigit(c) || ('A' <= c <= 'O') || c == 'R' || c == 'Z' || c == 'c'
    || ('f' <= c <= 'n') || c == 'q' || c == 'r' || c == 'y'
    || c == '=' || c == '>' || c == '<'
  }

  /** Length of the longest run of parameter-prefix characters at `i`. */
  function ParamRun(s: string, i: nat): (n: nat)
    requires i <= |s|
    ensures i + n <= |s|
    decreases |s| - i
  {
    if i < |s| && IsParamPrefix(s[i]) then 1 + ParamRun(s, i + 1) else 0
  }

  /** Length of the longest run of decimal digits at `i`. */
  function DigitRun(s: string, i: nat): (n: nat)
    requires i <= |s|
    ensures i + n <= |s|
    decreases |s| - i
  {
    if i < |s| && IsDigit(s[i]) then 1 + DigitRun(s, i + 1) else 0
  }

  function Min(a: nat, b: nat): nat {
    if a < b then a else b
  }

  /** The final character class at `i`; the result is the end of the match. */
  function Final(s: string, i: nat): (r: Option<nat>)
    requires i <= |s|
    ensures r.Some? ==> r.value == i + 1 && r.value <= |s|
  {
    if i < |s| && IsFinal(s[i]) then Some(i + 1) else None
  }

  /** `.?` followed by the final class (the tail of the as-written pattern). */
  function AnyThenFinal(s: string, i: nat): (r: Option<nat>)
    requires i <= |s|
    ensures r.Some? ==> i < r.value <= |s|
  {
    if i < |s| && !Text.IsLineTerminator(s[i]) && Final(s, i + 1).Some? then Final(s, i + 1)
    else Final(s, i)
  }

  /** What follows the `(?:;[0-9]{0,4})*` group. */
  function AfterGroups(p: Pattern, s: string, i: nat): (r: Option<nat>)
    requires i <= |s|
    ensures r.Some? ==> i < r.value <= |s|
  {
    if p == AsWritten then AnyThenFinal(s, i) else Final(s, i)
  }

  /** `(?:;[0-9]{0,4})*` and the rest of the pattern, greedy: one more
      iteration is tried before leaving the loop. */
  function Groups(p: Pattern, s: string, i: nat): (r: Option<nat>)
    requires i <= |s|
    ensures r.Some? ==> i < r.value <= |s|
    decreases |s| - i + 1, 0
  {
    if i < |s| && s[i] == ';' then
      var r := GroupDigits(p, s, i + 1, Min(4, DigitRun(s, i + 1)));
      if r.Some? then r else AfterGroups(p, s, i)
    else AfterGroups(p, s, i)
  }

  /** The `[0-9]{0,4}` of one iteration, with `d` digits tried first and then fewer. */
  function GroupDigits(p: Pattern, s: string, j: nat, d: nat): (r: Option<nat>)
    requires j + d <= |s|
    ensures r.Some? ==> j < r.value <= |s|
    decreases |s| - j + 1, d + 1
  {
    var r := Groups(p, s, j + d);
    if r.Some? then r else if d == 0 then None else GroupDigits(p, s, j, d - 1)
  }

  /** `[0-9]{1,4}` with `d` digits tried first, then the groups and the rest. */
  function Digits(p: Pattern, s: string, j: nat, d: nat): (r: Option<nat>)
    requires 1 <= d && j + d <= |s|
    ensures r.Some? ==> j < r.value <= |s|
    decreases d
  {
    var r := Groups(p, s, j + d);
    if r.Some? then r else if d == 1 then None else Digits(p, s, j, d - 1)
  }

  function DigitsFrom(p: Pattern, s: string, j: nat): (r: Option<nat>)
    requires j <= |s|
    ensures r.Some? ==> j < r.value <= |s|
  {
    var n := Min(4, DigitRun(s, j));
    if n == 0 then None else Digits(p, s, j, n)
  }

  /** What follows `[[()#;?]*`: `.?[0-9]{1,4}…` as written, and the optional
      parameter list `(?:[0-9]{1,4}…)?` before the final class when intended. */
  function AfterPrefix(p: Pattern, s: string, i: nat): (r: Option<nat>)
    requires i <= |s|
    ensures r.Some? ==> i < r.value <= |s|
  {
    if p == AsWritten then
      if i < |s| && !Text.IsLineTerminator(s[i]) && DigitsFrom(p, s, i + 1).Some? then
        DigitsFrom(p, s, i + 1)
      else DigitsFrom(p, s, i)
    else
      if DigitsFrom(p, s, i).Some? then DigitsFrom(p, s, i) else Final(s, i)
  }

  /** `[[()#;?]*` with `k` prefix characters tried first, then fewer. */
  function Prefix(p: Pattern, s: string, i: nat, k: nat): (r: Option<nat>)
    requires i + k <= |s|
    ensures r.Some? ==> i < r.value <= |s|
    decreases k
  {
    var r := AfterPrefix(p, s, i + k);
    if r.Some? then r else if k == 0 then None else Prefix(p, s, i, k - 1)
  }

  /** The length of the match of the whole pattern at the start of `s`, if any. */
  function MatchLength(p: Pattern, s: string): (r: Option<nat>)
    ensures r.Some? ==> 0 < r.value <= |s|
  {
    if 0 < |s| && IsIntroducer(s[0]) then
      match Prefix(p, s, 1, ParamRun(s, 1))
      case Some(e) => Some(e)
      case None => None
    else None
  }

  /** Global replacement of the pattern by the empty string: matches are removed
      left to right and the search resumes where the last match ended. */
  function StripWith(p: Pattern, s: string): (r: string)
    decreases |s|
  {
    if |s| == 0 then ""
    else match MatchLength(p, s)
      case Some(n) => StripWith(p, s[n..])
      case None => [s[0]] + StripWith(p, s[1..])
  }

  /** The replacement exactly as the two Jest validators write it. */
  function StripAsWritten(s: string): string {
    StripWith(AsWritten, s)
  }

  /** The replacement the validators evidently intend; the rest of the model uses it. */
  function Strip(s: string): string {
    StripWith(Intended, s)
  }

  /** Text without ESC or CSI characters has nothing to strip. */
  lemma {:induction false} NoControlUnchanged(p: Pattern, s: string)
    requires forall i :: 0 <= i < |s| ==> !IsIntroducer(s[i])
    ensures StripWith(p, s) == s
    decreases |s|
  {
    if |s| > 0 {
      NoControlUnchanged(p, s[1..]);
    }
  }

  /** Stripping never lengthens the text and introduces no character. */
  lemma {:induction false} StripNeverLonger(p: Pattern, s: string)
    ensures |StripWith(p, s)| <= |s|
    ensures forall c :: c in StripWith(p, s) ==> c in s
    decreases |s|
  {
    if |s| > 0 {
      match MatchLength(p, s)
      case Some(n) =>
        StripNeverLonger(p, s[n..]);
        assert forall c :: c in s[n..] ==> c in s;
      case None =>
        StripNeverLonger(p, s[1..]);
        assert forall c :: c in s[1..] ==> c in s;
    }
  }

  /** Select Graphic Rendition code `ESC [ <digits> m`, the colour codes Jest emits. */
  function Sgr(digits: string): string {
    ['\U{1B}', '['] + digits + ['m']
  }

  lemma {:induction false} DigitRunOf(s: string, i: nat, n: nat)
    requires i + n <= |s|
    requires forall k :: i <= k < i + n ==> IsDigit(s[k])
    requires i + n == |s| || !IsDigit(s[i + n])
    ensures DigitRun(s, i) == n
    decreases n
  {
    if n > 0 {
      DigitRunOf(s, i + 1, n - 1);
    }
  }

  /** With the intended pattern an SGR code with one to four digits is removed
      exactly: the character after the closing `m` survives. */
  lemma SgrRemovedExactly(digits: string, t: string)
    requires 1 <= |digits| <= 4
    requires forall k :: 0 <= k < |digits| ==> IsDigit(digits[k])
    ensures Strip(Sgr(digits) + t) == Strip(t)
  {
    var s := Sgr(digits) + t;
    var d := |digits|;
    assert s[0] == '\U{1B}' && s[1] == '[' && s[2 + d] == 'm';
    assert forall k :: 2 <= k < 2 + d ==> s[k] == digits[k - 2];
    assert ParamRun(s, 2) == 0;
    assert ParamRun(s, 1) == 1;
    DigitRunOf(s, 2, d);
    assert Groups(Intended, s, 2 + d) == Some(3 + d);
    assert Digits(Intended, s, 2, d) == Some(3 + d);
    assert AfterPrefix(Intended, s, 2) == Some(3 + d);
    assert MatchLength(Intended, s) == Some(3 + d);
    assert s[3 + d..] == t;
  }

  /** What the as-written pattern does to a green `5`: the digit after the
      colour code is taken as the pattern's final character and removed. */
  lemma AsWrittenEatsFollowingDigit()
    ensures StripAsWritten(Sgr("32") + "5") == ""
    ensures Strip(Sgr("32") + "5") == "5"
  {
    var s := Sgr("32") + "5";
    assert s == ['\U{1B}', '[', '3', '2', 'm', '5'];
    assert ParamRun(s, 2) == 0;
    assert ParamRun(s, 1) == 1;
    assert DigitRun(s, 4) == 0;
    assert DigitRun(s, 3) == 1;
    assert Groups(AsWritten, s, 4) == Some(6);
    assert DigitsFrom(AsWritten, s, 3) == Some(6);
    assert AfterPrefix(AsWritten, s, 2) == Some(6);
    assert MatchLength(AsWritten, s) == Some(6);
    assert s[6..] == "";
    assert StripWith(AsWritten, s) == StripWith(AsWritten, s[6..]);
    SgrRemovedExactly("32", "5");
    NoControlUnchanged(Intended, "5");
  }
}
