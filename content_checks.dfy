/** The structural checks the task validators run on generated code after
    it compiles: substring tests (`code.includes(...)`) and the few regular
    expressions they use, each paired with the message returned when it
    fails. The checks run in order and the first that fails decides. */
module ContentChecks {
  import opened Maybe
  import opened Text

  /** A check on the code. `Quoted(key)` is the pattern `<key>'.*'`,
      `QuotedWithAt(key)` is `<key>'.*@.*'`, and `NestedQuoted(outer, key)`
      is `<outer>[\s\S]*<key>'.*'[\s\S]*}`; `.` matches anything but a line
      terminator, and a pattern without flags may match anywhere. */
  datatype Check =
    | Includes(text: string)
    | Quoted(key: string)
    | QuotedWithAt(key: string)
    | NestedQuoted(outer: string, key: string)

  /** `code` holds `w` at position `i`. */
  predicate HasAt(code: string, i: nat, w: string) {
    i + |w| <= |code| && code[i..i + |w|] == w
  }

  /** No line terminator in `code[i..j]`. */
  predicate OneLine(code: string, i: nat, j: nat)
    requires i <= j <= |code|
  {
    forall k :: i <= k < j ==> !IsLineTerminator(code[k])
  }

  /** `.*'` from `i`, ending with the quote at `j`. */
  predicate QuoteOnLine(code: string, i: nat, j: nat) {
    i <= j < |code| && code[j] == '\'' && OneLine(code, i, j)
  }

  /** `<key>'.*'` with the key at `i` and the closing quote at `j`. */
  predicate QuotedAt(code: string, key: string, i: nat, j: nat) {
    HasAt(code, i, key + "'") && QuoteOnLine(code, i + |key| + 1, j)
  }

  /** `<key>'.*@.*'` with the key at `i`, the `@` at `a`, the closing quote at `j`. */
  predicate QuotedWithAtAt(code: string, key: string, i: nat, a: nat, j: nat) {
    && HasAt(code, i, key + "'")
    && i + |key| + 1 <= a < |code| && code[a] == '@' && OneLine(code, i + |key| + 1, a)
    && QuoteOnLine(code, a + 1, j)
  }

  /** `<outer>[\s\S]*<key>'.*'[\s\S]*}` with the parts at `p`, `i`, `j` and `c`. */
  predicate NestedAt(code: string, outer: string, key: string, p: nat, i: nat, j: nat, c: nat) {
    && HasAt(code, p, outer) && p + |outer| <= i
    && QuotedAt(code, key, i, j)
    && j < c < |code| && code[c] == '}'
  }

  /** Whether the check passes: `includes` or `RegExp.prototype.test`. */
  predicate Holds(c: Check, code: string) {
    match c
    case Includes(t) => Contains(code, t)
    case Quoted(key) =>
      exists i, j :: 0 <= i < |code| && 0 <= j < |code| && QuotedAt(code, key, i, j)
    case QuotedWithAt(key) =>
      exists i, a, j :: 0 <= i < |code| && 0 <= a < |code| && 0 <= j < |code|
                        && QuotedWithAtAt(code, key, i, a, j)
    case NestedQuoted(outer, key) =>
      exists p, i, j, k :: 0 <= p < |code| && 0 <= i < |code| && 0 <= j < |code| && 0 <= k < |code|
                           && NestedAt(code, outer, key, p, i, j, k)
  }

  /** One step of the chain: a check and what is reported when it fails. */
  datatype Rule = Rule(check: Check, failure: string)

  /** The message of the first rule whose check fails, if any. */
  function FirstFailure(rules: seq<Rule>, code: string): (r: Option<string>)
    ensures r.None? <==> forall k :: 0 <= k < |rules| ==> Holds(rules[k].check, code)
    decreases |rules|
  {
    if |rules| == 0 then None
    else if !Holds(rules[0].check, code) then Some(rules[0].failure)
    else
      assert forall k :: 1 <= k < |rules| ==> rules[k] == rules[1..][k - 1];
      FirstFailure(rules[1..], code)
  }

  /** The rule that fails first is the one reported, whatever the later
      rules would say. */
  lemma {:induction false} FirstFailureIs(rules: seq<Rule>, code: string, k: nat)
    requires k < |rules| && !Holds(rules[k].check, code)
    requires forall l :: 0 <= l < k ==> Holds(rules[l].check, code)
    ensures FirstFailure(rules, code) == Some(rules[k].failure)
    decreases k
  {
    if k > 0 {
      assert Holds(rules[0].check, code);
      FirstFailureIs(rules[1..], code, k - 1);
    }
  }

  // ---------------------------------------------------------------------
  // What the patterns accept

  /** Writing `<key>'<v>'` with a one-line `v` and no quote in it passes
      `Quoted(key)`. */
  lemma QuotedAccepts(pre: string, key: string, v: string, post: string)
    requires forall k :: 0 <= k < |v| ==> !IsLineTerminator(v[k])
    ensures Holds(Quoted(key), pre + key + "'" + v + "'" + post)
  {
    var code := pre + key + "'" + v + "'" + post;
    var i := |pre|;
    var j := |pre| + |key| + 1 + |v|;
    assert code[i..i + |key + "'"|] == key + "'";
    assert code[j] == '\'';
    assert forall k :: i + |key| + 1 <= k < j ==> code[k] == v[k - (i + |key| + 1)];
    assert QuotedAt(code, key, i, j);
  }

  /** Writing `<key>'<u>@<v>'` on one line passes `QuotedWithAt(key)`. */
  lemma QuotedWithAtAccepts(pre: string, key: string, u: string, v: string, post: string)
    requires forall k :: 0 <= k < |u| ==> !IsLineTerminator(u[k])
    requires forall k :: 0 <= k < |v| ==> !IsLineTerminator(v[k])
    ensures Holds(QuotedWithAt(key), pre + key + "'" + u + "@" + v + "'" + post)
  {
    var code := pre + key + "'" + u + "@" + v + "'" + post;
    var i := |pre|;
    var a := |pre| + |key| + 1 + |u|;
    var j := a + 1 + |v|;
    assert code[i..i + |key + "'"|] == key + "'";
    assert code[a] == '@' && code[j] == '\'';
    assert forall k :: i + |key| + 1 <= k < a ==> code[k] == u[k - (i + |key| + 1)];
    assert forall k :: a + 1 <= k < j ==> code[k] == v[k - (a + 1)];
    assert QuotedWithAtAt(code, key, i, a, j);
  }

  /** A line break between the key's opening quote and the `@` defeats
      `QuotedWithAt` at that key, even when an `@` and a quote follow on the
      next line. */
  lemma QuotedWithAtRejectsBrokenLine(key: string, u: string, rest: string)
    requires forall k :: 0 <= k < |u| ==> u[k] != '@'
    ensures var code := key + "'" + u + "\n" + rest;
            forall a: nat, j: nat :: !QuotedWithAtAt(code, key, 0, a, j)
  {
    var code := key + "'" + u + "\n" + rest;
    var n := |key| + 1 + |u|;
    assert code[n] == '\n';
    forall a: nat | |key| + 1 <= a < n
      ensures code[a] != '@'
    {
      assert code[a] == u[a - (|key| + 1)];
    }
    assert IsLineTerminator(code[n]);
  }
}
