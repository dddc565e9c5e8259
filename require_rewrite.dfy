/** The require rewrite of `runJestAgainstGeneratedCode`
    (src/validators/generatedCodeJestValidator.js:50-57): a global
    replacement of the pattern `(require\s*\(\s*['"])([^'"]+)(['"]\s*\))`
    whose callback puts `./codeUnderTest` in place of the path when the
    path ends with `generatedDebounce` and returns the match unchanged
    otherwise.

    The pattern has a single way to match at a position: each `\s*` is
    followed by a character that is not whitespace (`(`, a quote, `)`), and
    the greedy `[^'"]+` can only be followed by a quote, so no shorter
    choice succeeds where the longest fails. At each position, left to right,
    the pattern needs `require`, whitespace, `(`, whitespace, a quote, a
    non-empty path without quotes (line breaks included), a quote,
    whitespace and `)`; the search resumes after the match. */
module RequireRewrite {
  import opened Maybe
  import opened Text

  /** The path suffix the predefined test files use for the code under test. */
  const Placeholder := "generatedDebounce"

  /** `generatedCodeModuleName` */
  const ModuleName := "./codeUnderTest"

  /** `s` begins with the word `require`. */
  predicate StartsWithRequire(s: string) {
    |s| >= 7 && s[0] == 'r' && s[1] == 'e' && s[2] == 'q' && s[3] == 'u'
    && s[4] == 'i' && s[5] == 'r' && s[6] == 'e'
  }

  /** The first quote at or after `i` (or `|s|` if there is none). */
  function QuoteFrom(s: string, i: nat): (e: nat)
    requires i <= |s|
    ensures i <= e <= |s|
    decreases |s| - i
  {
    if i == |s| || IsQuote(s[i]) then i else QuoteFrom(s, i + 1)
  }

  /** The two character classes of the pattern that repeat: `\s` and `[^'"]`. */
  datatype CharClass = Spaces | NonQuotes

  predicate InClass(c: char, k: CharClass) {
    match k
    case Spaces => IsJsSpace(c)
    case NonQuotes => !IsQuote(c)
  }

  /** Every character of `s[lo..hi]` is in class `k`. */
  predicate AllIn(s: string, lo: nat, hi: nat, k: CharClass)
    requires lo <= hi <= |s|
    decreases hi - lo
  {
    lo == hi || (InClass(s[lo], k) && AllIn(s, lo + 1, hi, k))
  }

  /** Where a match lies in `s`: `s[paren]` is the `(`; `s[..head]` is
      `require`, whitespace, `(`, whitespace and the opening quote (the
      callback's `prefix`); `s[head..close]` is the path; `s[close..end]` is
      the closing quote, whitespace and `)` (the `suffix`). */
  datatype Call = Call(paren: nat, head: nat, close: nat, end: nat)

  /** `(` at `o`, whitespace, and the opening quote at `h - 1`. */
  predicate IsOpening(s: string, o: nat, h: nat) {
    o + 2 <= h <= |s| && s[o] == '(' && AllIn(s, o + 1, h - 1, Spaces) && IsQuote(s[h - 1])
  }

  /** A non-empty path without quotes in `s[h..c]`. */
  predicate IsPath(s: string, h: nat, c: nat) {
    h < c <= |s| && AllIn(s, h, c, NonQuotes)
  }

  /** The closing quote at `c`, whitespace, and `)` at `e - 1`. */
  predicate IsClosing(s: string, c: nat, e: nat) {
    c + 2 <= e <= |s| && IsQuote(s[c]) && AllIn(s, c + 1, e - 1, Spaces) && s[e - 1] == ')'
  }

  /** The shape every match has. */
  predicate IsCall(s: string, m: Call) {
    && 7 <= m.paren && StartsWithRequire(s)
    && IsOpening(s, m.paren, m.head) && AllIn(s, 7, m.paren, Spaces)
    && IsPath(s, m.head, m.close) && IsClosing(s, m.close, m.end)
  }

  /** The match of the pattern at the start of `s`, if any, read one part
      after the other: `require` and whitespace, then `(`. */
  function CallAt(s: string): (r: Option<Call>)
    ensures r.Some? ==> 7 <= r.value.paren < r.value.head < r.value.close < r.value.end <= |s|
  {
    if StartsWithRequire(s) then FromParen(s, 7 + SpaceRun(s, 7)) else None
  }

  /** `(`, whitespace, then the opening quote. */
  function FromParen(s: string, o: nat): (r: Option<Call>)
    requires 7 <= o <= |s|
    ensures r.Some? ==> r.value.paren == o < r.value.head < r.value.close < r.value.end <= |s|
  {
    if o < |s| && s[o] == '(' then FromQuote(s, o, o + 1 + SpaceRun(s, o + 1)) else None
  }

  /** The opening quote, then the path up to the next quote. */
  function FromQuote(s: string, o: nat, q: nat): (r: Option<Call>)
    requires o < q <= |s|
    ensures r.Some? ==> r.value.paren == o && r.value.head == q + 1 < r.value.close < r.value.end <= |s|
  {
    if q < |s| && IsQuote(s[q]) then FromPath(s, o, q + 1, QuoteFrom(s, q + 1)) else None
  }

  /** A non-empty path ended by a quote, then whitespace. */
  function FromPath(s: string, o: nat, h: nat, c: nat): (r: Option<Call>)
    requires o < h <= c <= |s|
    ensures r.Some? ==> r.value.paren == o && r.value.head == h && r.value.close == c < r.value.end <= |s|
  {
    if h < c < |s| then FromClose(s, o, h, c, c + 1 + SpaceRun(s, c + 1)) else None
  }

  /** The closing `)`. */
  function FromClose(s: string, o: nat, h: nat, c: nat, e: nat): (r: Option<Call>)
    requires c < e <= |s|
    ensures r.Some? ==> r == Some(Call(o, h, c, e + 1)) && e < |s|
  {
    if e < |s| && s[e] == ')' then Some(Call(o, h, c, e + 1)) else None
  }

  /** What the callback returns for the match `m`. */
  function Replacement(s: string, m: Call): string
    requires m.head <= m.close <= m.end <= |s|
  {
    if EndsWith(s[m.head..m.close], Placeholder) then s[..m.head] + (ModuleName + s[m.close..m.end])
    else s[..m.end]
  }

  /** The global replacement. */
  function RewriteRequires(s: string): string
    decreases |s|
  {
    if |s| == 0 then ""
    else match CallAt(s)
      case Some(m) => Replacement(s, m) + RewriteRequires(s[m.end..])
      case None => [s[0]] + RewriteRequires(s[1..])
  }

  /** One step of the rewrite at a match. */
  lemma RewriteAtCall(s: string, m: Call)
    requires CallAt(s) == Some(m)
    ensures RewriteRequires(s) == Replacement(s, m) + RewriteRequires(s[m.end..])
  {
  }

  /** `RewriteAtCall` with the replacement and the rest of the text named. */
  lemma RewriteAtCallParts(s: string, m: Call, rep: string, post: string)
    requires CallAt(s) == Some(m)
    requires rep == Replacement(s, m) && post == s[m.end..]
    ensures RewriteRequires(s) == rep + RewriteRequires(post)
  {
    RewriteAtCall(s, m);
  }

  /** One step of the rewrite where nothing matches. */
  lemma RewriteNoCall(s: string)
    requires |s| > 0 && CallAt(s).None?
    ensures RewriteRequires(s) == [s[0]] + RewriteRequires(s[1..])
  {
  }

  // ---------------------------------------------------------------------
  // Runs of a character class

  /** The greedy whitespace run at `i` is whitespace and stops at a
      non-space. */
  lemma {:induction false} RunSpaces(s: string, i: nat)
    requires i <= |s|
    ensures AllIn(s, i, i + SpaceRun(s, i), Spaces)
    ensures i + SpaceRun(s, i) < |s| ==> !IsJsSpace(s[i + SpaceRun(s, i)])
    decreases |s| - i
  {
    if i < |s| && IsJsSpace(s[i]) {
      RunSpaces(s, i + 1);
    }
  }

  /** A whitespace stretch ended by a non-space is the run. */
  lemma {:induction false} RunOfSpaces(s: string, i: nat, e: nat)
    requires i <= e <= |s| && AllIn(s, i, e, Spaces) && (e == |s| || !IsJsSpace(s[e]))
    ensures SpaceRun(s, i) == e - i
    decreases e - i
  {
    if i < e {
      RunOfSpaces(s, i + 1, e);
    }
  }

  /** Up to `QuoteFrom` there is no quote, and it stops at one. */
  lemma {:induction false} QuoteFromFacts(s: string, i: nat)
    requires i <= |s|
    ensures AllIn(s, i, QuoteFrom(s, i), NonQuotes)
    ensures QuoteFrom(s, i) < |s| ==> IsQuote(s[QuoteFrom(s, i)])
    decreases |s| - i
  {
    if i < |s| && !IsQuote(s[i]) {
      QuoteFromFacts(s, i + 1);
    }
  }

  /** A quote-free stretch ended by a quote (or the end) is what `QuoteFrom` finds. */
  lemma {:induction false} QuoteFromIs(s: string, i: nat, e: nat)
    requires i <= e <= |s| && AllIn(s, i, e, NonQuotes) && (e == |s| || IsQuote(s[e]))
    ensures QuoteFrom(s, i) == e
    decreases e - i
  {
    if i < e {
      QuoteFromIs(s, i + 1, e);
    }
  }

  /** A character inside a stretch is in its class. */
  lemma {:induction false} AllInAt(s: string, lo: nat, hi: nat, k: CharClass, p: nat)
    requires lo <= hi <= |s| && AllIn(s, lo, hi, k)
    ensures lo <= p < hi ==> InClass(s[p], k)
    decreases hi - lo
  {
    if lo < p < hi {
      AllInAt(s, lo + 1, hi, k, p);
    }
  }

  /** A stretch carries over to a text that agrees with it there. */
  lemma {:induction false} AllInAgree(s: string, u: string, lo: nat, hi: nat, k: CharClass)
    requires lo <= hi <= |s| && hi <= |u| && AllIn(u, lo, hi, k)
    requires forall i :: lo <= i < hi ==> s[i] == u[i]
    ensures AllIn(s, lo, hi, k)
    decreases hi - lo
  {
    if lo < hi {
      AllInAgree(s, u, lo + 1, hi, k);
    }
  }

  /** A stretch of `x` is a stretch of `x + y`. */
  lemma {:induction false} AllInLeft(x: string, y: string, lo: nat, hi: nat, k: CharClass)
    requires lo <= hi <= |x| && AllIn(x, lo, hi, k)
    ensures AllIn(x + y, lo, hi, k)
    decreases hi - lo
  {
    if lo < hi {
      AllInLeft(x, y, lo + 1, hi, k);
    }
  }

  /** A stretch of `y` is a stretch of `x + y`, moved by `|x|`. */
  lemma {:induction false} AllInRight(x: string, y: string, lo: nat, hi: nat, k: CharClass)
    requires lo <= hi <= |y| && AllIn(y, lo, hi, k)
    ensures AllIn(x + y, |x| + lo, |x| + hi, k)
    decreases hi - lo
  {
    if lo < hi {
      AllInRight(x, y, lo + 1, hi, k);
    }
  }

  /** A stretch inside `s[a..b]` is a stretch of that slice. */
  lemma {:induction false} AllInSlice(s: string, a: nat, b: nat, lo: nat, hi: nat, k: CharClass)
    requires a <= lo <= hi <= b <= |s| && AllIn(s, lo, hi, k)
    ensures AllIn(s[a..b], lo - a, hi - a, k)
    decreases hi - lo
  {
    if lo < hi {
      AllInSlice(s, a, b, lo + 1, hi, k);
    }
  }

  /** A string whose every character is in the class is one stretch. */
  lemma {:induction false} AllInWhole(s: string, i: nat, k: CharClass)
    requires i <= |s| && forall j :: 0 <= j < |s| ==> InClass(s[j], k)
    ensures AllIn(s, i, |s|, k)
    decreases |s| - i
  {
    if i < |s| {
      AllInWhole(s, i + 1, k);
    }
  }

  // ---------------------------------------------------------------------
  // The matcher and the shape

  lemma PathShape(s: string, o: nat, h: nat, c: nat)
    requires o < h <= c <= |s| && FromPath(s, o, h, c).Some?
    ensures IsQuote(s[c]) ==> IsClosing(s, c, FromPath(s, o, h, c).value.end)
  {
    RunSpaces(s, c + 1);
  }

  lemma QuoteShape(s: string, o: nat, q: nat)
    requires o < q <= |s| && FromQuote(s, o, q).Some?
    ensures var m := FromQuote(s, o, q).value;
            IsQuote(s[q]) && IsPath(s, q + 1, m.close) && IsClosing(s, m.close, m.end)
  {
    QuoteFromFacts(s, q + 1);
    PathShape(s, o, q + 1, QuoteFrom(s, q + 1));
  }

  lemma ParenShape(s: string, o: nat)
    requires 7 <= o <= |s| && FromParen(s, o).Some?
    ensures var m := FromParen(s, o).value;
            IsOpening(s, o, m.head) && IsPath(s, m.head, m.close) && IsClosing(s, m.close, m.end)
  {
    RunSpaces(s, o + 1);
    QuoteShape(s, o, o + 1 + SpaceRun(s, o + 1));
  }

  /** Every match has the shape of the pattern. */
  lemma CallShape(s: string)
    requires CallAt(s).Some?
    ensures IsCall(s, CallAt(s).value)
  {
    RunSpaces(s, 7);
    ParenShape(s, 7 + SpaceRun(s, 7));
  }

  /** Every text of that shape is matched, and exactly there. */
  lemma CallIs(s: string, m: Call)
    requires IsCall(s, m)
    ensures CallAt(s) == Some(m)
  {
    StepParen(s, m.paren);
    StepQuote(s, m.paren, m.head);
    StepPath(s, m.paren, m.head, m.close);
    StepClose(s, m.paren, m.head, m.close, m.end);
  }

  lemma StepParen(s: string, o: nat)
    requires 7 <= o < |s| && StartsWithRequire(s) && AllIn(s, 7, o, Spaces) && s[o] == '('
    ensures CallAt(s) == FromParen(s, o)
  {
    RunOfSpaces(s, 7, o);
  }

  lemma StepQuote(s: string, o: nat, h: nat)
    requires 7 <= o && IsOpening(s, o, h)
    ensures FromParen(s, o) == FromQuote(s, o, h - 1)
  {
    RunOfSpaces(s, o + 1, h - 1);
  }

  lemma StepPath(s: string, o: nat, h: nat, c: nat)
    requires o + 1 < h && IsPath(s, h, c) && c < |s| && IsQuote(s[h - 1]) && IsQuote(s[c])
    ensures FromQuote(s, o, h - 1) == FromPath(s, o, h, c)
  {
    QuoteFromIs(s, h, c);
  }

  lemma StepClose(s: string, o: nat, h: nat, c: nat, e: nat)
    requires o < h < c && IsClosing(s, c, e)
    ensures FromPath(s, o, h, c) == Some(Call(o, h, c, e))
  {
    RunOfSpaces(s, c + 1, e - 1);
  }

  /** The matcher and the shape agree: `CallAt(s) == Some(m)` exactly when
      `s` has the shape `m`. */
  lemma CallAtIff(s: string, m: Call)
    ensures CallAt(s) == Some(m) <==> IsCall(s, m)
  {
    if CallAt(s) == Some(m) {
      CallShape(s);
    }
    if IsCall(s, m) {
      CallIs(s, m);
    }
  }

  /** A match lies in the part of the text it covers: it stays a match
      in any text that agrees below its end. */
  lemma IsCallPrefix(s: string, u: string, m: Call, n: nat)
    requires IsCall(u, m) && m.end <= n <= |s| && n <= |u|
    requires forall i :: 0 <= i < n ==> s[i] == u[i]
    ensures IsCall(s, m)
  {
    AllInAgree(s, u, 7, m.paren, Spaces);
    AllInAgree(s, u, m.paren + 1, m.head - 1, Spaces);
    AllInAgree(s, u, m.head, m.close, NonQuotes);
    AllInAgree(s, u, m.close + 1, m.end - 1, Spaces);
  }

  // ---------------------------------------------------------------------
  // A literal `require(...)` call

  /** `require`, whitespace, `(`, whitespace and the opening quote. */
  function Opening(ws1: string, ws2: string, q1: char): string {
    "require" + ws1 + "(" + ws2 + [q1]
  }

  /** The closing quote, whitespace and `)`. */
  function Closing(q2: char, ws3: string): string {
    [q2] + ws3 + ")"
  }

  /** The whitespace between `require` and `(`. */
  lemma OpeningFirstSpaces(ws1: string, ws2: string, q1: char)
    requires AllIn(ws1, 0, |ws1|, Spaces)
    ensures AllIn(Opening(ws1, ws2, q1), 7, 7 + |ws1|, Spaces)
  {
    AllInRight("require", ws1, 0, |ws1|, Spaces);
    AllInLeft3("require" + ws1, "(", ws2, [q1], 7, 7 + |ws1|, Spaces);
  }

  /** A stretch of `a` is a stretch of `a + b + c + d`. */
  lemma AllInLeft3(a: string, b: string, c: string, d: string, lo: nat, hi: nat, k: CharClass)
    requires lo <= hi <= |a| && AllIn(a, lo, hi, k)
    ensures AllIn(a + b + c + d, lo, hi, k)
  {
    AllInLeft(a, b, lo, hi, k);
    AllInLeft(a + b, c, lo, hi, k);
    AllInLeft(a + b + c, d, lo, hi, k);
  }

  /** The whitespace between `(` and the opening quote. */
  lemma OpeningSecondSpaces(ws1: string, ws2: string, q1: char)
    requires AllIn(ws2, 0, |ws2|, Spaces)
    ensures AllIn(Opening(ws1, ws2, q1), 8 + |ws1|, 8 + |ws1| + |ws2|, Spaces)
  {
    var b := "require" + ws1 + "(";
    AllInRight(b, ws2, 0, |ws2|, Spaces);
    AllInLeft(b + ws2, [q1], 8 + |ws1|, 8 + |ws1| + |ws2|, Spaces);
  }

  /** What `Opening` consists of, part by part. */
  lemma OpeningFacts(ws1: string, ws2: string, q1: char)
    requires AllIn(ws1, 0, |ws1|, Spaces) && AllIn(ws2, 0, |ws2|, Spaces) && IsQuote(q1)
    ensures var o := Opening(ws1, ws2, q1);
            && |o| == 9 + |ws1| + |ws2| && StartsWithRequire(o)
            && AllIn(o, 7, 7 + |ws1|, Spaces) && o[7 + |ws1|] == '('
            && AllIn(o, 8 + |ws1|, 8 + |ws1| + |ws2|, Spaces) && IsQuote(o[|o| - 1])
  {
    OpeningFirstSpaces(ws1, ws2, q1);
    OpeningSecondSpaces(ws1, ws2, q1);
  }

  /** What `Closing` consists of, part by part. */
  lemma ClosingFacts(q2: char, ws3: string)
    requires AllIn(ws3, 0, |ws3|, Spaces) && IsQuote(q2)
    ensures var c := Closing(q2, ws3);
            |c| == 2 + |ws3| && IsQuote(c[0]) && AllIn(c, 1, 1 + |ws3|, Spaces) && c[1 + |ws3|] == ')'
  {
    AllInRight([q2], ws3, 0, |ws3|, Spaces);
    AllInLeft([q2] + ws3, ")", 1, 1 + |ws3|, Spaces);
  }

  /** An opening, a path and a closing in a row form a whole match. */
  lemma CallOfParts(o: string, path: string, c: string, n1: nat, n2: nat, n3: nat)
    requires |o| == 9 + n1 + n2 && StartsWithRequire(o)
    requires AllIn(o, 7, 7 + n1, Spaces) && o[7 + n1] == '('
    requires AllIn(o, 8 + n1, 8 + n1 + n2, Spaces) && IsQuote(o[|o| - 1])
    requires |path| > 0 && AllIn(path, 0, |path|, NonQuotes)
    requires |c| == 2 + n3 && IsQuote(c[0]) && AllIn(c, 1, 1 + n3, Spaces) && c[1 + n3] == ')'
    ensures IsCall(o + (path + c), Call(7 + n1, |o|, |o| + |path|, |o| + |path| + |c|))
  {
    var u := path + c;
    AllInLeft(o, u, 7, 7 + n1, Spaces);
    AllInLeft(o, u, 8 + n1, 8 + n1 + n2, Spaces);
    AllInLeft(path, c, 0, |path|, NonQuotes);
    AllInRight(o, u, 0, |path|, NonQuotes);
    AllInRight(path, c, 1, 1 + n3, Spaces);
    AllInRight(o, u, |path| + 1, |path| + 1 + n3, Spaces);
  }

  /** The three parts of `o + (path + c)`. */
  lemma PartsSlices(o: string, path: string, c: string)
    ensures var x := o + (path + c);
            x[..|o|] == o && x[|o|..|o| + |path|] == path && x[|o| + |path|..] == c
  {
    var x := o + (path + c);
    assert x[..|o|] == o;
    assert x[|o|..|o| + |path|] == path;
    assert x[|o| + |path|..] == c;
  }

  /** A match stays one when text follows it. */
  lemma CallExtends(x: string, tail: string, m: Call)
    requires IsCall(x, m)
    ensures IsCall(x + tail, m)
  {
    var u := x + tail;
    assert forall i :: 0 <= i < |x| ==> u[i] == x[i];
    IsCallPrefix(u, x, m, m.end);
  }

  /** The replacement of a match, from its three parts. */
  lemma ReplacementOfLayout(s: string, m: Call, pre: string, path: string, post: string)
    requires m.head <= m.close <= m.end <= |s|
    requires s[..m.head] == pre && s[m.head..m.close] == path && s[m.close..m.end] == post
    ensures Replacement(s, m)
         == if EndsWith(path, Placeholder) then pre + (ModuleName + post) else pre + (path + post)
  {
    assert s[..m.end] == s[..m.head] + (s[m.head..m.close] + s[m.close..m.end]);
  }

  /** The rewrite of a whole match `x` followed by `rest`, from the match's parts. */
  lemma RewriteOfWhole(x: string, m: Call, pre: string, path: string, post: string, rest: string)
    requires IsCall(x, m) && m.end == |x|
    requires x[..m.head] == pre && x[m.head..m.close] == path && x[m.close..] == post
    ensures RewriteRequires(x + rest)
         == (if EndsWith(path, Placeholder) then pre + (ModuleName + post) else pre + (path + post))
            + RewriteRequires(rest)
  {
    var u := x + rest;
    CallExtends(x, rest, m);
    CallIs(u, m);
    assert u[..m.end] == x;
    assert u[m.end..] == rest;
    ReplacementOfLayout(u, m, pre, path, post);
    RewriteAtCallParts(u, m, Replacement(u, m), rest);
  }

  /** A `require` call has its path replaced by `./codeUnderTest`, keeping
      its quotes, whitespace and parentheses, exactly when the path ends with
      `generatedDebounce`; any other call (a package, another module) is
      copied byte for byte. The rewrite goes on after the call. */
  lemma RewritesRequireCall(ws1: string, ws2: string, q1: char, path: string, q2: char, ws3: string, rest: string)
    requires AllSpace(ws1) && AllSpace(ws2) && AllSpace(ws3)
    requires IsQuote(q1) && IsQuote(q2)
    requires |path| > 0 && forall k :: 0 <= k < |path| ==> !IsQuote(path[k])
    ensures RewriteRequires(Opening(ws1, ws2, q1) + path + Closing(q2, ws3) + rest)
         == (if EndsWith(path, Placeholder)
             then Opening(ws1, ws2, q1) + ModuleName + Closing(q2, ws3)
             else Opening(ws1, ws2, q1) + path + Closing(q2, ws3))
            + RewriteRequires(rest)
  {
    var o := Opening(ws1, ws2, q1);
    var c := Closing(q2, ws3);
    RequireCallOfParts(ws1, ws2, q1, path, q2, ws3);
    PartsSlices(o, path, c);
    RewriteOfWhole(o + (path + c), Call(7 + |ws1|, |o|, |o| + |path|, |o| + |path| + |c|), o, path, c, rest);
    AppendAssoc(o, path, c);
    AppendAssoc(o, ModuleName, c);
  }

  /** The written-out call is one whole match. */
  lemma RequireCallOfParts(ws1: string, ws2: string, q1: char, path: string, q2: char, ws3: string)
    requires AllSpace(ws1) && AllSpace(ws2) && AllSpace(ws3)
    requires IsQuote(q1) && IsQuote(q2)
    requires |path| > 0 && forall k :: 0 <= k < |path| ==> !IsQuote(path[k])
    ensures var o := Opening(ws1, ws2, q1);
            var c := Closing(q2, ws3);
            IsCall(o + (path + c), Call(7 + |ws1|, |o|, |o| + |path|, |o| + |path| + |c|))
  {
    AllInWhole(ws1, 0, Spaces);
    AllInWhole(ws2, 0, Spaces);
    AllInWhole(ws3, 0, Spaces);
    OpeningFacts(ws1, ws2, q1);
    ClosingFacts(q2, ws3);
    AllInWhole(path, 0, NonQuotes);
    CallOfParts(Opening(ws1, ws2, q1), path, Closing(q2, ws3), |ws1|, |ws2|, |ws3|);
  }

  /** A text starting with `require` contains it. */
  lemma RequireContained(s: string)
    ensures StartsWithRequire(s) ==> Contains(s, "require")
  {
    if StartsWithRequire(s) {
      assert s[..7] == "require";
    }
  }

  /** Text without the word `require` (every `import … from` form among
      others) passes through unchanged. */
  lemma {:induction false} NoRequireUnchanged(s: string)
    requires !Contains(s, "require")
    ensures RewriteRequires(s) == s
    decreases |s|
  {
    if |s| > 0 {
      RequireContained(s);
      assert !Contains(s[1..], "require");
      NoRequireUnchanged(s[1..]);
      RewriteNoCall(s);
      assert s == [s[0]] + s[1..];
    }
  }

  // ---------------------------------------------------------------------
  // Idempotence

  /** Where the rewrite of the text it was given sits after a replacement. */
  function ReplacedCall(s: string, m: Call): Call
    requires m.head <= m.close <= m.end <= |s|
  {
    if EndsWith(s[m.head..m.close], Placeholder)
    then Call(m.paren, m.head, m.head + |ModuleName|, m.head + |ModuleName| + (m.end - m.close))
    else m
  }

  /** The replacement of a match is itself a whole match, and its path
      (the module name, or a path without the placeholder suffix) does not
      end with the placeholder. */
  lemma ReplacementShape(s: string, m: Call)
    requires IsCall(s, m)
    ensures var x := Replacement(s, m);
            var m' := ReplacedCall(s, m);
            && IsCall(x, m') && m'.end == |x|
            && !EndsWith(x[m'.head..m'.close], Placeholder)
  {
    if EndsWith(s[m.head..m.close], Placeholder) {
      PlaceholderShape(s, m);
    } else {
      KeptShape(s, m);
    }
  }

  lemma PlaceholderShape(s: string, m: Call)
    requires IsCall(s, m) && EndsWith(s[m.head..m.close], Placeholder)
    ensures var x := s[..m.head] + (ModuleName + s[m.close..m.end]);
            var m' := Call(m.paren, m.head, m.head + |ModuleName|, m.head + |ModuleName| + (m.end - m.close));
            && IsCall(x, m') && m'.end == |x|
            && !EndsWith(x[m'.head..m'.close], Placeholder)
  {
    PlaceholderReplaced(s, m, s[..m.head], s[m.close..m.end]);
  }

  lemma KeptShape(s: string, m: Call)
    requires IsCall(s, m) && !EndsWith(s[m.head..m.close], Placeholder)
    ensures var x := s[..m.end];
            && IsCall(x, m) && m.end == |x|
            && !EndsWith(x[m.head..m.close], Placeholder)
  {
    var x := s[..m.end];
    IsCallPrefix(x, s, m, m.end);
    assert x[m.head..m.close] == s[m.head..m.close];
  }

  /** The module name in place of the path leaves a whole match. */
  lemma PlaceholderReplaced(s: string, m: Call, pre: string, post: string)
    requires IsCall(s, m) && pre == s[..m.head] && post == s[m.close..m.end]
    ensures var x := pre + (ModuleName + post);
            && IsCall(x, Call(m.paren, m.head, m.head + |ModuleName|, m.head + |ModuleName| + |post|))
            && x[m.head..m.head + |ModuleName|] == ModuleName
  {
    PlaceholderCall(s, m, pre, post);
    PartsSlices(pre, ModuleName, post);
  }

  lemma PlaceholderCall(s: string, m: Call, pre: string, post: string)
    requires IsCall(s, m) && pre == s[..m.head] && post == s[m.close..m.end]
    ensures IsCall(pre + (ModuleName + post),
              Call(7 + (m.paren - 7), |pre|, |pre| + |ModuleName|, |pre| + |ModuleName| + |post|))
  {
    PlaceholderParts(s, m, pre, post);
    CallOfParts(pre, ModuleName, post, m.paren - 7, m.head - m.paren - 2, m.end - m.close - 2);
  }

  /** The same match, written another way. */
  lemma SameCall(x: string, a: Call, b: Call)
    requires IsCall(x, a) && a == b
    ensures IsCall(x, b)
  {
  }

  /** The part of a match before its path. */
  lemma PlaceholderParts(s: string, m: Call, pre: string, post: string)
    requires IsCall(s, m) && pre == s[..m.head] && post == s[m.close..m.end]
    ensures StartsWithRequire(pre) && pre[m.paren] == '(' && IsQuote(pre[m.head - 1])
    ensures AllIn(pre, 7, m.paren, Spaces) && AllIn(pre, m.paren + 1, m.head - 1, Spaces)
    ensures AllIn(ModuleName, 0, |ModuleName|, NonQuotes)
    ensures IsQuote(post[0]) && AllIn(post, 1, |post| - 1, Spaces) && post[|post| - 1] == ')'
  {
    PrefixParts(s, m, pre);
    AllInWhole(ModuleName, 0, NonQuotes);
    SuffixParts(s, m, post);
  }

  /** The callback's `prefix`: `require`, whitespace, `(`, whitespace, quote. */
  lemma PrefixParts(s: string, m: Call, pre: string)
    requires IsCall(s, m) && pre == s[..m.head]
    ensures StartsWithRequire(pre) && pre[m.paren] == '(' && IsQuote(pre[m.head - 1])
    ensures AllIn(pre, 7, m.paren, Spaces) && AllIn(pre, m.paren + 1, m.head - 1, Spaces)
  {
    AllInAgree(pre, s, 7, m.paren, Spaces);
    AllInAgree(pre, s, m.paren + 1, m.head - 1, Spaces);
  }

  /** The callback's `suffix`: quote, whitespace, `)`. */
  lemma SuffixParts(s: string, m: Call, post: string)
    requires IsCall(s, m) && post == s[m.close..m.end]
    ensures IsQuote(post[0]) && AllIn(post, 1, |post| - 1, Spaces) && post[|post| - 1] == ')'
  {
    AllInSlice(s, m.close, m.end, m.close + 1, m.end - 1, Spaces);
  }

  /** Rewriting a replacement leaves it and goes on after it. */
  lemma RewriteOfReplaced(s: string, m: Call, tail: string)
    requires CallAt(s) == Some(m)
    ensures RewriteRequires(Replacement(s, m) + tail) == Replacement(s, m) + RewriteRequires(tail)
  {
    CallShape(s);
    ReplacementShape(s, m);
    ReplacedAgain(Replacement(s, m), ReplacedCall(s, m), tail);
  }

  /** A whole match that the callback returns unchanged, followed by any text. */
  lemma ReplacedAgain(x: string, m': Call, tail: string)
    requires IsCall(x, m') && m'.end == |x| && !EndsWith(x[m'.head..m'.close], Placeholder)
    ensures RewriteRequires(x + tail) == x + RewriteRequires(tail)
  {
    var pre, path, post := x[..m'.head], x[m'.head..m'.close], x[m'.close..];
    assert x == pre + (path + post);
    RewriteOfWhole(x, m', pre, path, post, tail);
  }

  /** Where the rewrite of `t` first changes anything: at offset `k` a
      match `m` whose path ends with the placeholder starts; the text is
      copied up to its path, which becomes the module name, and `rest`
      follows. */
  predicate FirstChange(t: string, k: nat, m: Call, rest: string) {
    && k < |t| && CallAt(t[k..]) == Some(m) && k + m.end <= |t|
    && RewriteRequires(t) == t[..k + m.head] + (ModuleName + rest)
  }

  /** Either the rewrite changes nothing, or it has a first change. */
  lemma {:induction false} FirstChangeOf(t: string) returns (found: bool, k: nat, m: Call, rest: string)
    ensures !found ==> RewriteRequires(t) == t
    ensures found ==> FirstChange(t, k, m, rest)
    decreases |t|
  {
    if |t| == 0 {
      found, k, m, rest := false, 0, Call(0, 0, 0, 0), "";
    } else if CallAt(t).Some? {
      var m0 := CallAt(t).value;
      if EndsWith(t[m0.head..m0.close], Placeholder) {
        found, k, m := true, 0, m0;
        rest := t[m0.close..m0.end] + RewriteRequires(t[m0.end..]);
        ChangeHere(t, m0, rest);
        assert FirstChange(t, k, m, rest);
      } else {
        var f, k1, m1, rest1 := FirstChangeOf(t[m0.end..]);
        found, k, m, rest := f, m0.end + k1, m1, rest1;
        UnchangedCallStep(t, m0);
        ChangeShift(t, m0.end, f, k1, k, m, rest);
        assert found ==> FirstChange(t, k, m, rest);
      }
    } else {
      var f, k1, m1, rest1 := FirstChangeOf(t[1..]);
      found, k, m, rest := f, 1 + k1, m1, rest1;
      NoCallStep(t);
      ChangeShift(t, 1, f, k1, k, m, rest);
      assert found ==> FirstChange(t, k, m, rest);
    }
  }

  /** The first match changes the text. */
  lemma ChangeHere(t: string, m: Call, rest: string)
    requires CallAt(t) == Some(m) && EndsWith(t[m.head..m.close], Placeholder)
    requires rest == t[m.close..m.end] + RewriteRequires(t[m.end..])
    ensures FirstChange(t, 0, m, rest)
  {
    assert t[0..] == t;
    RewriteAtCall(t, m);
    AppendAssoc(t[..m.head], ModuleName + t[m.close..m.end], RewriteRequires(t[m.end..]));
    AppendAssoc(ModuleName, t[m.close..m.end], RewriteRequires(t[m.end..]));
  }

  /** A match the callback returns unchanged is copied. */
  lemma UnchangedCallStep(t: string, m: Call)
    requires CallAt(t) == Some(m) && !EndsWith(t[m.head..m.close], Placeholder)
    ensures RewriteRequires(t) == t[..m.end] + RewriteRequires(t[m.end..])
  {
    RewriteAtCall(t, m);
  }

  /** A position with no match is copied. */
  lemma NoCallStep(t: string)
    requires |t| > 0 && CallAt(t).None?
    ensures RewriteRequires(t) == t[..1] + RewriteRequires(t[1..])
  {
    RewriteNoCall(t);
    assert t[..1] == [t[0]];
  }

  /** A copied prefix of length `j` moves the first change by `j`. */
  lemma ChangeShift(t: string, j: nat, f: bool, k1: nat, k: nat, m: Call, rest: string)
    requires 0 < j <= |t| && k == j + k1
    requires RewriteRequires(t) == t[..j] + RewriteRequires(t[j..])
    requires !f ==> RewriteRequires(t[j..]) == t[j..]
    requires f ==> FirstChange(t[j..], k1, m, rest)
    ensures !f ==> RewriteRequires(t) == t
    ensures f ==> FirstChange(t, k, m, rest)
  {
    if !f {
      assert t == t[..j] + t[j..];
    } else {
      ShiftSlices(t, j, k1, k, m);
      ShiftAssembly(RewriteRequires(t), RewriteRequires(t[j..]), t[..j], t[j..][..k1 + m.head],
        t[..k + m.head], ModuleName + rest);
    }
  }

  lemma ShiftSlices(t: string, j: nat, k1: nat, k: nat, m: Call)
    requires j <= |t| && k == j + k1 && k1 < |t| - j && m.head <= m.end && k1 + m.end <= |t| - j
    ensures t[j..][k1..] == t[k..]
    ensures t[..k + m.head] == t[..j] + t[j..][..k1 + m.head]
  {
  }

  /** A copied prefix in front of an assembled text joins its first part. */
  lemma ShiftAssembly(x: string, y: string, p: string, a: string, a': string, b: string)
    requires x == p + y && y == a + b && a' == p + a
    ensures x == a' + b
  {
    AppendAssoc(p, a, b);
  }

  /** Rewriting twice gives the same text as rewriting once. */
  lemma {:induction false} RewriteIdempotent(s: string)
    ensures RewriteRequires(RewriteRequires(s)) == RewriteRequires(s)
    decreases |s|
  {
    if |s| > 0 {
      match CallAt(s)
      case Some(m) =>
        RewriteIdempotent(s[m.end..]);
        IdempotentAtCall(s, m);
      case None =>
        RewriteIdempotent(s[1..]);
        IdempotentPastNoCall(s);
    }
  }

  lemma IdempotentAtCall(s: string, m: Call)
    requires CallAt(s) == Some(m)
    requires var r := RewriteRequires(s[m.end..]);
             RewriteRequires(r) == r
    ensures RewriteRequires(RewriteRequires(s)) == RewriteRequires(s)
  {
    var r := RewriteRequires(s[m.end..]);
    RewriteAtCall(s, m);
    RewriteOfReplaced(s, m, r);
  }

  lemma IdempotentPastNoCall(s: string)
    requires |s| > 0 && CallAt(s).None?
    requires var r := RewriteRequires(s[1..]);
             RewriteRequires(r) == r
    ensures RewriteRequires(RewriteRequires(s)) == RewriteRequires(s)
  {
    RewriteNoCall(s);
    var found, k, m, rest := FirstChangeOf(s[1..]);
    if found {
      ChangedPastNoCall(s, k, m, rest);
    } else {
      UnchangedPastNoCall(s);
    }
  }

  /** Nothing changes past a position where nothing matched. */
  lemma UnchangedPastNoCall(s: string)
    requires |s| > 0 && CallAt(s).None? && RewriteRequires(s[1..]) == s[1..]
    ensures RewriteRequires([s[0]] + RewriteRequires(s[1..])) == [s[0]] + RewriteRequires(s[1..])
  {
    assert [s[0]] + s[1..] == s;
    RewriteNoCall(s);
  }

  /** Past a position where nothing matched, a fixed point stays one after
      the first change. */
  lemma ChangedPastNoCall(s: string, k: nat, m: Call, rest: string)
    requires |s| > 0 && CallAt(s).None? && FirstChange(s[1..], k, m, rest)
    requires var r := RewriteRequires(s[1..]);
             RewriteRequires(r) == r
    ensures RewriteRequires([s[0]] + RewriteRequires(s[1..])) == [s[0]] + RewriteRequires(s[1..])
  {
    NoCallAfterChange(s, k, m, rest);
    FixedPastNoCall(s[0], RewriteRequires(s[1..]));
  }

  /** A character where nothing matches, in front of a fixed point. */
  lemma FixedPastNoCall(c: char, r: string)
    requires CallAt([c] + r).None? && RewriteRequires(r) == r
    ensures RewriteRequires([c] + r) == [c] + r
  {
    RewriteNoCall([c] + r);
    assert ([c] + r)[1..] == r;
  }

  /** Past a position where nothing matched, the rewritten text does not
      match there either: it agrees with the original up to the path of
      the first changed match, and the module name that replaces it begins
      with `.`, which cannot follow a closing quote in a match. */
  lemma NoCallAfterChange(s: string, k: nat, m: Call, rest: string)
    requires |s| > 0 && CallAt(s).None?
    requires k < |s| - 1 && CallAt(s[1..][k..]) == Some(m) && k + m.end <= |s| - 1
    ensures CallAt([s[0]] + (s[1..][..k + m.head] + (ModuleName + rest))).None?
  {
    var n := 1 + k + m.head;
    var u := [s[0]] + (s[1..][..k + m.head] + (ModuleName + rest));
    OriginalAtChange(s, k, m);
    ChangedPrefix(s, k, m, rest);
    CallTransfers(s, u, n, 1 + k);
  }

  /** The original text at the first changed match, seen from the start of `s`. */
  lemma OriginalAtChange(s: string, k: nat, m: Call)
    requires |s| > 0 && k < |s| - 1 && CallAt(s[1..][k..]) == Some(m) && k + m.end <= |s| - 1
    ensures var n := 1 + k + m.head;
            && n < |s| && IsQuote(s[n - 1])
            && s[1 + k] == 'r' && s[3 + k] == 'q' && 3 + k < n - 2
  {
    CallShape(s[1..][k..]);
    assert s[1..][k..] == s[1 + k..];
    CallFieldsAt(s, 1 + k, m);
  }

  /** Three fields of a match that starts at offset `off` of `s`. */
  lemma CallFieldsAt(s: string, off: nat, m: Call)
    requires off <= |s| && IsCall(s[off..], m)
    ensures off + m.head < |s| && IsQuote(s[off + m.head - 1]) && 8 <= m.head - 1
    ensures s[off] == 'r' && s[off + 2] == 'q'
  {
    var x := s[off..];
    assert x[m.head - 1] == s[off + m.head - 1];
    assert x[0] == s[off] && x[2] == s[off + 2];
  }

  /** The rewritten text around the first change, seen from the start. */
  lemma ChangedPrefix(s: string, k: nat, m: Call, rest: string)
    requires |s| > 0 && k < |s| - 1 && k + m.head <= |s| - 1
    ensures var n := 1 + k + m.head;
            var u := [s[0]] + (s[1..][..k + m.head] + (ModuleName + rest));
            && n < |u| && u[n] == '.'
            && forall i :: 0 <= i < n ==> u[i] == s[i]
  {
    var n := 1 + k + m.head;
    var u := [s[0]] + (s[1..][..k + m.head] + (ModuleName + rest));
    assert u[n] == ModuleName[0];
    assert forall i :: 1 <= i < n ==> u[i] == s[1..][i - 1];
  }

  /** Whether a match starts at 0 is settled before the quote at `n - 1`
      when `u` agrees with `s` below `n`, has `.` at `n`, and `s` has the
      word `require` starting at `j`, inside that stretch: if `u` matches,
      so does `s`. */
  lemma CallTransfers(s: string, u: string, n: nat, j: nat)
    requires 1 <= j && j + 2 < n - 1 && n <= |s| && n < |u|
    requires forall i :: 0 <= i < n ==> u[i] == s[i]
    requires IsQuote(s[n - 1]) && s[j] == 'r' && s[j + 2] == 'q' && u[n] == '.'
    ensures CallAt(u).Some? ==> CallAt(s).Some?
  {
    if CallAt(u).Some? {
      var mu := CallAt(u).value;
      CallShape(u);
      CallEndsBefore(u, mu, n, j);
      IsCallPrefix(s, u, mu, n);
      CallIs(s, mu);
    }
  }

  /** Before its opening quote a match holds only `require`, `(` and whitespace. */
  lemma BeforeQuote(u: string, m: Call, p: nat)
    requires IsCall(u, m)
    ensures 7 <= p < m.head - 1 ==> u[p] == '(' || IsJsSpace(u[p])
  {
    AllInAt(u, 7, m.paren, Spaces, p);
    AllInAt(u, m.paren + 1, m.head - 1, Spaces, p);
  }

  /** A match in `u` ends by `n` when `u` has a quote at `n - 1`, `.` at `n`,
      and the word `require` further left: the word cannot lie before the
      opening quote, so the quote at `n - 1` is past it, and the path and
      the closing part cannot run over that quote and the `.`. */
  lemma CallEndsBefore(u: string, m: Call, n: nat, j: nat)
    requires IsCall(u, m) && 1 <= j && j + 2 < n - 1 && n < |u|
    requires IsQuote(u[n - 1]) && u[j] == 'r' && u[j + 2] == 'q' && u[n] == '.'
    ensures m.end <= n
  {
    BeforeQuote(u, m, j);
    BeforeQuote(u, m, j + 2);
    BeforeQuote(u, m, n - 1);
    assert m.head - 1 < j;
    AllInAt(u, m.head, m.close, NonQuotes, n - 1);
    AllInAt(u, m.close + 1, m.end - 1, Spaces, n - 1);
    AllInAt(u, m.close + 1, m.end - 1, Spaces, n);
  }
}
