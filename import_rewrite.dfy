/** The import rewrite of `validateWithJest`
    (src/validators/jestValidator.js:30-32): a global replacement of the
    pattern `(from\s+)(['"])(\.\/.*?)(['"])`. At each position, left to
    right, the pattern needs `from`, a run of whitespace, a quote, `./`,
    and then (lazily) characters other than line terminators up to the
    first quote of either kind. A match is replaced by its `from`,
    whitespace and opening quote, the target specifier, and its closing
    quote; the search resumes after the match. */
module ImportRewrite {
  import opened Maybe
  import opened Text

  /** A character at which the lazy `.*?` must stop: a quote ends the
      specifier, a line terminator makes the match fail. */
  predicate IsStop(c: char) {
    IsQuote(c) || IsLineTerminator(c)
  }

  /** A replacement specifier that cannot itself end a specifier early. */
  predicate ValidTarget(target: string) {
    |target| >= 2 && target[0] == '.' && target[1] == '/'
    && forall k :: 2 <= k < |target| ==> !IsStop(target[k])
  }

  /** The first stop character at or after `i` (or `|s|` if there is none). */
  function StopFrom(s: string, i: nat): (e: nat)
    requires i <= |s|
    ensures i <= e <= |s|
    decreases |s| - i
  {
    if i == |s| || IsStop(s[i]) then i else StopFrom(s, i + 1)
  }

  /** `s` begins with the word `from`. */
  predicate StartsWithFrom(s: string) {
    |s| >= 4 && s[0] == 'f' && s[1] == 'r' && s[2] == 'o' && s[3] == 'm'
  }

  /** Where a match lies in `s`: `s[..head]` is `from`, whitespace and the
      opening quote; `s[head..close]` is the specifier; `s[close]` the
      closing quote. */
  datatype Span = Span(head: nat, close: nat)

  /** The shape every match has. */
  predicate IsMatch(s: string, sp: Span) {
    && 6 <= sp.head && sp.head + 2 <= sp.close < |s|
    && StartsWithFrom(s)
    && (forall k :: 4 <= k < sp.head - 1 ==> IsJsSpace(s[k]))
    && IsQuote(s[sp.head - 1])
    && s[sp.head] == '.' && s[sp.head + 1] == '/'
    && (forall k :: sp.head + 2 <= k < sp.close ==> !IsStop(s[k]))
    && IsQuote(s[sp.close])
  }

  /** The match of the pattern at the start of `s`, if any. */
  function MatchFrom(s: string): (r: Option<Span>)
    ensures r.Some? ==> 6 <= r.value.head && r.value.head + 2 <= r.value.close < |s|
  {
    if StartsWithFrom(s) then
      var w := SpaceRun(s, 4);
      if w >= 1 && 7 + w <= |s| && IsQuote(s[4 + w]) && s[5 + w] == '.' && s[6 + w] == '/' then
        var e := StopFrom(s, 7 + w);
        if e < |s| && IsQuote(s[e]) then Some(Span(5 + w, e)) else None
      else None
    else None
  }

  /** The global replacement. */
  function RewriteImports(s: string, target: string): string
    decreases |s|
  {
    if |s| == 0 then ""
    else match MatchFrom(s)
      case Some(sp) => s[..sp.head] + (target + [s[sp.close]] + RewriteImports(s[sp.close + 1..], target))
      case None => [s[0]] + RewriteImports(s[1..], target)
  }

  /** One step of the rewrite at a match. */
  lemma RewriteAtMatch(s: string, sp: Span, target: string)
    requires MatchFrom(s) == Some(sp)
    ensures RewriteImports(s, target)
         == s[..sp.head] + (target + [s[sp.close]] + RewriteImports(s[sp.close + 1..], target))
  {
  }

  /** One step of the rewrite where nothing matches. */
  lemma RewriteNoMatch(s: string, target: string)
    requires |s| > 0 && MatchFrom(s).None?
    ensures RewriteImports(s, target) == [s[0]] + RewriteImports(s[1..], target)
  {
  }

  lemma {:induction false} StopFromFacts(s: string, i: nat)
    requires i <= |s|
    ensures forall k :: i <= k < StopFrom(s, i) ==> !IsStop(s[k])
    ensures StopFrom(s, i) < |s| ==> IsStop(s[StopFrom(s, i)])
    decreases |s| - i
  {
    if i < |s| && !IsStop(s[i]) {
      StopFromFacts(s, i + 1);
    }
  }

  lemma {:induction false} StopFromIs(s: string, i: nat, e: nat)
    requires i <= e <= |s|
    requires forall k :: i <= k < e ==> !IsStop(s[k])
    requires e == |s| || IsStop(s[e])
    ensures StopFrom(s, i) == e
    decreases e - i
  {
    if i < e {
      StopFromIs(s, i + 1, e);
    }
  }

  /** Every match has the shape of the pattern. */
  lemma MatchShape(s: string)
    requires MatchFrom(s).Some?
    ensures IsMatch(s, MatchFrom(s).value)
  {
    SpaceRunFacts(s, 4);
    StopFromFacts(s, 7 + SpaceRun(s, 4));
  }

  /** The pattern matches at the start of `s` when `s` reads `from`, a
      whitespace run, a quote, `./`, a specifier tail free of stops and a
      quote. */
  lemma MatchAt(s: string, w: nat, b: nat)
    requires 7 + w + b < |s|
    requires StartsWithFrom(s)
    requires w >= 1 && forall k :: 4 <= k < 4 + w ==> IsJsSpace(s[k])
    requires IsQuote(s[4 + w]) && s[5 + w] == '.' && s[6 + w] == '/'
    requires forall k :: 7 + w <= k < 7 + w + b ==> !IsStop(s[k])
    requires IsQuote(s[7 + w + b])
    ensures MatchFrom(s) == Some(Span(5 + w, 7 + w + b))
  {
    SpaceRunIs(s, 4, w);
    StopFromIs(s, 7 + w, 7 + w + b);
  }

  lemma RelativeMatch(ws: string, q1: char, body: string, q2: char, rest: string)
    requires |ws| >= 1 && AllSpace(ws)
    requires IsQuote(q1) && IsQuote(q2)
    requires forall k :: 0 <= k < |body| ==> !IsStop(body[k])
    ensures MatchFrom("from" + ws + [q1] + "./" + body + [q2] + rest)
         == Some(Span(5 + |ws|, 7 + |ws| + |body|))
  {
    var s := "from" + ws + [q1] + "./" + body + [q2] + rest;
    var w := |ws|;
    assert |s| == 8 + w + |body| + |rest|;
    assert s[0] == 'f' && s[1] == 'r' && s[2] == 'o' && s[3] == 'm';
    assert forall k :: 4 <= k < 4 + w ==> s[k] == ws[k - 4];
    assert s[4 + w] == q1 && s[5 + w] == '.' && s[6 + w] == '/';
    assert forall k :: 7 + w <= k < 7 + w + |body| ==> s[k] == body[k - 7 - w];
    assert s[7 + w + |body|] == q2;
    MatchAt(s, w, |body|);
  }

  /** A `from` clause whose specifier starts with `./` is rewritten to the
      target, keeping `from`, the whitespace and both quotes. */
  lemma RewritesRelativeSpecifier(ws: string, q1: char, body: string, q2: char, rest: string, target: string)
    requires |ws| >= 1 && AllSpace(ws)
    requires IsQuote(q1) && IsQuote(q2)
    requires forall k :: 0 <= k < |body| ==> !IsStop(body[k])
    ensures RewriteImports("from" + ws + [q1] + "./" + body + [q2] + rest, target)
         == "from" + ws + [q1] + (target + [q2] + RewriteImports(rest, target))
  {
    var s := "from" + ws + [q1] + "./" + body + [q2] + rest;
    var e := 7 + |ws| + |body|;
    RelativeMatch(ws, q1, body, q2, rest);
    RelativeParts(ws, q1, body, q2, rest);
    RewriteAtMatchParts(s, Span(5 + |ws|, e), target, "from" + ws + [q1], q2, rest);
  }

  /** The parts of a relative `from` clause. */
  lemma RelativeParts(ws: string, q1: char, body: string, q2: char, rest: string)
    ensures var s := "from" + ws + [q1] + "./" + body + [q2] + rest;
            var e := 7 + |ws| + |body|;
            && e < |s|
            && s[..5 + |ws|] == "from" + ws + [q1]
            && s[e] == q2
            && s[e + 1..] == rest
  {
    var s := "from" + ws + [q1] + "./" + body + [q2] + rest;
    var pre := "from" + ws + [q1];
    var mid := "./" + body + [q2];
    assert s == pre + mid + rest;
    assert s[7 + |ws| + |body|] == mid[2 + |body|];
  }

  /** No match can start in a prefix that holds no match start: the
      rewrite copies it. */
  lemma {:induction false} RewriteSkip(s: string, n: nat, target: string)
    requires n <= |s|
    requires forall i :: 0 <= i < n ==> MatchFrom(s[i..]).None?
    ensures RewriteImports(s, target) == s[..n] + RewriteImports(s[n..], target)
    decreases n
  {
    if n > 0 {
      assert MatchFrom(s[0..]).None?;
      assert s[0..] == s;
      forall i | 0 <= i < n - 1
        ensures MatchFrom(s[1..][i..]).None?
      {
        assert s[1..][i..] == s[i + 1..];
      }
      RewriteSkip(s[1..], n - 1, target);
      RewriteNoMatch(s, target);
      assert s[1..][n - 1..] == s[n..];
      assert s[..n] == [s[0]] + s[1..][..n - 1];
      AppendAssoc([s[0]], s[1..][..n - 1], RewriteImports(s[n..], target));
    }
  }

  /** Text without the word `from` (a bare `import './styles.css'`, a
      `require`) passes through unchanged. */
  lemma {:induction false} NoFromUnchanged(s: string, target: string)
    requires !Contains(s, "from")
    ensures RewriteImports(s, target) == s
    decreases |s|
  {
    if |s| > 0 {
      NoFromUnchanged(s[1..], target);
      RewriteNoMatch(s, target);
      assert s == [s[0]] + s[1..];
    }
  }

  /** A `from` clause whose specifier does not start with `./` (a package
      such as 'react', or '../x') is left byte for byte; the rewrite goes on
      after it. */
  lemma PackageSpecifierUntouched(ws: string, q1: char, spec: string, q2: char, rest: string, target: string)
    requires |ws| >= 1 && AllSpace(ws)
    requires IsQuote(q1) && IsQuote(q2)
    requires !StartsWith(spec, "./") && !Contains(spec, "from")
    ensures RewriteImports("from" + ws + [q1] + spec + [q2] + rest, target)
         == "from" + ws + [q1] + spec + [q2] + RewriteImports(rest, target)
  {
    var a := "from" + ws + [q1] + spec + [q2];
    var s := a + rest;
    var w := |ws|;
    var m := |spec|;
    var n := |a|;
    assert n == 6 + w + m;
    assert s[0] == 'f' && s[1] == 'r' && s[2] == 'o' && s[3] == 'm';
    assert forall k :: 4 <= k < 4 + w ==> s[k] == ws[k - 4];
    assert s[4 + w] == q1;
    assert s[5 + w + m] == q2;
    assert s[5 + w..5 + w + m] == spec;
    PackageClauseNoMatch(s, w, m);
    RewriteSkip(s, n, target);
    assert s[..n] == a && s[n..] == rest;
  }

  /** No match starts anywhere in such a clause. */
  lemma PackageClauseNoMatch(s: string, w: nat, m: nat)
    requires 6 + w + m <= |s|
    requires StartsWithFrom(s)
    requires w >= 1 && forall k :: 4 <= k < 4 + w ==> IsJsSpace(s[k])
    requires IsQuote(s[4 + w]) && IsQuote(s[5 + w + m])
    requires !StartsWith(s[5 + w..5 + w + m], "./") && !Contains(s[5 + w..5 + w + m], "from")
    ensures forall i :: 0 <= i < 6 + w + m ==> MatchFrom(s[i..]).None?
  {
    forall i | 0 <= i < 6 + w + m
      ensures MatchFrom(s[i..]).None?
    {
      if i == 0 {
        assert s[0..] == s;
        PackageNoMatch(s, w, m);
      } else if i < 5 + w {
        assert s[i..][0] == s[i];
      } else {
        NoFromStartsInside(s, 5 + w, 5 + w + m, i);
      }
    }
  }

  /** A `from` clause with a specifier that does not start with `./` does
      not match. */
  lemma PackageNoMatch(s: string, w: nat, m: nat)
    requires 6 + w + m <= |s|
    requires StartsWithFrom(s)
    requires w >= 1 && forall k :: 4 <= k < 4 + w ==> IsJsSpace(s[k])
    requires IsQuote(s[4 + w]) && IsQuote(s[5 + w + m])
    requires !StartsWith(s[5 + w..5 + w + m], "./")
    ensures MatchFrom(s).None?
  {
    SpaceRunIs(s, 4, w);
    if m >= 2 {
      assert s[5 + w..5 + w + m][..2] == [s[5 + w], s[6 + w]];
    }
  }

  /** No match starts inside a stretch without `from` that is followed by a quote. */
  lemma NoFromStartsInside(s: string, lo: nat, hi: nat, i: nat)
    requires lo <= i <= hi < |s|
    requires !Contains(s[lo..hi], "from") && IsQuote(s[hi])
    ensures MatchFrom(s[i..]).None?
  {
    if StartsWithFrom(s[i..]) {
      if i + 4 <= hi {
        var t := s[lo..hi];
        var j := i - lo;
        assert t[j] == s[i] && t[j + 1] == s[i + 1] && t[j + 2] == s[i + 2] && t[j + 3] == s[i + 3];
        assert t[j..j + 4] == "from";
        WindowContains(t, "from", j);
      }
    }
  }

  /** After a rewrite, the same place matches again, now around the target. */
  lemma MatchAfterRewrite(s: string, sp: Span, target: string, tail: string)
    requires MatchFrom(s) == Some(sp) && ValidTarget(target)
    ensures MatchFrom(s[..sp.head] + (target + [s[sp.close]] + tail))
         == Some(Span(sp.head, sp.head + |target|))
  {
    MatchShape(s);
    var out := s[..sp.head] + (target + [s[sp.close]] + tail);
    var h := sp.head;
    assert forall k :: 0 <= k < h ==> out[k] == s[k];
    assert forall k :: 0 <= k < |target| ==> out[h + k] == target[k];
    assert out[h + |target|] == s[sp.close];
    MatchAt(out, h - 5, |target| - 2);
  }

  /** Whether the pattern matches at the start of `u` is decided before a
      quote at `n - 1` if `u` agrees with `s` up to it, and both continue
      with `./`, a specifier and a closing quote: if `u` matches, so does `s`. */
  lemma MatchTransfers(s: string, u: string, n: nat, es: nat, eu: nat)
    requires 7 <= n && n + 2 <= es < |s| && n + 2 <= eu < |u|
    requires s[..n] == u[..n] && IsQuote(s[n - 1])
    requires s[n] == '.' && s[n + 1] == '/' && u[n] == '.' && u[n + 1] == '/'
    requires forall k :: n + 2 <= k < es ==> !IsStop(s[k])
    requires forall k :: n + 2 <= k < eu ==> !IsStop(u[k])
    requires IsQuote(s[es]) && IsQuote(u[eu])
    ensures MatchFrom(u).Some? ==> MatchFrom(s).Some?
  {
    if MatchFrom(u).Some? {
      var sp := MatchFrom(u).value;
      MatchShape(u);
      assert forall k :: 0 <= k < n ==> s[k] == u[k];
      assert !IsJsSpace(u[n - 1]);
      assert sp.head <= n;
      if sp.head == n {
        MatchAt(s, n - 5, es - n - 2);
      } else {
        assert u[sp.head + 1] == '/';
        assert sp.head + 2 <= n - 1;
        assert sp.close <= n - 1;
        MatchAt(s, sp.head - 5, sp.close - sp.head - 2);
      }
    }
  }

  /** Where the rewrite of `t` first changes anything: at offset `k` a
      match `sp` starts; up to its specifier the text is copied, then come
      the target and the closing quote of that match, then `rest`. */
  predicate FirstChange(t: string, target: string, k: nat, sp: Span, rest: string) {
    && k < |t| && MatchFrom(t[k..]) == Some(sp) && k + sp.close < |t|
    && RewriteImports(t, target) == t[..k + sp.head] + (target + [t[k + sp.close]] + rest)
  }

  /** Either the rewrite changes nothing, or it has a first change. */
  lemma {:induction false} FirstMatch(t: string, target: string) returns (found: bool, k: nat, sp: Span, rest: string)
    ensures !found ==> RewriteImports(t, target) == t
    ensures found ==> FirstChange(t, target, k, sp, rest)
    decreases |t|
  {
    if |t| == 0 {
      found, k, sp, rest := false, 0, Span(0, 0), "";
    } else if MatchFrom(t).Some? {
      found, k, sp := true, 0, MatchFrom(t).value;
      rest := RewriteImports(t[sp.close + 1..], target);
      FirstChangeHere(t, target);
      assert FirstChange(t, target, k, sp, rest);
    } else {
      var f, k1, sp1, rest1 := FirstMatch(t[1..], target);
      found, k, sp, rest := f, k1 + 1, sp1, rest1;
      FirstMatchShift(t, f, k1, k, sp, rest, target);
      assert found ==> FirstChange(t, target, k, sp, rest);
    }
  }

  lemma FirstChangeHere(t: string, target: string)
    requires MatchFrom(t).Some?
    ensures var sp := MatchFrom(t).value;
            FirstChange(t, target, 0, sp, RewriteImports(t[sp.close + 1..], target))
  {
    var sp := MatchFrom(t).value;
    assert t[0..] == t;
    RewriteAtMatch(t, sp, target);
  }

  /** The step of `FirstMatch` past a position where nothing matches. */
  lemma FirstMatchShift(t: string, f: bool, k1: nat, k: nat, sp: Span, rest: string, target: string)
    requires |t| > 0 && MatchFrom(t).None? && k == k1 + 1
    requires !f ==> RewriteImports(t[1..], target) == t[1..]
    requires f ==> FirstChange(t[1..], target, k1, sp, rest)
    ensures !f ==> RewriteImports(t, target) == t
    ensures f ==> FirstChange(t, target, k, sp, rest)
  {
    RewriteNoMatch(t, target);
    if !f {
      assert t == [t[0]] + t[1..];
    } else {
      ShiftSlices(t, k1, k, sp);
      ShiftAssembly(RewriteImports(t, target), RewriteImports(t[1..], target), t[0],
        t[1..][..k1 + sp.head], t[..k + sp.head], target, t[1..][k1 + sp.close], t[k + sp.close], rest);
    }
  }

  /** Slices of `t[1..]` seen from the start of `t`. */
  lemma ShiftSlices(t: string, k1: nat, k: nat, sp: Span)
    requires k == k1 + 1 && sp.head <= sp.close && k1 + sp.close < |t| - 1
    ensures t[1..][k1..] == t[k..]
    ensures t[1..][k1 + sp.close] == t[k + sp.close]
    ensures t[..k + sp.head] == [t[0]] + t[1..][..k1 + sp.head]
  {
  }

  /** One character in front of an assembled text joins its first part. */
  lemma ShiftAssembly(x: string, y: string, c: char, a: string, a': string,
                      tg: string, d: char, d': char, rest: string)
    requires x == [c] + y && y == a + (tg + [d] + rest)
    requires a' == [c] + a && d' == d
    ensures x == a' + (tg + [d'] + rest)
  {
    AppendAssoc([c], a, tg + [d] + rest);
  }

  /** Rewriting twice gives the same text as rewriting once. */
  lemma {:induction false} RewriteIdempotent(s: string, target: string)
    requires ValidTarget(target)
    ensures RewriteImports(RewriteImports(s, target), target) == RewriteImports(s, target)
    decreases |s|
  {
    if |s| > 0 {
      if MatchFrom(s).Some? {
        var sp := MatchFrom(s).value;
        RewriteIdempotent(s[sp.close + 1..], target);
        IdempotentAtMatch(s, sp, target);
      } else {
        RewriteIdempotent(s[1..], target);
        IdempotentPastNoMatch(s, target);
      }
    }
  }

  lemma IdempotentAtMatch(s: string, sp: Span, target: string)
    requires ValidTarget(target) && MatchFrom(s) == Some(sp)
    requires var r := RewriteImports(s[sp.close + 1..], target);
             RewriteImports(r, target) == r
    ensures RewriteImports(RewriteImports(s, target), target) == RewriteImports(s, target)
  {
    var r := RewriteImports(s[sp.close + 1..], target);
    var out := s[..sp.head] + (target + [s[sp.close]] + r);
    assert RewriteImports(s, target) == out by {
      RewriteAtMatch(s, sp, target);
    }
    RewrittenMatchFixed(s, sp, target, r);
  }

  /** A rewritten match followed by text the rewrite leaves alone is left alone. */
  lemma RewrittenMatchFixed(s: string, sp: Span, target: string, r: string)
    requires ValidTarget(target) && MatchFrom(s) == Some(sp)
    requires RewriteImports(r, target) == r
    ensures var out := s[..sp.head] + (target + [s[sp.close]] + r);
            RewriteImports(out, target) == out
  {
    RewriteOfRewritten(s, sp, target, r);
  }

  /** Rewriting a rewritten match leaves it and goes on after it. */
  lemma RewriteOfRewritten(s: string, sp: Span, target: string, r: string)
    requires ValidTarget(target) && MatchFrom(s) == Some(sp)
    ensures var out := s[..sp.head] + (target + [s[sp.close]] + r);
            RewriteImports(out, target) == s[..sp.head] + (target + [s[sp.close]] + RewriteImports(r, target))
  {
    var out := s[..sp.head] + (target + [s[sp.close]] + r);
    var h := sp.head + |target|;
    MatchAfterRewrite(s, sp, target, r);
    RewrittenParts(s, sp, target, r);
    RewriteAtMatchParts(out, Span(sp.head, h), target, s[..sp.head], s[sp.close], r);
  }

  /** `RewriteAtMatch` with the three parts of the text named. */
  lemma RewriteAtMatchParts(s: string, sp: Span, target: string, pre: string, c: char, post: string)
    requires MatchFrom(s) == Some(sp)
    requires pre == s[..sp.head] && c == s[sp.close] && post == s[sp.close + 1..]
    ensures RewriteImports(s, target) == pre + (target + [c] + RewriteImports(post, target))
  {
    RewriteAtMatch(s, sp, target);
  }

  /** The parts of a rewritten match. */
  lemma RewrittenParts(s: string, sp: Span, target: string, r: string)
    requires sp.head <= sp.close < |s|
    ensures var out := s[..sp.head] + (target + [s[sp.close]] + r);
            var h := sp.head + |target|;
            && h < |out|
            && out[..sp.head] == s[..sp.head]
            && out[h] == s[sp.close]
            && out[h + 1..] == r
  {
  }

  lemma IdempotentPastNoMatch(s: string, target: string)
    requires ValidTarget(target) && |s| > 0 && MatchFrom(s).None?
    requires var r := RewriteImports(s[1..], target);
             RewriteImports(r, target) == r
    ensures RewriteImports(RewriteImports(s, target), target) == RewriteImports(s, target)
  {
    var t := s[1..];
    var r := RewriteImports(t, target);
    var out := [s[0]] + r;
    RewriteNoMatch(s, target);
    var found, k, sp, rest := FirstMatch(t, target);
    if !found {
      assert out == s;
    } else {
      NoMatchAfterRewrite(s, k, sp, rest, target);
      assert out == [s[0]] + (s[1..][..k + sp.head] + (target + [s[1..][k + sp.close]] + rest));
      RewriteNoMatch(out, target);
      assert out[1..] == r;
    }
  }

  /** Past a position where nothing matched, the rewritten text still does
      not match there: it agrees with the original text up to the opening
      quote of the first match, which continues with `./` in both. */
  lemma NoMatchAfterRewrite(s: string, k: nat, sp: Span, rest: string, target: string)
    requires ValidTarget(target) && |s| > 0 && MatchFrom(s).None?
    requires k < |s| - 1 && MatchFrom(s[1..][k..]) == Some(sp) && k + sp.close < |s| - 1
    ensures MatchFrom([s[0]] + (s[1..][..k + sp.head] + (target + [s[1..][k + sp.close]] + rest))).None?
  {
    var n := 1 + k + sp.head;
    var u := [s[0]] + (s[1..][..k + sp.head] + (target + [s[1..][k + sp.close]] + rest));
    OriginalAroundMatch(s, k, sp);
    RewrittenAroundMatch(s, k, sp, rest, target);
    MatchTransfers(s, u, n, 1 + k + sp.close, n + |target|);
  }

  /** The original text around the first match, seen from the start of `s`. */
  lemma OriginalAroundMatch(s: string, k: nat, sp: Span)
    requires |s| > 0 && k < |s| - 1 && MatchFrom(s[1..][k..]) == Some(sp) && k + sp.close < |s| - 1
    ensures var n := 1 + k + sp.head;
            && IsQuote(s[n - 1]) && s[n] == '.' && s[n + 1] == '/'
            && (forall j :: n + 2 <= j < 1 + k + sp.close ==> !IsStop(s[j]))
            && IsQuote(s[1 + k + sp.close])
  {
    MatchShape(s[1..][k..]);
    assert s[1..][k..] == s[1 + k..];
    MatchFieldsAt(s, 1 + k, sp);
  }

  /** The fields of a match that starts at offset `off` of `s`. */
  lemma MatchFieldsAt(s: string, off: nat, sp: Span)
    requires off <= |s| && IsMatch(s[off..], sp)
    ensures var n := off + sp.head;
            && IsQuote(s[n - 1]) && s[n] == '.' && s[n + 1] == '/'
            && (forall j :: n + 2 <= j < off + sp.close ==> !IsStop(s[j]))
            && IsQuote(s[off + sp.close])
  {
    var x := s[off..];
    assert forall j :: 0 <= j < |x| ==> x[j] == s[off + j];
  }

  /** The rewritten text around the first match, seen from the start. */
  lemma RewrittenAroundMatch(s: string, k: nat, sp: Span, rest: string, target: string)
    requires ValidTarget(target) && |s| > 0 && sp.head <= sp.close && k + sp.close < |s| - 1
    ensures var n := 1 + k + sp.head;
            var u := [s[0]] + (s[1..][..k + sp.head] + (target + [s[1..][k + sp.close]] + rest));
            && n + |target| < |u| && u[..n] == s[..n]
            && u[n] == '.' && u[n + 1] == '/'
            && (forall j :: n + 2 <= j < n + |target| ==> !IsStop(u[j]))
            && u[n + |target|] == s[1..][k + sp.close]
  {
    var n := 1 + k + sp.head;
    var tail := target + [s[1..][k + sp.close]] + rest;
    var u := [s[0]] + (s[1..][..k + sp.head] + tail);
    assert forall j :: 0 <= j < n ==> u[j] == s[j];
    assert forall j :: 0 <= j < |target| ==> u[n + j] == target[j];
  }
}
