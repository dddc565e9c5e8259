/** `slugify` (src/mocks/4_slugify.ts), the function one of the tasks asks
    the model to write tests for: a non-string gives the empty string; a
    string is lowered, trimmed, has each run of whitespace turned into `-`,
    loses every character outside `[A-Za-z0-9_-]`, and has each run of
    dashes collapsed into one. Lowering is modelled on ASCII letters. */
module Slugify {
  import opened Text

  /** The argument: `typeof text === 'string'` or anything else. */
  datatype Arg = Str(s: string) | NonString

  predicate IsUpper(c: char) { 'A' <= c <= 'Z' }

  /** The regular-expression class `[\w\-]`. */
  predicate IsWordOrDash(c: char) {
    'a' <= c <= 'z' || IsUpper(c) || '0' <= c <= '9' || c == '_' || c == '-'
  }

  /** A character a slug may hold: a lower-case letter, a digit, `_` or `-`. */
  predicate IsSlugChar(c: char) {
    'a' <= c <= 'z' || '0' <= c <= '9' || c == '_' || c == '-'
  }

  /** No two dashes stand next to each other. */
  predicate NoDoubleDash(s: string) {
    forall i :: 0 <= i < |s| - 1 ==> !(s[i] == '-' && s[i + 1] == '-')
  }

  /** What `slugify` can return. */
  predicate IsSlug(s: string) {
    (forall i :: 0 <= i < |s| ==> IsSlugChar(s[i])) && NoDoubleDash(s)
  }

  function LowerChar(c: char): char {
    if IsUpper(c) then (c as int + 32) as char else c
  }

  /** `toLowerCase()` */
  function Lower(s: string): (r: string)
    ensures |r| == |s|
    ensures forall i :: 0 <= i < |s| ==> !IsUpper(r[i])
    ensures forall i :: 0 <= i < |s| ==> (r[i] == s[i] <==> !IsUpper(s[i]))
  {
    seq(|s|, i requires 0 <= i < |s| => LowerChar(s[i]))
  }

  function TrimStart(s: string): (r: string)
    ensures |r| <= |s| && r == s[|s| - |r|..]
    ensures |r| > 0 ==> !IsJsSpace(r[0])
    ensures AllSpace(s[..|s| - |r|])
    decreases |s|
  {
    if |s| > 0 && IsJsSpace(s[0]) then TrimStart(s[1..]) else s
  }

  function TrimEnd(s: string): (r: string)
    ensures |r| <= |s| && r == s[..|r|]
    ensures |r| > 0 ==> !IsJsSpace(r[|r| - 1])
    ensures AllSpace(s[|r|..])
    decreases |s|
  {
    if |s| > 0 && IsJsSpace(s[|s| - 1]) then TrimEnd(s[..|s| - 1]) else s
  }

  /** `trim()`: the text between the leading and the trailing whitespace. */
  function Trim(s: string): (r: string)
    ensures |r| > 0 ==> !IsJsSpace(r[0]) && !IsJsSpace(r[|r| - 1])
  {
    TrimEnd(TrimStart(s))
  }

  /** Runs of whitespace become one dash: a whitespace character is written
      as `-` when it ends its run and dropped otherwise. */
  function DashSpaces(s: string): (r: string)
    ensures forall c :: c in r ==> (c in s && !IsJsSpace(c)) || c == '-'
    decreases |s|
  {
    if |s| == 0 then ""
    else if IsJsSpace(s[0]) then
      if |s| > 1 && IsJsSpace(s[1]) then DashSpaces(s[1..]) else "-" + DashSpaces(s[1..])
    else [s[0]] + DashSpaces(s[1..])
  }

  /** Everything but word characters and dashes is removed. */
  function KeepWordChars(s: string): (r: string)
    ensures forall c :: c in r <==> c in s && IsWordOrDash(c)
    decreases |s|
  {
    if |s| == 0 then ""
    else (if IsWordOrDash(s[0]) then [s[0]] else "") + KeepWordChars(s[1..])
  }

  /** Runs of dashes become one dash: a dash followed by another is dropped, so
      each run of dashes leaves one. */
  function CollapseDashes(s: string): (r: string)
    ensures forall c :: c in r ==> c in s
    ensures |s| > 0 ==> |r| > 0 && r[0] == s[0]
    ensures NoDoubleDash(r)
    decreases |s|
  {
    if |s| == 0 then ""
    else if |s| > 1 && s[0] == '-' && s[1] == '-' then CollapseDashes(s[1..])
    else [s[0]] + CollapseDashes(s[1..])
  }

  /** `slugify(text)` */
  function Slugify(text: Arg): string {
    match text
    case NonString => ""
    case Str(s) => CollapseDashes(KeepWordChars(DashSpaces(Trim(Lower(s)))))
  }

  /** Anything that is not a string gives `''`. */
  lemma NonStringEmpty()
    ensures Slugify(NonString) == ""
  {
  }

  /** Every result is a slug: lower-case ASCII letters, digits, `_` and `-`
      only (so no whitespace), and never two dashes in a row. */
  lemma ResultIsSlug(text: Arg)
    ensures IsSlug(Slugify(text))
    ensures forall i :: 0 <= i < |Slugify(text)| ==> !IsJsSpace(Slugify(text)[i])
  {
    if text.Str? {
      var kept := KeepWordChars(DashSpaces(Trim(Lower(text.s))));
      KeptAreSlugChars(text.s);
      var r := CollapseDashes(kept);
      forall i | 0 <= i < |r|
        ensures IsSlugChar(r[i]) && !IsJsSpace(r[i])
      {
        assert r[i] in kept;
        SlugCharNotSpace(r[i]);
      }
    }
  }

  /** What survives the filter is a slug character. */
  lemma KeptAreSlugChars(s: string)
    ensures forall c :: c in KeepWordChars(DashSpaces(Trim(Lower(s)))) ==> IsSlugChar(c)
  {
    var lowered := Lower(s);
    var trimmed := Trim(lowered);
    TrimChars(lowered);
    forall c | c in KeepWordChars(DashSpaces(trimmed))
      ensures IsSlugChar(c)
    {
      assert c in DashSpaces(trimmed) && IsWordOrDash(c);
      if c != '-' {
        assert c in lowered;
        var i :| 0 <= i < |lowered| && lowered[i] == c;
      }
    }
  }

  /** Trimming keeps only characters of its input. */
  lemma TrimChars(s: string)
    ensures forall c :: c in Trim(s) ==> c in s
  {
    var t := TrimStart(s);
    assert forall c :: c in t ==> c in s;
    assert forall c :: c in TrimEnd(t) ==> c in t;
  }

  lemma SlugCharNotSpace(c: char)
    requires IsSlugChar(c)
    ensures !IsJsSpace(c)
  {
  }

  lemma {:induction false} LowerKeepsSlug(s: string)
    requires IsSlug(s)
    ensures Lower(s) == s
  {
  }

  lemma {:induction false} DashSpacesKeepsSpaceless(s: string)
    requires forall i :: 0 <= i < |s| ==> !IsJsSpace(s[i])
    ensures DashSpaces(s) == s
    decreases |s|
  {
    if |s| > 0 {
      DashSpacesKeepsSpaceless(s[1..]);
    }
  }

  lemma {:induction false} KeepWordCharsKeepsWords(s: string)
    requires forall i :: 0 <= i < |s| ==> IsWordOrDash(s[i])
    ensures KeepWordChars(s) == s
    decreases |s|
  {
    if |s| > 0 {
      KeepWordCharsKeepsWords(s[1..]);
    }
  }

  lemma {:induction false} CollapseKeepsSingleDashes(s: string)
    requires NoDoubleDash(s)
    ensures CollapseDashes(s) == s
    decreases |s|
  {
    if |s| > 0 {
      CollapseKeepsSingleDashes(s[1..]);
    }
  }

  /** Text that neither starts nor ends with whitespace is its own trim. */
  lemma TrimKeepsUnpadded(s: string)
    requires |s| > 0 ==> !IsJsSpace(s[0]) && !IsJsSpace(s[|s| - 1])
    ensures Trim(s) == s
  {
    assert TrimStart(s) == s;
  }

  /** A slug is its own slug. */
  lemma SlugFixed(s: string)
    requires IsSlug(s)
    ensures Slugify(Str(s)) == s
  {
    LowerKeepsSlug(s);
    TrimKeepsUnpadded(s);
    DashSpacesKeepsSpaceless(s);
    KeepWordCharsKeepsWords(s);
    CollapseKeepsSingleDashes(s);
  }

  /** Slugifying a slug changes nothing. */
  lemma Idempotent(text: Arg)
    ensures Slugify(Str(Slugify(text))) == Slugify(text)
  {
    ResultIsSlug(text);
    SlugFixed(Slugify(text));
  }

  predicate IsLetters(s: string) {
    forall i :: 0 <= i < |s| ==> 'a' <= s[i] <= 'z' || IsUpper(s[i])
  }

  /** A leading space before spaceless text becomes a dash. */
  lemma DashSpacesLeadingSpace(b: string)
    requires forall i :: 0 <= i < |b| ==> !IsJsSpace(b[i])
    ensures DashSpaces(" " + b) == "-" + b
  {
    assert (" " + b)[1..] == b;
    DashSpacesKeepsSpaceless(b);
  }

  /** One space between two spaceless texts becomes one dash. */
  lemma {:induction false} DashSpacesOneSpace(a: string, b: string)
    requires forall i :: 0 <= i < |a| ==> !IsJsSpace(a[i])
    requires forall i :: 0 <= i < |b| ==> !IsJsSpace(b[i])
    ensures DashSpaces(a + " " + b) == a + "-" + b
    decreases |a|
  {
    if |a| == 0 {
      assert a + " " + b == " " + b;
      assert a + "-" + b == "-" + b;
      DashSpacesLeadingSpace(b);
    } else {
      var t := a + " " + b;
      assert t[0] == a[0] && t[1..] == a[1..] + " " + b;
      DashSpacesOneSpace(a[1..], b);
      assert DashSpaces(t) == [a[0]] + DashSpaces(t[1..]);
      assert a + "-" + b == [a[0]] + (a[1..] + "-" + b);
    }
  }

  /** Lowering goes around a space. */
  lemma LowerAroundSpace(u: string, v: string)
    ensures Lower(u + " " + v) == Lower(u) + " " + Lower(v)
  {
    var s := u + " " + v;
    var w := Lower(u) + " " + Lower(v);
    forall i | 0 <= i < |s|
      ensures Lower(s)[i] == w[i]
    {
      if i < |u| {
        assert s[i] == u[i];
      } else if i > |u| {
        assert s[i] == v[i - |u| - 1];
      }
    }
  }

  predicate IsLowerLetters(s: string) {
    forall i :: 0 <= i < |s| ==> 'a' <= s[i] <= 'z'
  }

  /** Lower-case letters joined by a dash hold only letters and that dash. */
  lemma JoinedLowerLetters(a: string, b: string)
    requires IsLowerLetters(a) && IsLowerLetters(b)
    ensures var d := a + "-" + b;
            (forall i :: 0 <= i < |d| ==> IsWordOrDash(d[i])) && NoDoubleDash(d)
  {
    var d := a + "-" + b;
    forall i | 0 <= i < |d|
      ensures d[i] == '-' <==> i == |a|
      ensures IsWordOrDash(d[i])
    {
      if i < |a| {
        assert d[i] == a[i];
      } else if i > |a| {
        assert d[i] == b[i - |a| - 1];
      }
    }
  }

  /** After lowering, two words and a space become the words and a dash. */
  lemma LoweredTwoWords(a: string, b: string)
    requires |a| > 0 && |b| > 0 && IsLowerLetters(a) && IsLowerLetters(b)
    ensures CollapseDashes(KeepWordChars(DashSpaces(Trim(a + " " + b)))) == a + "-" + b
  {
    var w := a + " " + b;
    assert w[0] == a[0] && w[|w| - 1] == b[|b| - 1];
    TrimKeepsUnpadded(w);
    DashSpacesOneSpace(a, b);
    JoinedLowerLetters(a, b);
    KeepWordCharsKeepsWords(a + "-" + b);
    CollapseKeepsSingleDashes(a + "-" + b);
  }

  /** Two words of letters with one space between them come out lowered and
      joined by a dash. */
  lemma TwoWords(u: string, v: string)
    requires |u| > 0 && |v| > 0 && IsLetters(u) && IsLetters(v)
    ensures Slugify(Str(u + " " + v)) == Lower(u) + "-" + Lower(v)
  {
    LowerAroundSpace(u, v);
    LoweredTwoWords(Lower(u), Lower(v));
  }

  /** The two words of the example, and how they are lowered. */
  lemma HelloWorldWords()
    ensures IsLetters("Hello") && IsLetters("World")
    ensures Lower("Hello") == "hello" && Lower("World") == "world"
  {
  }

  /** The example's input and its expected slug, each as two joined words. */
  lemma HelloWorldJoins()
    ensures "Hello" + " " + "World" == "Hello World"
    ensures "hello" + "-" + "world" == "hello-world"
  {
  }

  /** `slugify("Hello World")` is `"hello-world"`. */
  lemma HelloWorld()
    ensures Slugify(Str("Hello World")) == "hello-world"
  {
    HelloWorldWords();
    HelloWorldJoins();
    TwoWords("Hello", "World");
  }
}
