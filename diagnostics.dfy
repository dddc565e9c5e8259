/** What both validators do with compiler diagnostics: drop the two
    allow-listed codes and turn each remaining diagnostic's message into text. */
module Diagnostics {
  import opened Compiler

  /** 2792 (cannot find module, e.g. `react/jsx-runtime`) and 2686 (`React`
      refers to a UMD global) are expected in an isolated single-file
      compile and never block. */
  predicate IsSuppressed(d: Diag) {
    d.code == 2792 || d.code == 2686
  }

  /** The diagnostics whose code is neither of the two allow-listed ones, in order. */
  function Critical(ds: seq<Diag>): (r: seq<Diag>)
    ensures forall d :: d in r <==> d in ds && !IsSuppressed(d)
    ensures |r| <= |ds|
    decreases |ds|
  {
    if |ds| == 0 then []
    else if IsSuppressed(ds[0]) then Critical(ds[1..])
    else [ds[0]] + Critical(ds[1..])
  }

  /** Filtering keeps diagnostic order: it distributes over concatenation. */
  lemma {:induction false} CriticalConcat(a: seq<Diag>, b: seq<Diag>)
    ensures Critical(a + b) == Critical(a) + Critical(b)
    decreases |a|
  {
    if |a| > 0 {
      assert (a + b)[1..] == a[1..] + b;
      CriticalConcat(a[1..], b);
    } else {
      assert a + b == b;
    }
  }

  /** A list of blocking diagnostics passes the filter unchanged. */
  lemma {:induction false} CriticalKeepsBlocking(ds: seq<Diag>)
    requires forall i :: 0 <= i < |ds| ==> !IsSuppressed(ds[i])
    ensures Critical(ds) == ds
    decreases |ds|
  {
    if |ds| > 0 {
      CriticalKeepsBlocking(ds[1..]);
    }
  }

  /** Nesting depth of a message. */
  function Depth(m: MsgText): nat {
    match m
    case Str(_) => 0
    case Chain(inner) => 1 + Depth(inner)
  }

  /** The innermost string of a message chain. */
  function Leaf(m: MsgText): string {
    match m
    case Str(s) => s
    case Chain(inner) => Leaf(inner)
  }

  /** JavaScript truthiness of a `messageText` value: any object, or a non-empty string. */
  predicate Truthy(m: MsgText) {
    m.Chain? || m.text != ""
  }

  /** The value tsValidator's loop stops at (it descends while the value is an
      object whose own `messageText` is truthy): a string, or a chain whose own text is the falsy `""`. */
  function Innermost(m: MsgText): (r: MsgText)
    ensures r.Str? || r.inner == Str("")
    ensures Leaf(r) == Leaf(m) && Depth(r) <= Depth(m)
  {
    if m.Chain? && Truthy(m.inner) then Innermost(m.inner) else m
  }

  /** What `Array.prototype.join` makes of a message value. */
  function Render(m: MsgText): string {
    match m
    case Str(s) => s
    case Chain(_) => "[object Object]"
  }

  /** tsValidator's flattening (src/validators/tsValidator.js:63-67). */
  function FlattenFully(m: MsgText): string {
    Render(Innermost(m))
  }

  /** The generated-code validator's flattening: a string as it is, a chain
      object's own `messageText` otherwise, whatever that is. */
  function FlattenOneLevel(m: MsgText): string {
    match m
    case Str(s) => s
    case Chain(inner) => Render(inner)
  }

  /** Both flattenings applied to a whole diagnostic list, in order. */
  function FlattenAll(ds: seq<Diag>): (r: seq<string>)
    ensures |r| == |ds|
    ensures forall i :: 0 <= i < |ds| ==> r[i] == FlattenFully(ds[i].msg)
  {
    seq(|ds|, i requires 0 <= i < |ds| => FlattenFully(ds[i].msg))
  }

  function FlattenAllOneLevel(ds: seq<Diag>): (r: seq<string>)
    ensures |r| == |ds|
    ensures forall i :: 0 <= i < |ds| ==> r[i] == FlattenOneLevel(ds[i].msg)
  {
    seq(|ds|, i requires 0 <= i < |ds| => FlattenOneLevel(ds[i].msg))
  }

  /** Full flattening reaches the innermost string of any finite chain whose
      innermost string is not empty. */
  lemma {:induction false} FlattenFindsLeaf(m: MsgText)
    requires Leaf(m) != ""
    ensures FlattenFully(m) == Leaf(m)
  {
    match m
    case Str(_) =>
    case Chain(inner) =>
      FlattenFindsLeaf(inner);
  }

  /** The two flattenings agree on what the compiler produces (a string, or
      one chain level over a non-empty string) and part company below it. */
  lemma OneLevelAgreesOnShallowChains(m: MsgText)
    requires Depth(m) <= 1 && Leaf(m) != ""
    ensures FlattenOneLevel(m) == FlattenFully(m) == Leaf(m)
  {
    FlattenFindsLeaf(m);
  }

  lemma OneLevelStopsEarly()
    ensures FlattenOneLevel(Chain(Chain(Str("x")))) == "[object Object]"
    ensures FlattenFully(Chain(Chain(Str("x")))) == "x"
  {
    FlattenFindsLeaf(Chain(Chain(Str("x"))));
  }
}
