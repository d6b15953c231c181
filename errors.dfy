/** The library's `Errors` enumeration: a message, or a message wrapping
    another error. Its description nests the wrapped error's text after a
    "\n:: " separator, and two values are `==` when their descriptions are
    equal. */
module DittoErrors {

  datatype Errors = Msg(message: string) | Wrap(message: string, inner: AnyError)

  /** The error `.wrap` holds: another `Errors`, or any other Swift error,
      of which only the text it interpolates to is known. */
  datatype AnyError = Ditto(error: Errors) | Foreign(text: string)

  const Prefix: string := "Error: "
  const Separator: string := "\n:: "

  /** `description`, used for string interpolation: every description starts
      with "Error: ". */
  function Description(e: Errors): (d: string)
    ensures |d| >= |Prefix| && d[..|Prefix|] == Prefix
  {
    match e
    case Msg(m) => Prefix + m
    case Wrap(m, Ditto(inner)) => Prefix + m + Separator + Description(inner)
    case Wrap(m, Foreign(text)) => Prefix + m + Separator + text
  }

  /** The text of a wrapped error as it is interpolated. */
  function InnerDescription(a: AnyError): string {
    match a
    case Ditto(e) => Description(e)
    case Foreign(text) => text
  }

  lemma DescriptionOfMsg(m: string)
    ensures Description(Msg(m)) == "Error: " + m
  {
  }

  lemma DescriptionOfWrap(m: string, inner: AnyError)
    ensures Description(Wrap(m, inner)) == "Error: " + m + "\n:: " + InnerDescription(inner)
  {
  }

  /** `_arg` and `_specifier` of the `_FormatSpecifiable` conformance. */
  function FormatArg(e: Errors): (a: string)
    ensures |a| >= |Prefix| && a[..|Prefix|] == Prefix
  {
    Description(e)
  }

  function FormatSpecifier(e: Errors): (a: string)
    ensures |a| >= |Prefix| && a[..|Prefix|] == Prefix
  {
    Description(e)
  }

  /** `==`: equal descriptions, so equal values are always `==`. */
  predicate Equal(a: Errors, b: Errors)
    ensures a == b ==> Equal(a, b)
  {
    Description(a) == Description(b)
  }

  lemma FormatArgumentsAreDescription(e: Errors)
    ensures FormatArg(e) == Description(e) && FormatSpecifier(e) == Description(e)
  {
  }

  lemma EqualIsEquivalence(a: Errors, b: Errors, c: Errors)
    ensures Equal(a, a)
    ensures Equal(a, b) ==> Equal(b, a)
    ensures Equal(a, b) && Equal(b, c) ==> Equal(a, c)
  {
  }

  /** `==` identifies values that differ: a message that spells out a nested
      description (such as "a\n:: Error: b"), and a wrapped error whose
      foreign text reads like one of ours. */
  lemma EqualIsCoarserThanIdentity(m: string, x: string)
    ensures Msg(m + Separator + Prefix + x) != Wrap(m, Ditto(Msg(x)))
    ensures Equal(Msg(m + Separator + Prefix + x), Wrap(m, Ditto(Msg(x))))
    ensures Equal(Wrap(m, Foreign(Prefix + x)), Wrap(m, Ditto(Msg(x))))
  {
    assert Description(Msg(m + Separator + Prefix + x)) == Prefix + (m + Separator + Prefix + x);
    assert Description(Wrap(m, Ditto(Msg(x)))) == Prefix + m + Separator + (Prefix + x);
  }

  // When `==` is identity

  predicate NoNewline(s: string) {
    forall i :: 0 <= i < |s| ==> s[i] != '\n'
  }

  /** Every message is a single line and every wrapped error is one of
      ours. */
  predicate SingleLine(e: Errors) {
    match e
    case Msg(m) => NoNewline(m)
    case Wrap(m, Ditto(inner)) => NoNewline(m) && SingleLine(inner)
    case Wrap(m, Foreign(_)) => false
  }

  lemma {:induction false} SplitOrdered(m: string, x: string, m': string, y: string)
    requires NoNewline(m) && NoNewline(m') && |m| <= |m'|
    requires Prefix + m + Separator + x == Prefix + m' + Separator + y
    ensures m == m' && x == y
  {
    var l, r := Prefix + m + Separator + x, Prefix + m' + Separator + y;
    var k := |Prefix|;
    assert l[k + |m|] == '\n';
    assert m == l[k..k + |m|] == r[k..k + |m'|] == m';
    assert x == l[k + |m| + |Separator|..] == r[k + |m'| + |Separator|..] == y;
  }

  /** The first line of a wrapping description is "Error: " and the
      message, so a single-line message is recovered from it. */
  lemma SplitAtSeparator(m: string, x: string, m': string, y: string)
    requires NoNewline(m) && NoNewline(m')
    requires Prefix + m + Separator + x == Prefix + m' + Separator + y
    ensures m == m' && x == y
  {
    if |m| <= |m'| {
      SplitOrdered(m, x, m', y);
    } else {
      SplitOrdered(m', y, m, x);
    }
  }

  /** A wrapping description always holds a newline, so a description
      without one is a plain message; a message's description holds a
      newline exactly when the message does. */
  lemma {:induction false} NewlineInDescription(e: Errors)
    ensures NoNewline(Description(e)) ==> e.Msg?
    ensures e.Msg? ==> (NoNewline(Description(e)) <==> NoNewline(e.message))
  {
    var d := Description(e);
    if e.Wrap? {
      assert d[|Prefix| + |e.message|] == '\n';
    } else {
      assert forall i :: 0 <= i < |e.message| ==> d[|Prefix| + i] == e.message[i];
      if NoNewline(e.message) {
        forall i | 0 <= i < |d| ensures d[i] != '\n' {
          if i >= |Prefix| { assert d[i] == e.message[i - |Prefix|]; }
        }
      }
    }
  }

  /** When every message is a single line and every wrapped error is
      itself an `Errors`, equal descriptions mean equal values, so there
      `==` is structural equality. */
  lemma {:induction false} DescriptionInjective(a: Errors, b: Errors)
    requires SingleLine(a) && SingleLine(b)
    requires Description(a) == Description(b)
    ensures a == b
  {
    NewlineInDescription(a);
    NewlineInDescription(b);
    match a
    case Msg(m) =>
      assert m == Description(a)[|Prefix|..] == Description(b)[|Prefix|..] == b.message;
    case Wrap(m, Ditto(inner)) =>
      assert b.Wrap? && b.inner.Ditto?;
      SplitAtSeparator(m, Description(inner), b.message, Description(b.inner.error));
      DescriptionInjective(inner, b.inner.error);
  }
}
