/**
 The handful of Java text operations the checker relies on: `Name.contentEquals`,
 `String.matches` with a pattern free of regular-expression metacharacters, and
 `String.format` with a single `%s` conversion. Java text is a sequence of `char`.
 */
module JavaText {
  import opened Wrappers

  /** `sub` occurs in `s` starting at position `k`. */
  ghost predicate OccursAt(sub: string, s: string, k: int) {
    0 <= k <= |s| - |sub| && s[k..k + |sub|] == sub
  }

  /** `sub` occurs in `s` as one contiguous block. */
  ghost predicate IsInfix(sub: string, s: string) {
    exists k :: OccursAt(sub, s, k)
  }

  /** `Name.contentEquals(text)`: the same characters in the same order. */
  method ContentEquals(name: string, text: string) returns (equal: bool)
    ensures equal <==> name == text
  {
    if |name| != |text| {
      return false;
    }
    var i := 0;
    while i < |name|
      invariant 0 <= i <= |name|
      invariant name[..i] == text[..i]
    {
      if name[i] != text[i] {
        return false;
      }
      i := i + 1;
    }
    assert name == name[..i] && text == text[..i];
    return true;
  }

  /** The characters that give a `java.util.regex` pattern a meaning other than itself. */
  const RegexMetacharacters: set<char> :=
    {'\\', '^', '$', '.', '|', '?', '*', '+', '(', ')', '[', ']', '{', '}'}

  /** A pattern in which every character stands for itself. */
  predicate IsLiteralPattern(pattern: string) {
    forall i :: 0 <= i < |pattern| ==> pattern[i] !in RegexMetacharacters
  }

  /**
   `s.matches(pattern)` for a literal pattern: the pattern must match the WHOLE
   of `s`, one character at a time, so it is whole-string equality and not a
   substring search.
   */
  function Matches(s: string, pattern: string): (r: bool)
    requires IsLiteralPattern(pattern)
    ensures r <==> s == pattern
    decreases |pattern|
  {
    if pattern == [] then s == []
    else s != [] && s[0] == pattern[0] && Matches(s[1..], pattern[1..])
  }

  /**
   `String.format(template, arg)` restricted to the `%s` conversion: each `%s`
   is replaced by `arg` and every other character is copied.
   */
  function Format(template: string, arg: string): (r: string)
    ensures '%' !in template ==> r == template
    decreases |template|
  {
    if |template| >= 2 && template[0] == '%' && template[1] == 's' then
      arg + Format(template[2..], arg)
    else if template == [] then
      []
    else
      [template[0]] + Format(template[1..], arg)
  }

  /** Text before the first conversion is copied unchanged. */
  lemma {:induction false} FormatCopiesPlainPrefix(p: string, t: string, arg: string)
    requires '%' !in p
    ensures Format(p + t, arg) == p + Format(t, arg)
    decreases |p|
  {
    if p != [] {
      assert (p + t)[0] == p[0];
      assert (p + t)[1..] == p[1..] + t;
      FormatCopiesPlainPrefix(p[1..], t, arg);
      assert p == [p[0]] + p[1..];
    } else {
      assert p + t == t;
    }
  }

  /** A template with one `%s` between two plain texts yields exactly that text around `arg`. */
  lemma FormatSingleSlot(p: string, q: string, arg: string)
    requires '%' !in p && '%' !in q
    ensures Format(p + "%s" + q, arg) == p + arg + q
  {
    FormatCopiesPlainPrefix(p, "%s" + q, arg);
    assert p + "%s" + q == p + ("%s" + q);
    assert ("%s" + q)[2..] == q;
  }

  /** Recovers the argument from a message built from the template `p + "%s" + q`. */
  function Unformat(p: string, q: string, message: string): (r: Option<string>)
    ensures r.Some? ==> message == p + r.value + q
    ensures r.None? ==> forall arg :: message != p + arg + q
  {
    if |p| + |q| <= |message| && message[..|p|] == p && message[|message| - |q|..] == q then
      var arg := message[|p|..|message| - |q|];
      assert message == message[..|p|] + arg + message[|message| - |q|..];
      Some(arg)
    else
      None
  }

  /** Whatever stands between the prefix and the suffix is read back exactly. */
  lemma UnformatInverse(p: string, q: string, arg: string)
    ensures Unformat(p, q, p + arg + q) == Some(arg)
  {
  }

  /** Formatting with a one-slot template loses nothing: the argument comes back out. */
  lemma UnformatFormat(p: string, q: string, arg: string)
    requires '%' !in p && '%' !in q
    ensures Unformat(p, q, Format(p + "%s" + q, arg)) == Some(arg)
  {
    FormatSingleSlot(p, q, arg);
    UnformatInverse(p, q, arg);
  }

  /** Different arguments give different messages from the same one-slot template. */
  lemma FormatInjective(p: string, q: string, a: string, b: string)
    requires '%' !in p && '%' !in q
    requires Format(p + "%s" + q, a) == Format(p + "%s" + q, b)
    ensures a == b
  {
    UnformatFormat(p, q, a);
    UnformatFormat(p, q, b);
  }

  /** The argument is visible, verbatim, in the formatted message. */
  lemma FormatShowsArgument(p: string, q: string, arg: string)
    requires '%' !in p && '%' !in q
    ensures IsInfix(arg, Format(p + "%s" + q, arg))
  {
    FormatSingleSlot(p, q, arg);
    var m := p + arg + q;
    assert OccursAt(arg, m, |p|);
  }
}
