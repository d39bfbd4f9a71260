/** The members of System.String and System.Char that the code-block parser
    calls: `Trim(params char[])`, `Trim()` and `IsNullOrWhiteSpace`. */
module Strings {

  /** The absent/present wrapper that stands for a nullable reference. */
  datatype Option<+T> = None | Some(value: T)

  /** Concatenation is associative (a step the solver does not take unaided
      inside larger proofs). */
  lemma AppendAssoc<T>(a: seq<T>, b: seq<T>, c: seq<T>)
    ensures a + (b + c) == (a + b) + c
  {
  }

  /** The characters `Trim('\r', '\n')` removes; they also end a Markdown line. */
  const NewlineChars: set<char> := {'\r', '\n'}

  /** The characters for which Char.IsWhiteSpace holds. */
  const WhiteSpaceChars: set<char> :=
    {'\t', '\n', '\U{000B}', '\U{000C}', '\r', ' ', '\U{0085}', '\U{00A0}', '\U{1680}',
     '\U{2000}', '\U{2001}', '\U{2002}', '\U{2003}', '\U{2004}', '\U{2005}', '\U{2006}',
     '\U{2007}', '\U{2008}', '\U{2009}', '\U{200A}', '\U{2028}', '\U{2029}', '\U{202F}',
     '\U{205F}', '\U{3000}'}

  /** String.IsNullOrWhiteSpace on a non-null string. */
  predicate IsNullOrWhiteSpace(s: string) {
    forall k :: 0 <= k < |s| ==> s[k] in WhiteSpaceChars
  }

  /** String.TrimStart: drops the longest prefix made of characters of `cs`. */
  function TrimStart(s: string, cs: set<char>): (r: string)
    ensures |r| <= |s|
  {
    if s != [] && s[0] in cs then TrimStart(s[1..], cs) else s
  }

  /** String.TrimEnd: drops the longest suffix made of characters of `cs`. */
  function TrimEnd(s: string, cs: set<char>): (r: string)
    ensures |r| <= |s|
  {
    if s != [] && s[|s| - 1] in cs then TrimEnd(s[..|s| - 1], cs) else s
  }

  /** String.Trim(cs): the infix of `s` left after dropping the characters of
      `cs` from both ends. */
  function Trim(s: string, cs: set<char>): string {
    TrimEnd(TrimStart(s, cs), cs)
  }

  /** TrimStart leaves a suffix of `s`, drops only characters of `cs`, and stops
      at the first character outside `cs`. */
  lemma {:induction false} TrimStartSpec(s: string, cs: set<char>)
    ensures var r := TrimStart(s, cs);
      |r| <= |s| && r == s[|s| - |r|..] &&
      (forall k :: 0 <= k < |s| - |r| ==> s[k] in cs) &&
      (r == [] || r[0] !in cs)
  {
    if s != [] && s[0] in cs {
      TrimStartSpec(s[1..], cs);
    }
  }

  /** TrimEnd leaves a prefix of `s`, drops only characters of `cs`, and stops
      at the last character outside `cs`. */
  lemma {:induction false} TrimEndSpec(s: string, cs: set<char>)
    ensures var r := TrimEnd(s, cs);
      |r| <= |s| && r == s[..|r|] &&
      (forall k :: |r| <= k < |s| ==> s[k] in cs) &&
      (r == [] || r[|r| - 1] !in cs)
  {
    if s != [] && s[|s| - 1] in cs {
      TrimEndSpec(s[..|s| - 1], cs);
    }
  }

  /** `r` is what is left of `s` once the characters of `cs` are dropped
      from both ends: the infix s[i..i + |r|], everything dropped on either
      side is in `cs`, and neither end of `r` is in `cs`. */
  predicate Trimmed(s: string, cs: set<char>, r: string, i: int) {
    0 <= i && i + |r| <= |s| && r == s[i..i + |r|] &&
    (forall k :: 0 <= k < i ==> s[k] in cs) &&
    (forall k :: i + |r| <= k < |s| ==> s[k] in cs) &&
    (r == [] || (r[0] !in cs && r[|r| - 1] !in cs))
  }

  /** Trim leaves the infix s[i..i + |r|] where i is the length of the dropped
      prefix, with only characters of `cs` dropped and neither end of the
      result in `cs`; the result is empty exactly when `s` consists of
      characters of `cs` only. */
  lemma TrimSpec(s: string, cs: set<char>)
    ensures Trimmed(s, cs, Trim(s, cs), |s| - |TrimStart(s, cs)|)
    ensures Trim(s, cs) == [] <==> forall k :: 0 <= k < |s| ==> s[k] in cs
  {
    var t := TrimStart(s, cs);
    TrimStartSpec(s, cs);
    TrimEndSpec(t, cs);
    var r := Trim(s, cs);
    var i := |s| - |t|;
    assert r == s[i..i + |r|];
  }
}
