/**
 * The few string operations the cog relies on, restricted to ASCII:
 * `str.lower()`, `str.strip(string.punctuation)` and `str.split()[0]`.
 */
module Text {
  import opened Wrappers

  predicate IsUpper(c: char) { 'A' <= c <= 'Z' }

  function LowerChar(c: char): char
  {
    if IsUpper(c) then (c as int + 32) as char else c
  }

  /** `s.lower()` */
  function Lower(s: string): (r: string)
    ensures |r| == |s|
    ensures forall i :: 0 <= i < |r| ==> !IsUpper(r[i])
  {
    seq(|s|, i requires 0 <= i < |s| => LowerChar(s[i]))
  }

  /** Lower-casing twice is lower-casing once. */
  lemma LowerIdempotent(s: string)
    ensures Lower(Lower(s)) == Lower(s)
  {
    assert forall i :: 0 <= i < |s| ==> Lower(Lower(s))[i] == Lower(s)[i];
  }

  /** A string with an upper-case letter is never the result of `Lower`. */
  lemma LowerHasNoUpper(s: string, t: string, i: nat)
    requires i < |s| && IsUpper(s[i])
    ensures s != Lower(t)
  {
  }

  /** Python's `string.punctuation`. */
  const Punctuation: string := "!\"#$%&'()*+,-./:;<=>?@[\\]^_`{|}~"

  predicate IsPunct(c: char) { c in Punctuation }

  predicate AllPunct(s: string) { forall i :: 0 <= i < |s| ==> IsPunct(s[i]) }

  function StripLeft(s: string): string
  {
    if |s| > 0 && IsPunct(s[0]) then StripLeft(s[1..]) else s
  }

  function StripRight(s: string): string
  {
    if |s| > 0 && IsPunct(s[|s| - 1]) then StripRight(s[..|s| - 1]) else s
  }

  /** `s.strip(string.punctuation)`: drop punctuation at both ends. */
  function StripPunct(s: string): string
  {
    StripRight(StripLeft(s))
  }

  /** A core that neither starts nor ends with punctuation. */
  predicate Bare(s: string)
  {
    s == [] || (!IsPunct(s[0]) && !IsPunct(s[|s| - 1]))
  }

  lemma {:induction false} StripLeftOfWrapped(p: string, rest: string)
    requires AllPunct(p)
    requires rest == [] || !IsPunct(rest[0])
    ensures StripLeft(p + rest) == rest
  {
    if p != [] {
      assert (p + rest)[1..] == p[1..] + rest;
      StripLeftOfWrapped(p[1..], rest);
    } else {
      assert p + rest == rest;
    }
  }

  lemma {:induction false} StripRightOfWrapped(rest: string, q: string)
    requires AllPunct(q)
    requires rest == [] || !IsPunct(rest[|rest| - 1])
    ensures StripRight(rest + q) == rest
  {
    if q != [] {
      assert (rest + q)[..|rest + q| - 1] == rest + q[..|q| - 1];
      StripRightOfWrapped(rest, q[..|q| - 1]);
    } else {
      assert rest + q == rest;
    }
  }

  /** Stripping removes exactly the punctuation that wraps a bare core. */
  lemma StripPunctOfWrapped(p: string, core: string, q: string)
    requires AllPunct(p) && AllPunct(q) && Bare(core)
    ensures StripPunct(p + core + q) == core
  {
    if core == [] {
      assert p + core + q == p + q;
      StripLeftOfWrapped(p + q, []);
      assert p + q + [] == p + q;
      assert StripLeft(p + q) == [];
    } else {
      assert p + core + q == p + (core + q);
      StripLeftOfWrapped(p, core + q);
      StripRightOfWrapped(core, q);
    }
  }

  /**
   * The ASCII separators of `str.split()`: space, tab, line feed,
   * carriage return, vertical tab, form feed and the four information
   * separators U+001C to U+001F.
   */
  predicate IsSpace(c: char)
  {
    c == ' ' || c == '\t' || c == '\n' || c == '\r' || c == '\U{B}' || c == '\U{C}'
    || ('\U{1C}' <= c <= '\U{1F}')
  }

  function SkipSpace(s: string): string
  {
    if |s| > 0 && IsSpace(s[0]) then SkipSpace(s[1..]) else s
  }

  function TakeWord(s: string): string
  {
    if |s| == 0 || IsSpace(s[0]) then [] else [s[0]] + TakeWord(s[1..])
  }

  /** `s.split()[0]`; `None` stands for the `IndexError` on a blank string. */
  function FirstWord(s: string): Option<string>
  {
    var t := SkipSpace(s);
    if t == [] then None else Some(TakeWord(t))
  }

  predicate NoSpace(s: string) { forall i :: 0 <= i < |s| ==> !IsSpace(s[i]) }

  lemma {:induction false} TakeWordOf(w: string, rest: string)
    requires NoSpace(w)
    requires rest == [] || IsSpace(rest[0])
    ensures TakeWord(w + rest) == w
  {
    if w == [] {
      assert w + rest == rest;
    } else {
      assert (w + rest)[1..] == w[1..] + rest;
      TakeWordOf(w[1..], rest);
    }
  }

  /** The first word of "w rest" is w: "Male ♂" has first word "Male". */
  lemma FirstWordOf(w: string, rest: string)
    requires w != [] && NoSpace(w)
    ensures FirstWord(w + " " + rest) == Some(w)
  {
    assert w + " " + rest == w + (" " + rest);
    assert SkipSpace(w + (" " + rest)) == w + (" " + rest);
    TakeWordOf(w, " " + rest);
  }
}
