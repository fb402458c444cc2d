/** The few string operations the pipeline relies on: Python's `startswith`,
    `endswith`, `in`, `str.split()[0]`, `f"{i:02}"`, `f"{n}"` and `os.path.join`. */
module Strings {

  predicate StartsWith(s: string, prefix: string)
  {
    |prefix| <= |s| && s[..|prefix|] == prefix
  }

  predicate EndsWith(s: string, suffix: string)
  {
    |suffix| <= |s| && s[|s| - |suffix|..] == suffix
  }

  /** Python's `sub in s`. */
  predicate Contains(s: string, sub: string)
    decreases |s|
  {
    StartsWith(s, sub) || (s != [] && Contains(s[1..], sub))
  }

  lemma {:induction false} ContainsAt(s: string, sub: string, i: nat)
    requires i + |sub| <= |s| && s[i..i + |sub|] == sub
    ensures Contains(s, sub)
    decreases i
  {
    if i == 0 {
      assert s[..|sub|] == sub;
    } else {
      assert s[1..][i - 1..i - 1 + |sub|] == s[i..i + |sub|];
      ContainsAt(s[1..], sub, i - 1);
    }
  }

  /** A string that contains `sub` has an occurrence of it at some index. */
  lemma {:induction false} ContainsWitness(s: string, sub: string) returns (i: nat)
    requires Contains(s, sub)
    ensures i + |sub| <= |s| && s[i..i + |sub|] == sub
    decreases |s|
  {
    if StartsWith(s, sub) {
      i := 0;
    } else {
      var j := ContainsWitness(s[1..], sub);
      assert s[1..][j..j + |sub|] == s[j + 1..j + 1 + |sub|];
      i := j + 1;
    }
  }

  /** `sub` is not in `s` when its first character occurs nowhere it could start. */
  lemma NotContainedByFirstChar(s: string, sub: string)
    requires sub != []
    requires forall i :: 0 <= i && i + |sub| <= |s| ==> s[i] != sub[0]
    ensures !Contains(s, sub)
  {
    if Contains(s, sub) {
      var i := ContainsWitness(s, sub);
    }
  }

  /** Python's `str.isspace()` for one character, the separators `str.split()`
      splits on: the ASCII whitespace, the four information separators, NEL,
      and the Unicode space and line/paragraph separators. */
  predicate IsSpace(c: char)
  {
    c == ' ' || c == '\t' || c == '\n' || c == '\r' || c == '\U{B}' || c == '\U{C}'
    || ('\U{1C}' <= c <= '\U{1F}') || c == '\U{85}' || c == '\U{A0}' || c == '\U{1680}'
    || ('\U{2000}' <= c <= '\U{200A}') || c == '\U{2028}' || c == '\U{2029}' || c == '\U{202F}'
    || c == '\U{205F}' || c == '\U{3000}'
  }

  predicate HasNoSpace(s: string)
  {
    forall i :: 0 <= i < |s| ==> !IsSpace(s[i])
  }

  function DropSpaces(s: string): string
  {
    if s != [] && IsSpace(s[0]) then DropSpaces(s[1..]) else s
  }

  function TakeWord(s: string): string
  {
    if s == [] || IsSpace(s[0]) then [] else [s[0]] + TakeWord(s[1..])
  }

  /** Python's `s.split()[0]`: the first maximal run of non-space characters
      (the empty string stands for a blank `s`, where Python raises IndexError). */
  function FirstToken(s: string): string
  {
    TakeWord(DropSpaces(s))
  }

  lemma {:induction false} TakeWordOfWord(word: string, rest: string)
    requires HasNoSpace(word)
    requires rest == [] || IsSpace(rest[0])
    ensures TakeWord(word + rest) == word
    decreases |word|
  {
    if word == [] {
      assert word + rest == rest;
    } else {
      assert (word + rest)[1..] == word[1..] + rest;
      TakeWordOfWord(word[1..], rest);
    }
  }

  /** The first token of `name + " " + kind` is `name`: what `get_column_names`
      relies on when it strips the SQL type from a column definition. */
  lemma FirstTokenOfDefinition(name: string, kind: string)
    requires name != [] && HasNoSpace(name)
    ensures FirstToken(name + " " + kind) == name
  {
    assert !IsSpace((name + " " + kind)[0]);
    assert name + " " + kind == name + (" " + kind);
    TakeWordOfWord(name, " " + kind);
  }

  function DigitChar(d: nat): char
    requires d < 10
  {
    (48 + d) as char
  }

  /** `f"{i:02}"` for 0 <= i < 100. */
  function TwoDigits(i: nat): (s: string)
    requires i < 100
    ensures |s| == 2 && '0' <= s[0] <= '9' && '0' <= s[1] <= '9'
  {
    [DigitChar(i / 10), DigitChar(i % 10)]
  }

  lemma TwoDigitsInjective(i: nat, j: nat)
    requires i < 100 && j < 100 && TwoDigits(i) == TwoDigits(j)
    ensures i == j
  {
    assert TwoDigits(i)[0] == TwoDigits(j)[0] && TwoDigits(i)[1] == TwoDigits(j)[1];
  }

  function NatString(n: nat): (s: string)
    ensures 1 <= |s| && (n >= 10 ==> 2 <= |s|)
    ensures forall k :: 0 <= k < |s| ==> '0' <= s[k] <= '9'
  {
    if n < 10 then [DigitChar(n)] else NatString(n / 10) + [DigitChar(n % 10)]
  }

  /** `f"{n}"` for an integer. */
  function DecimalString(n: int): string
  {
    if n < 0 then "-" + NatString(-n) else NatString(n)
  }

  lemma {:induction false} NatStringInjective(m: nat, n: nat)
    requires NatString(m) == NatString(n)
    ensures m == n
    decreases m
  {
    var s := NatString(m);
    if m >= 10 && n >= 10 {
      assert NatString(m / 10) == s[..|s| - 1] == NatString(n / 10);
      NatStringInjective(m / 10, n / 10);
      assert DigitChar(m % 10) == s[|s| - 1] == DigitChar(n % 10);
    }
  }

  /** Distinct integers print differently. */
  lemma DecimalStringInjective(m: int, n: int)
    requires DecimalString(m) == DecimalString(n)
    ensures m == n
  {
    var s := DecimalString(m);
    assert (m < 0) == (s[0] == '-');
    assert (n < 0) == (DecimalString(n)[0] == '-');
    if m < 0 {
      assert NatString(-m) == s[1..] == NatString(-n);
      NatStringInjective(-m, -n);
    } else {
      NatStringInjective(m, n);
    }
  }

  /** `os.path.join(a, b)` for a relative `b`. */
  function PathJoin(a: string, b: string): (p: string)
    ensures EndsWith(p, b)
  {
    var p := if a == [] || a[|a| - 1] == '/' then a + b else a + "/" + b;
    assert p[|p| - |b|..] == b;
    p
  }

  /** Joining the same directory to two names gives two paths. */
  lemma PathJoinInjective(a: string, b1: string, b2: string)
    requires PathJoin(a, b1) == PathJoin(a, b2)
    ensures b1 == b2
  {
    var n := if a == [] || a[|a| - 1] == '/' then |a| else |a| + 1;
    assert b1 == PathJoin(a, b1)[n..];
    assert b2 == PathJoin(a, b2)[n..];
  }
}
