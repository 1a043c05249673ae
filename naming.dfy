/** The identifier normaliser `camel_case_to_name` of kemi/__init__.py.

    The source is one regular-expression substitution followed by `lower()`:
    an underscore goes in front of every upper-case ASCII letter that either
    follows a lower-case letter, or is not the first character and is followed
    by a lower-case letter.  Every match of that pattern is exactly one
    character wide and its look-arounds inspect the ORIGINAL text, so the set
    of places where an underscore goes is a property of the input alone; this
    module states it per index (`StartsWord`) and builds the output from it. */
module Naming {

  predicate IsUpper(c: char) { 'A' <= c <= 'Z' }

  predicate IsLower(c: char) { 'a' <= c <= 'z' }

  /** `str.lower()` on one character, for ASCII letters. */
  function Lower(c: char): (r: char)
    ensures !IsUpper(r)
    ensures IsUpper(c) ==> IsLower(r) && r as int == c as int - 'A' as int + 'a' as int
    ensures !IsUpper(c) ==> r == c
  {
    if IsUpper(c) then (c as int - 'A' as int + 'a' as int) as char else c
  }

  /** `str.lower()` on a whole string. */
  function LowerString(s: string): (r: string)
    ensures |r| == |s|
    ensures forall i :: 0 <= i < |s| ==> r[i] == Lower(s[i])
  {
    seq(|s|, i requires 0 <= i < |s| => Lower(s[i]))
  }

  /** Whether the pattern `(?<=[a-z])[A-Z]|(?<!\A)[A-Z](?=[a-z])` matches
      the character at index `i` of `s`. */
  predicate StartsWord(s: string, i: nat)
    requires i < |s|
  {
    && IsUpper(s[i])
    && 0 < i
    && (IsLower(s[i - 1]) || (i + 1 < |s| && IsLower(s[i + 1])))
  }

  /** The number of indices below `n` at which an underscore is inserted. */
  function SepCount(s: string, n: nat): (k: nat)
    requires n <= |s|
    ensures k <= n
    ensures n > 0 && !IsUpper(s[n - 1]) ==> k == SepCount(s, n - 1)
  {
    if n == 0 then 0 else SepCount(s, n - 1) + (if StartsWord(s, n - 1) then 1 else 0)
  }

  /** The index in the output at which input character `i` lands. */
  function Position(s: string, i: nat): nat
    requires i < |s|
  {
    i + SepCount(s, i + 1)
  }

  /** The substitution `re.sub(pattern, r'_\1', s)` over the first `n`
      characters of `s` (look-arounds still see all of `s`). */
  function Substitute(s: string, n: nat): (r: string)
    requires n <= |s|
    ensures |r| == n + SepCount(s, n)
  {
    if n == 0 then []
    else Substitute(s, n - 1) + (if StartsWord(s, n - 1) then "_" else "") + [s[n - 1]]
  }

  /** `camel_case_to_name`. */
  function CamelCaseToName(text: string): (r: string)
    ensures |r| == |text| + SepCount(text, |text|)
    ensures forall i :: 0 <= i < |r| ==> !IsUpper(r[i])
    ensures |text| > 0 ==> r[0] == Lower(text[0])
  {
    SubstituteShape(text, |text|);
    LowerString(Substitute(text, |text|))
  }

  /** Substituting a shorter prefix gives a prefix of the output. */
  lemma {:induction false} SubstitutePrefix(s: string, a: nat, b: nat)
    requires a <= b <= |s|
    ensures Substitute(s, a) <= Substitute(s, b)
    decreases b - a
  {
    if a < b {
      SubstitutePrefix(s, a, b - 1);
    }
  }

  /** Where each input character and each inserted underscore land. */
  lemma SubstituteShape(s: string, n: nat)
    requires n <= |s|
    ensures forall i :: 0 <= i < n ==>
      Position(s, i) < |Substitute(s, n)| && Substitute(s, n)[Position(s, i)] == s[i]
    ensures forall i :: 0 <= i < n && StartsWord(s, i) ==>
      0 < Position(s, i) && Substitute(s, n)[Position(s, i) - 1] == '_'
  {
    forall i | 0 <= i < n
      ensures Position(s, i) < |Substitute(s, n)| && Substitute(s, n)[Position(s, i)] == s[i]
      ensures StartsWord(s, i) ==> 0 < Position(s, i) && Substitute(s, n)[Position(s, i) - 1] == '_'
    {
      SubstitutePrefix(s, i + 1, n);
    }
  }

  /** The characterisation of `camel_case_to_name`: the output is as long as
      the input plus the number of underscore positions, every input
      character appears lower-cased at its `Position`, and an underscore sits
      right before each character where the pattern matches.  Since the
      positions of the input characters increase by one, plus one more at each
      match, these facts cover every index of the output. */
  lemma CamelCaseToNameShape(text: string)
    ensures |CamelCaseToName(text)| == |text| + SepCount(text, |text|)
    ensures forall i :: 0 <= i < |text| ==>
      Position(text, i) < |CamelCaseToName(text)| &&
      CamelCaseToName(text)[Position(text, i)] == Lower(text[i])
    ensures forall i :: 0 <= i < |text| && StartsWord(text, i) ==>
      0 < Position(text, i) && CamelCaseToName(text)[Position(text, i) - 1] == '_'
    ensures forall i :: 0 < i < |text| ==>
      Position(text, i) == Position(text, i - 1) + 1 + (if StartsWord(text, i) then 1 else 0)
  {
    SubstituteShape(text, |text|);
  }

  /** Without upper-case letters after the first character the substitution
      copies its input. */
  lemma {:induction false} SubstituteOneWord(s: string, n: nat)
    requires n <= |s|
    requires forall i :: 0 < i < |s| ==> !IsUpper(s[i])
    ensures Substitute(s, n) == s[..n]
  {
    if n > 0 {
      SubstituteOneWord(s, n - 1);
      assert !StartsWord(s, n - 1);
      assert s[..n] == s[..n - 1] + [s[n - 1]];
    }
  }

  /** A single word, upper-case only in its first letter if at all, is only
      lower-cased. */
  lemma CamelCaseToNameOneWord(text: string)
    requires forall i :: 0 < i < |text| ==> !IsUpper(text[i])
    ensures CamelCaseToName(text) == LowerString(text)
  {
    SubstituteOneWord(text, |text|);
    assert text[..|text|] == text;
  }

  /** An identifier without upper-case ASCII letters is returned unchanged. */
  lemma NoUpperUnchanged(text: string)
    requires forall i :: 0 <= i < |text| ==> !IsUpper(text[i])
    ensures CamelCaseToName(text) == text
  {
    CamelCaseToNameOneWord(text);
  }

  /** Normalising twice is normalising once. */
  lemma CamelCaseToNameIdempotent(text: string)
    ensures CamelCaseToName(CamelCaseToName(text)) == CamelCaseToName(text)
  {
    NoUpperUnchanged(CamelCaseToName(text));
  }

  /** `lower()` distributes over concatenation. */
  lemma LowerStringAppend(a: string, b: string)
    ensures LowerString(a + b) == LowerString(a) + LowerString(b)
  {
    assert forall i :: 0 <= i < |a + b| ==> LowerString(a + b)[i] == (LowerString(a) + LowerString(b))[i];
  }

  /** Appending a text that starts with an upper-case letter leaves the
      substitution of the first part as it was. */
  lemma {:induction false} SubstituteAppendPrefix(a: string, b: string, n: nat)
    requires n <= |a|
    requires |b| > 0 ==> !IsLower(b[0])
    ensures Substitute(a + b, n) == Substitute(a, n)
  {
    if n > 0 {
      SubstituteAppendPrefix(a, b, n - 1);
      assert (a + b)[n - 1] == a[n - 1];
      assert StartsWord(a + b, n - 1) == StartsWord(a, n - 1);
    }
  }

  /** The first `k` characters of a new word `b` after `a`. */
  lemma {:induction false} SubstituteAppendWord(a: string, b: string, k: nat)
    requires |a| > 0 && |b| > 1 && IsUpper(b[0]) && IsLower(b[1])
    requires 1 <= k <= |b|
    ensures Substitute(a + b, |a| + k) == Substitute(a, |a|) + "_" + Substitute(b, k)
  {
    var s := a + b;
    if k == 1 {
      SubstituteAppendPrefix(a, b, |a|);
      assert s[|a|] == b[0] && StartsWord(s, |a|);
    } else {
      SubstituteAppendWord(a, b, k - 1);
      assert s[|a| + k - 1] == b[k - 1] && s[|a| + k - 2] == b[k - 2];
      assert StartsWord(s, |a| + k - 1) == StartsWord(b, k - 1);
    }
  }

  /** A camel-case word that follows a non-empty text is set off by exactly
      one underscore, and each part is normalised on its own. */
  lemma CamelCaseToNameAppendWord(a: string, b: string)
    requires |a| > 0 && |b| > 1 && IsUpper(b[0]) && IsLower(b[1])
    ensures CamelCaseToName(a + b) == CamelCaseToName(a) + "_" + CamelCaseToName(b)
  {
    SubstituteAppendWord(a, b, |b|);
    LowerStringAppend(Substitute(a, |a|) + "_", Substitute(b, |b|));
    LowerStringAppend(Substitute(a, |a|), "_");
    assert LowerString("_") == "_";
  }

  /** The doctests of `camel_case_to_name`. */
  lemma CamelCaseToNameFooBar()
    ensures CamelCaseToName("FooBar") == "foo_bar"
  {
    assert Substitute("FooBar", 2) == "Fo";
    assert Substitute("FooBar", 4) == "Foo_B";
    assert Substitute("FooBar", 6) == "Foo_Bar";
  }

  lemma CamelCaseToNameTXTFile()
    ensures CamelCaseToName("TXTFile") == "txt_file"
  {
    assert Substitute("TXTFile", 2) == "TX";
    assert Substitute("TXTFile", 4) == "TXT_F";
    assert Substitute("TXTFile", 6) == "TXT_Fil";
    assert Substitute("TXTFile", 7) == "TXT_File";
  }

  lemma CamelCaseToNameMyTXTFile()
    ensures CamelCaseToName("MyTXTFile") == "my_txt_file"
  {
    assert Substitute("MyTXTFile", 2) == "My";
    assert Substitute("MyTXTFile", 4) == "My_TX";
    assert Substitute("MyTXTFile", 6) == "My_TXT_F";
    assert Substitute("MyTXTFile", 8) == "My_TXT_Fil";
    assert Substitute("MyTXTFile", 9) == "My_TXT_File";
  }

  lemma CamelCaseToNameFroBOZ()
    ensures CamelCaseToName("froBOZ") == "fro_boz"
  {
    assert Substitute("froBOZ", 2) == "fr";
    assert Substitute("froBOZ", 4) == "fro_B";
    assert Substitute("froBOZ", 6) == "fro_BOZ";
  }

  lemma CamelCaseToNameF()
    ensures CamelCaseToName("f") == "f"
  {
    NoUpperUnchanged("f");
  }
}
