/** The few string operations the result builder relies on. */
module Text {
  import opened Wrappers

  /** `string.IsNullOrEmpty`. */
  predicate IsNullOrEmpty(s: Option<string>) {
    s.None? || s.value == ""
  }

  /** Upper-casing of one character; only the ASCII letters are folded. */
  function ToUpperChar(c: char): char {
    if 'a' <= c <= 'z' then (c as int - 32) as char else c
  }

  /** `string.ToUpper`, character by character. */
  function ToUpper(s: string): (r: string)
    ensures |r| == |s|
    ensures forall i :: 0 <= i < |s| ==> r[i] == ToUpperChar(s[i])
  {
    if s == [] then [] else [ToUpperChar(s[0])] + ToUpper(s[1..])
  }

  /** Comparison of two names ignoring case, as reflection does with `BindingFlags.IgnoreCase`. */
  predicate EqualsIgnoreCase(a: string, b: string) {
    ToUpper(a) == ToUpper(b)
  }

  /** `string.StartsWith(prefix)`, ordinal and case-sensitive. */
  predicate StartsWith(text: string, prefix: string) {
    prefix <= text
  }

  /** Two names are equal ignoring case exactly when they agree character by character once folded. */
  lemma EqualsIgnoreCaseCharwise(a: string, b: string)
    ensures EqualsIgnoreCase(a, b) <==>
      |a| == |b| && forall i :: 0 <= i < |a| ==> ToUpperChar(a[i]) == ToUpperChar(b[i])
  {
    if |a| == |b| && forall i :: 0 <= i < |a| ==> ToUpperChar(a[i]) == ToUpperChar(b[i]) {
      assert forall i :: 0 <= i < |a| ==> ToUpper(a)[i] == ToUpper(b)[i];
    }
  }

  /** A text starts with a prefix exactly when its first |prefix| characters are that prefix. */
  lemma StartsWithLeadingChars(text: string, prefix: string)
    ensures StartsWith(text, prefix) <==>
      |prefix| <= |text| && forall i :: 0 <= i < |prefix| ==> text[i] == prefix[i]
  {
    if |prefix| <= |text| && forall i :: 0 <= i < |prefix| ==> text[i] == prefix[i] {
      assert text[..|prefix|] == prefix;
    }
  }

  lemma UpperCharIsLetter(c: char, u: char)
    requires 'A' <= u <= 'Z'
    ensures ToUpperChar(c) == u <==> c == u || c as int == u as int + 32
  {
  }

  /** The strings that upper-case to "ASC" are exactly the eight spellings of "asc" in mixed case. */
  lemma {:induction false} UpperIsAsc(s: string)
    ensures ToUpper(s) == "ASC" <==>
      |s| == 3 && (s[0] == 'a' || s[0] == 'A') && (s[1] == 's' || s[1] == 'S') && (s[2] == 'c' || s[2] == 'C')
  {
    if |s| == 3 {
      UpperCharIsLetter(s[0], 'A');
      UpperCharIsLetter(s[1], 'S');
      UpperCharIsLetter(s[2], 'C');
      var u := ToUpper(s);
      assert u == "ASC" <==> u[0] == 'A' && u[1] == 'S' && u[2] == 'C';
    }
  }

  /** Upper-casing twice is upper-casing once. */
  lemma ToUpperIdempotent(s: string)
    ensures ToUpper(ToUpper(s)) == ToUpper(s)
  {
    var u := ToUpper(s);
    assert forall i :: 0 <= i < |u| ==> ToUpper(u)[i] == u[i];
  }

  /** Ignoring case is an equivalence: a name matches its own upper-cased spelling. */
  lemma EqualsIgnoreCaseOwnUpper(s: string)
    ensures EqualsIgnoreCase(s, ToUpper(s))
  {
    ToUpperIdempotent(s);
  }
}
