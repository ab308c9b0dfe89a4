/** The string operations the program applies to its inputs: `str.lower()`,
    `str.title()` and the code-point ordering Python uses to compare strings.
    Case mapping is modelled for the ASCII letters only. */
module Text {
  import opened Orders

  predicate IsUpper(c: char) {
    'A' <= c <= 'Z'
  }

  predicate IsLower(c: char) {
    'a' <= c <= 'z'
  }

  predicate IsLetter(c: char) {
    IsUpper(c) || IsLower(c)
  }

  function LowerChar(c: char): char {
    if IsUpper(c) then (c as int + 32) as char else c
  }

  function UpperChar(c: char): char {
    if IsLower(c) then (c as int - 32) as char else c
  }

  /** `s.lower()`. */
  function Lower(s: string): string {
    seq(|s|, i requires 0 <= i < |s| => LowerChar(s[i]))
  }

  /** `s.title()`: a letter is upper-cased when it starts a word, that is when the
      character before it is not a letter, and lower-cased otherwise. */
  function Title(s: string): string {
    seq(|s|, i requires 0 <= i < |s| =>
      if i > 0 && IsLetter(s[i - 1]) then LowerChar(s[i]) else UpperChar(s[i]))
  }

  predicate HasNoUpper(s: string) {
    forall i :: 0 <= i < |s| ==> !IsUpper(s[i])
  }

  /** The two strings differ at most in the case of their letters. */
  predicate SameIgnoringCase(a: string, b: string) {
    |a| == |b| && forall i :: 0 <= i < |a| ==> LowerChar(a[i]) == LowerChar(b[i])
  }

  /** Lower-casing the input and comparing it with a lower-case literal, which is how
      the program validates what the user typed, accepts exactly the inputs that
      spell the literal in any mixture of cases. */
  lemma LowerEqualsIffSameIgnoringCase(raw: string, c: string)
    requires HasNoUpper(c)
    ensures Lower(raw) == c <==> SameIgnoringCase(raw, c)
  {
    if SameIgnoringCase(raw, c) {
      assert forall i :: 0 <= i < |c| ==> Lower(raw)[i] == c[i];
    }
  }

  /** A lower-case word is title-cased by upper-casing its first letter only. */
  lemma {:induction false} TitleOfLowerWord(w: string)
    requires |w| > 0
    requires forall i :: 0 <= i < |w| ==> IsLower(w[i])
    ensures Title(w) == [UpperChar(w[0])] + w[1..]
  {
    var t := Title(w);
    var u := [UpperChar(w[0])] + w[1..];
    assert |t| == |u|;
    forall i | 0 <= i < |w|
      ensures t[i] == u[i]
    {
      if i > 0 {
        assert IsLetter(w[i - 1]);
        assert LowerChar(w[i]) == w[i];
      }
    }
  }

  /** Python's `a <= b` on strings: lexicographic comparison of code points. */
  predicate StrLe(a: string, b: string)
    decreases |a|
  {
    |a| == 0 || (|b| > 0 && (a[0] < b[0] || (a[0] == b[0] && StrLe(a[1..], b[1..]))))
  }

  lemma {:induction false} StrLeTotal(a: string, b: string)
    ensures StrLe(a, b) || StrLe(b, a)
    decreases |a|
  {
    if |a| > 0 && |b| > 0 && a[0] == b[0] {
      StrLeTotal(a[1..], b[1..]);
    }
  }

  lemma {:induction false} StrLeAntisymmetric(a: string, b: string)
    requires StrLe(a, b) && StrLe(b, a)
    ensures a == b
    decreases |a|
  {
    if |a| > 0 {
      StrLeAntisymmetric(a[1..], b[1..]);
      assert a == [a[0]] + a[1..];
      assert b == [b[0]] + b[1..];
    }
  }

  lemma {:induction false} StrLeTransitive(a: string, b: string, c: string)
    requires StrLe(a, b) && StrLe(b, c)
    ensures StrLe(a, c)
    decreases |a|
  {
    if |a| > 0 && a[0] == b[0] && b[0] == c[0] {
      StrLeTransitive(a[1..], b[1..], c[1..]);
    }
  }

  lemma StrLeIsTotalOrder()
    ensures TotalOrder(StrLe)
  {
    forall a, b
      ensures StrLe(a, b) || StrLe(b, a)
    {
      StrLeTotal(a, b);
    }
    forall a, b | StrLe(a, b) && StrLe(b, a)
      ensures a == b
    {
      StrLeAntisymmetric(a, b);
    }
    forall a, b, c | StrLe(a, b) && StrLe(b, c)
      ensures StrLe(a, c)
    {
      StrLeTransitive(a, b, c);
    }
  }

  /** Lexicographic order on (start station, end station) pairs. */
  predicate PairLe(p: (string, string), q: (string, string)) {
    (p.0 != q.0 && StrLe(p.0, q.0)) || (p.0 == q.0 && StrLe(p.1, q.1))
  }

  lemma PairLeIsTotalOrder()
    ensures TotalOrder(PairLe)
  {
    StrLeIsTotalOrder();
  }
}
