/** ASCII case handling, as `to_ascii_uppercase` and `eq_ignore_ascii_case` define it. */
module Text {

  function Upper(c: char): char {
    if 'a' <= c <= 'z' then c - 'a' + 'A' else c
  }

  function ToUpper(s: string): (r: string)
    ensures |r| == |s|
  {
    seq(|s|, i requires 0 <= i < |s| => Upper(s[i]))
  }

  predicate EqIgnoreCase(a: string, b: string) {
    ToUpper(a) == ToUpper(b)
  }

  /** One letter, in either case: letters of the two cases lie 32 code points apart. */
  predicate SameLetter(a: char, b: char) {
    || a == b
    || ('A' <= a <= 'Z' && b as int == a as int + 32)
    || ('A' <= b <= 'Z' && a as int == b as int + 32)
  }

  /** Two strings that spell the same, letter by letter. */
  ghost predicate SpellsSame(a: string, b: string) {
    |a| == |b| && forall k :: 0 <= k < |a| ==> SameLetter(a[k], b[k])
  }

  /** Ignoring case is comparing letter by letter. */
  lemma EqIgnoreCaseIs(a: string, b: string)
    ensures EqIgnoreCase(a, b) <==> SpellsSame(a, b)
  {
    if EqIgnoreCase(a, b) {
      assert |a| == |ToUpper(a)| == |ToUpper(b)| == |b|;
      forall k | 0 <= k < |a|
        ensures SameLetter(a[k], b[k])
      {
        assert ToUpper(a)[k] == ToUpper(b)[k];
      }
    }
    if SpellsSame(a, b) {
      assert forall k :: 0 <= k < |a| ==> Upper(a[k]) == Upper(b[k]);
    }
  }

  /** Folding a string and comparing it with an upper-case word does the same. */
  lemma ToUpperIs(s: string, word: string)
    requires forall k :: 0 <= k < |word| ==> !('a' <= word[k] <= 'z')
    ensures ToUpper(s) == word <==> SpellsSame(s, word)
  {
    assert ToUpper(word) == word;
    EqIgnoreCaseIs(s, word);
  }

  predicate StartsWith(s: string, prefix: string) {
    |prefix| <= |s| && s[..|prefix|] == prefix
  }

  predicate EndsWith(s: string, suffix: string) {
    |suffix| <= |s| && s[|s| - |suffix|..] == suffix
  }

  /** Code-point order on strings, which is what Rust's `str::cmp` computes. */
  predicate Less(a: string, b: string) {
    b != [] && (a == [] || a[0] < b[0] || (a[0] == b[0] && Less(a[1..], b[1..])))
  }

  predicate AtMost(a: string, b: string) {
    !Less(b, a)
  }

  lemma {:induction false} LessTotal(a: string, b: string)
    ensures Less(a, b) || Less(b, a) || a == b
  {
    if a != [] && b != [] && a[0] == b[0] {
      LessTotal(a[1..], b[1..]);
      assert a == [a[0]] + a[1..];
      assert b == [b[0]] + b[1..];
    }
  }

  lemma {:induction false} LessAsymmetric(a: string, b: string)
    requires Less(a, b)
    ensures !Less(b, a)
  {
    if a != [] && a[0] == b[0] {
      LessAsymmetric(a[1..], b[1..]);
    }
  }

  lemma {:induction false} LessTransitive(a: string, b: string, c: string)
    requires Less(a, b) && Less(b, c)
    ensures Less(a, c)
  {
    if a != [] && a[0] == b[0] == c[0] {
      LessTransitive(a[1..], b[1..], c[1..]);
    }
  }

  lemma AtMostTransitive(a: string, b: string, c: string)
    requires AtMost(a, b) && AtMost(b, c)
    ensures AtMost(a, c)
  {
    LessTotal(a, b);
    LessTotal(b, c);
    if Less(c, a) && a != b {
      LessTransitive(c, a, b);
    }
  }
}
