/**
 * The JavaScript string operations the site relies on: `length`, the
 * relational operator `<`, `startsWith` and `endsWith`.
 *
 * A Dafny `string` is a sequence of Unicode scalar values; a JavaScript string
 * is a sequence of UTF-16 code units, where a character outside the Basic
 * Multilingual Plane takes two units (a surrogate pair). `length` and `<` see
 * those units, so they are defined here on `CodeUnits(s)`. `startsWith` and
 * `endsWith` compare characters; `StartsWithUnits` and `EndsWithUnits` prove
 * that this agrees with comparing code units, UTF-16 being a prefix- and
 * suffix-free code.
 */
module JsString {

  /** The UTF-16 encoding of one character: one unit, or a high and a low surrogate. */
  function Utf16(c: char): (units: seq<int>)
    ensures |units| == (if c as int < 0x1_0000 then 1 else 2)
    ensures c as int < 0x1_0000 ==> units[0] == c as int
    ensures c as int >= 0x1_0000 ==> 0xD800 <= units[0] < 0xDC00 && 0xDC00 <= units[1] < 0xE000
  {
    if c as int < 0x1_0000 then [c as int]
    else
      var v := c as int - 0x1_0000;
      [0xD800 + v / 0x400, 0xDC00 + v % 0x400]
  }

  /** The code units of a string, as JavaScript stores it. */
  function CodeUnits(s: string): (units: seq<int>)
    ensures |units| >= |s|
  {
    if s == [] then [] else Utf16(s[0]) + CodeUnits(s[1..])
  }

  /** `s.length`: the number of UTF-16 code units. */
  function Length(s: string): nat
  {
    |CodeUnits(s)|
  }

  /** A string of Basic Multilingual Plane characters has one code unit per character. */
  lemma {:induction false} LengthOfBmp(s: string)
    requires forall i :: 0 <= i < |s| ==> s[i] as int < 0x1_0000
    ensures Length(s) == |s|
  {
    if s != [] {
      LengthOfBmp(s[1..]);
    }
  }

  /** Lexicographic order on code-unit sequences, a proper prefix being smaller. */
  predicate LessUnits(a: seq<int>, b: seq<int>)
  {
    if a == [] then b != []
    else if b == [] then false
    else if a[0] != b[0] then a[0] < b[0]
    else LessUnits(a[1..], b[1..])
  }

  /** `a < b` on JavaScript strings: code units compared lexicographically. */
  predicate Less(a: string, b: string)
  {
    LessUnits(CodeUnits(a), CodeUnits(b))
  }

  /** `s.startsWith(p)` */
  predicate StartsWith(s: string, p: string)
  {
    |p| <= |s| && s[..|p|] == p
  }

  /** `s.endsWith(suffix)` */
  predicate EndsWith(s: string, suffix: string)
  {
    |suffix| <= |s| && s[|s| - |suffix|..] == suffix
  }

  /** Encoding distributes over concatenation. */
  lemma {:induction false} CodeUnitsAppend(a: string, b: string)
    ensures CodeUnits(a + b) == CodeUnits(a) + CodeUnits(b)
  {
    if a != [] {
      assert (a + b)[0] == a[0] && (a + b)[1..] == a[1..] + b;
      CodeUnitsAppend(a[1..], b);
    } else {
      assert a + b == b;
    }
  }

  /** The first unit of a character's encoding tells its length. */
  lemma FirstUnitLength(c: char, d: char)
    requires Utf16(c)[0] == Utf16(d)[0]
    ensures |Utf16(c)| == |Utf16(d)|
  {
  }

  /** So does the last unit: a low surrogate ends a pair, anything else is a single unit. */
  lemma LastUnitLength(c: char, d: char)
    requires Utf16(c)[|Utf16(c)| - 1] == Utf16(d)[|Utf16(d)| - 1]
    ensures |Utf16(c)| == |Utf16(d)|
  {
  }

  /** A code-unit prefix of an encoding is the encoding of a character prefix. */
  lemma {:induction false} PrefixOfUnits(s: string, p: string)
    requires |CodeUnits(p)| <= |CodeUnits(s)| && CodeUnits(s)[..|CodeUnits(p)|] == CodeUnits(p)
    ensures StartsWith(s, p)
  {
    if p != [] {
      var up := Utf16(p[0]);
      assert CodeUnits(p) == up + CodeUnits(p[1..]);
      assert s != [];
      var us := Utf16(s[0]);
      assert CodeUnits(s) == us + CodeUnits(s[1..]);
      assert us[0] == CodeUnits(s)[0] == CodeUnits(p)[0] == up[0];
      FirstUnitLength(s[0], p[0]);
      assert us == CodeUnits(s)[..|us|] == CodeUnits(p)[..|up|] == up;
      Utf16Injective(s[0], p[0]);
      assert CodeUnits(s[1..]) == CodeUnits(s)[|us|..];
      assert CodeUnits(p[1..]) == CodeUnits(p)[|up|..];
      PrefixOfUnits(s[1..], p[1..]);
      assert s[..|p|] == [s[0]] + s[1..][..|p| - 1];
      assert p == [p[0]] + p[1..];
    }
  }

  /** The encoding of a non-empty string ends with the encoding of its last character. */
  lemma {:induction false} CodeUnitsSnoc(s: string)
    requires s != []
    ensures s == s[..|s| - 1] + [s[|s| - 1]]
    ensures CodeUnits(s) == CodeUnits(s[..|s| - 1]) + Utf16(s[|s| - 1])
  {
    var front, last := s[..|s| - 1], [s[|s| - 1]];
    assert s == front + last;
    CodeUnitsAppend(front, last);
    assert last[1..] == [];
    assert CodeUnits(last) == Utf16(last[0]) + CodeUnits(last[1..]);
  }

  /** Cancelling equally long tails from the two sides of a suffix relation. */
  lemma SplitSuffix(cf: seq<int>, us: seq<int>, ci: seq<int>, uf: seq<int>)
    requires |us| == |uf| && |ci| + |uf| <= |cf| + |us|
    requires (cf + us)[|cf| + |us| - |ci| - |uf|..] == ci + uf
    ensures us == uf && |ci| <= |cf| && cf[|cf| - |ci|..] == ci
  {
    var k := |cf| + |us| - |ci| - |uf|;
    assert forall i :: 0 <= i < |us| ==> us[i] == (cf + us)[|cf| + i] == (ci + uf)[|ci| + i] == uf[i];
    assert forall i :: 0 <= i < |ci| ==> cf[k + i] == (cf + us)[k + i] == (ci + uf)[i] == ci[i];
  }

  /** A code-unit suffix of an encoding is the encoding of a character suffix. */
  lemma {:induction false} SuffixOfUnits(s: string, suffix: string)
    requires |CodeUnits(suffix)| <= |CodeUnits(s)|
    requires CodeUnits(s)[|CodeUnits(s)| - |CodeUnits(suffix)|..] == CodeUnits(suffix)
    ensures EndsWith(s, suffix)
    decreases |suffix|
  {
    if suffix != [] {
      var n, m := |suffix|, |s|;
      assert |CodeUnits(s)| > 0;
      var init, front := suffix[..n - 1], s[..m - 1];
      var uf, us := Utf16(suffix[n - 1]), Utf16(s[m - 1]);
      CodeUnitsSnoc(suffix);
      CodeUnitsSnoc(s);
      var cs := CodeUnits(s);
      assert us[|us| - 1] == cs[|cs| - 1] == uf[|uf| - 1];
      LastUnitLength(s[m - 1], suffix[n - 1]);
      SplitSuffix(CodeUnits(front), us, CodeUnits(init), uf);
      Utf16Injective(s[m - 1], suffix[n - 1]);
      SuffixOfUnits(front, init);
      EndsWithSnoc(front, s[m - 1], init);
    }
  }

  lemma EndsWithSnoc(front: string, c: char, init: string)
    requires EndsWith(front, init)
    ensures EndsWith(front + [c], init + [c])
  {
    assert (front + [c])[|front| - |init|..] == front[|front| - |init|..] + [c];
  }

  /** `startsWith` on characters agrees with `startsWith` on code units. */
  lemma StartsWithUnits(s: string, p: string)
    ensures StartsWith(s, p) <==>
            |CodeUnits(p)| <= |CodeUnits(s)| && CodeUnits(s)[..|CodeUnits(p)|] == CodeUnits(p)
  {
    if StartsWith(s, p) {
      assert s == p + s[|p|..];
      CodeUnitsAppend(p, s[|p|..]);
    }
    if |CodeUnits(p)| <= |CodeUnits(s)| && CodeUnits(s)[..|CodeUnits(p)|] == CodeUnits(p) {
      PrefixOfUnits(s, p);
    }
  }

  /** `endsWith` on characters agrees with `endsWith` on code units. */
  lemma EndsWithUnits(s: string, suffix: string)
    ensures EndsWith(s, suffix) <==>
            |CodeUnits(suffix)| <= |CodeUnits(s)|
            && CodeUnits(s)[|CodeUnits(s)| - |CodeUnits(suffix)|..] == CodeUnits(suffix)
  {
    if EndsWith(s, suffix) {
      assert s == s[..|s| - |suffix|] + suffix;
      CodeUnitsAppend(s[..|s| - |suffix|], suffix);
    }
    if |CodeUnits(suffix)| <= |CodeUnits(s)|
       && CodeUnits(s)[|CodeUnits(s)| - |CodeUnits(suffix)|..] == CodeUnits(suffix) {
      SuffixOfUnits(s, suffix);
    }
  }

  lemma {:induction false} LessUnitsIrreflexive(a: seq<int>)
    ensures !LessUnits(a, a)
  {
    if a != [] {
      LessUnitsIrreflexive(a[1..]);
    }
  }

  lemma {:induction false} LessUnitsAsymmetric(a: seq<int>, b: seq<int>)
    ensures !(LessUnits(a, b) && LessUnits(b, a))
  {
    if a != [] && b != [] && a[0] == b[0] {
      LessUnitsAsymmetric(a[1..], b[1..]);
    }
  }

  lemma {:induction false} LessUnitsTotal(a: seq<int>, b: seq<int>)
    requires a != b
    ensures LessUnits(a, b) || LessUnits(b, a)
  {
    if a != [] && b != [] && a[0] == b[0] {
      assert a == [a[0]] + a[1..] && b == [b[0]] + b[1..];
      LessUnitsTotal(a[1..], b[1..]);
    }
  }

  lemma {:induction false} LessUnitsTransitive(a: seq<int>, b: seq<int>, c: seq<int>)
    requires LessUnits(a, b) && LessUnits(b, c)
    ensures LessUnits(a, c)
  {
    if a != [] && b != [] && c != [] && a[0] == b[0] && b[0] == c[0] {
      LessUnitsTransitive(a[1..], b[1..], c[1..]);
    }
  }

  /** A character is determined by its encoding. */
  lemma Utf16Injective(c: char, d: char)
    requires Utf16(c) == Utf16(d)
    ensures c == d
  {
    if c as int >= 0x1_0000 {
      var v, w := c as int - 0x1_0000, d as int - 0x1_0000;
      assert v / 0x400 == w / 0x400 && v % 0x400 == w % 0x400;
      assert v == 0x400 * (v / 0x400) + v % 0x400;
      assert w == 0x400 * (w / 0x400) + w % 0x400;
    }
  }

  /**
   * Different strings have different encodings: the first unit of a
   * character tells whether it is one unit or a surrogate pair, so the
   * encodings can be split character by character.
   */
  lemma {:induction false} CodeUnitsInjective(a: string, b: string)
    requires CodeUnits(a) == CodeUnits(b)
    ensures a == b
  {
    if a != [] && b != [] {
      var ua, ub := Utf16(a[0]), Utf16(b[0]);
      assert CodeUnits(a) == ua + CodeUnits(a[1..]);
      assert CodeUnits(b) == ub + CodeUnits(b[1..]);
      assert ua[0] == CodeUnits(a)[0] == ub[0];
      assert |ua| == |ub|;
      assert ua == CodeUnits(a)[..|ua|] == ub;
      Utf16Injective(a[0], b[0]);
      assert CodeUnits(a[1..]) == CodeUnits(a)[|ua|..] == CodeUnits(b[1..]);
      CodeUnitsInjective(a[1..], b[1..]);
      assert a == [a[0]] + a[1..] && b == [b[0]] + b[1..];
    }
  }

  lemma LessIrreflexive(a: string)
    ensures !Less(a, a)
  {
    LessUnitsIrreflexive(CodeUnits(a));
  }

  /** `<` is a strict order: it never holds both ways. */
  lemma LessAsymmetric(a: string, b: string)
    ensures !(Less(a, b) && Less(b, a))
  {
    LessUnitsAsymmetric(CodeUnits(a), CodeUnits(b));
  }

  /** Two different strings are always ordered one way or the other. */
  lemma LessTotal(a: string, b: string)
    requires a != b
    ensures Less(a, b) || Less(b, a)
  {
    if CodeUnits(a) == CodeUnits(b) {
      CodeUnitsInjective(a, b);
    }
    LessUnitsTotal(CodeUnits(a), CodeUnits(b));
  }

  lemma LessTransitive(a: string, b: string, c: string)
    requires Less(a, b) && Less(b, c)
    ensures Less(a, c)
  {
    LessUnitsTransitive(CodeUnits(a), CodeUnits(b), CodeUnits(c));
  }

  /** The descending order "not smaller than" used by the post listing is transitive. */
  lemma NotLessTransitive(a: string, b: string, c: string)
    requires !Less(a, b) && !Less(b, c)
    ensures !Less(a, c)
  {
    if Less(a, c) {
      if a == b || b == c {
        assert false;
      } else {
        LessTotal(a, b);
        LessTotal(b, c);
        LessTransitive(c, b, a);
        LessAsymmetric(a, c);
      }
    }
  }

  /**
   * Code units, not characters, decide: a character outside the Basic
   * Multilingual Plane sorts below U+FF01, since its first unit is a high
   * surrogate (0xD83D < 0xFF01); and it counts as two units of length.
   */
  lemma SurrogatePairsOrderAndCount()
    ensures Less("\U{1F600}", "！") && !Less("！", "\U{1F600}")
    ensures Length("\U{1F600}") == 2 && |"\U{1F600}"| == 1
  {
    var emoji, fullwidth := "\U{1F600}", "！";
    assert CodeUnits(emoji) == [0xD83D, 0xDE00] by {
      assert CodeUnits(emoji) == Utf16(emoji[0]) + CodeUnits([]);
    }
    assert CodeUnits(fullwidth) == [0xFF01] by {
      assert CodeUnits(fullwidth) == Utf16(fullwidth[0]) + CodeUnits([]);
    }
  }
}
