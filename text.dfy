/**
 * String primitives the handlers rely on, written out with the JavaScript
 * semantics they have in the source: `trim`, `split`, `join`, `includes`,
 * `startsWith`, `Number.prototype.toString` on integers and `parseInt` on
 * digit strings.
 */
module Text {

  /** ECMAScript WhiteSpace and LineTerminator code points: what `trim` strips and `\s` matches. */
  predicate IsSpace(c: char) {
    || c == ' ' || c == '\t' || c == '\n' || c == '\r' || c == '\U{B}' || c == '\U{C}'
    || c == '\U{A0}' || c == '\U{1680}' || ('\U{2000}' <= c <= '\U{200A}')
    || c == '\U{2028}' || c == '\U{2029}' || c == '\U{202F}' || c == '\U{205F}'
    || c == '\U{3000}' || c == '\U{FEFF}'
  }

  /** Neither end of `s` is white space. */
  predicate IsTrimmed(s: string) {
    s == [] || (!IsSpace(s[0]) && !IsSpace(s[|s| - 1]))
  }

  predicate AllSpace(s: string) {
    forall i :: 0 <= i < |s| ==> IsSpace(s[i])
  }

  /** `s` with its leading white space removed: a suffix of `s`. */
  function TrimStart(s: string): (r: string)
    ensures |r| <= |s| && r == s[|s| - |r|..]
    ensures AllSpace(s[..|s| - |r|])
    ensures r != [] ==> !IsSpace(r[0])
    ensures r == [] <==> AllSpace(s)
  {
    if |s| > 0 && IsSpace(s[0]) then
      var r := TrimStart(s[1..]);
      TrimStartStep(s, r);
      r
    else s
  }

  /** One step of `TrimStart`: dropping a leading space keeps its four properties. */
  lemma TrimStartStep(s: string, r: string)
    requires |s| > 0 && IsSpace(s[0])
    requires |r| <= |s[1..]| && r == s[1..][|s[1..]| - |r|..]
    requires AllSpace(s[1..][..|s[1..]| - |r|])
    requires r == [] <==> AllSpace(s[1..])
    ensures |r| <= |s| && r == s[|s| - |r|..]
    ensures AllSpace(s[..|s| - |r|])
    ensures r == [] <==> AllSpace(s)
  {
    assert s[1..][|s| - 1 - |r|..] == s[|s| - |r|..];
    forall i | 0 < i < |s| - |r| ensures IsSpace(s[i]) {
      assert s[i] == s[1..][..|s| - 1 - |r|][i - 1];
    }
    assert r == [] ==> s[..|s| - |r|] == s;
    assert AllSpace(s) ==> AllSpace(s[1..]);
  }

  /** `s` with its trailing white space removed: a prefix of `s`. */
  function TrimEnd(s: string): (r: string)
    ensures |r| <= |s| && r == s[..|r|]
    ensures AllSpace(s[|r|..])
    ensures r != [] ==> !IsSpace(r[|r| - 1])
    ensures r == [] <==> AllSpace(s)
  {
    if |s| > 0 && IsSpace(s[|s| - 1]) then
      var r := TrimEnd(s[..|s| - 1]);
      TrimEndStep(s, r);
      r
    else s
  }

  /** One step of `TrimEnd`: dropping a trailing space keeps its four properties. */
  lemma TrimEndStep(s: string, r: string)
    requires |s| > 0 && IsSpace(s[|s| - 1])
    requires |r| <= |s| - 1 && r == s[..|s| - 1][..|r|]
    requires AllSpace(s[..|s| - 1][|r|..])
    requires r == [] <==> AllSpace(s[..|s| - 1])
    ensures |r| <= |s| && r == s[..|r|]
    ensures AllSpace(s[|r|..])
    ensures r == [] <==> AllSpace(s)
  {
    assert s[..|s| - 1][..|r|] == s[..|r|];
    forall i | |r| <= i < |s| - 1 ensures IsSpace(s[i]) {
      assert s[i] == s[..|s| - 1][|r|..][i - |r|];
    }
    assert r == [] ==> s[|r|..] == s;
    assert AllSpace(s) ==> AllSpace(s[..|s| - 1]);
  }

  /** `String.prototype.trim`. */
  function Trim(s: string): (r: string)
    ensures IsTrimmed(r)
    ensures |r| <= |s|
    ensures r == [] <==> AllSpace(s)
  {
    var a := TrimStart(s);
    var r := TrimEnd(a);
    assert r != [] ==> r[0] == a[0];
    r
  }

  lemma {:induction false} TrimOfTrimmed(s: string)
    requires IsTrimmed(s)
    ensures Trim(s) == s
  {
    assert TrimStart(s) == s;
    assert TrimEnd(s) == s;
  }

  predicate StartsWith(s: string, prefix: string) {
    |prefix| <= |s| && s[..|prefix|] == prefix
  }

  /** `String.prototype.includes`. */
  predicate Contains(s: string, sub: string)
    decreases |s|
  {
    StartsWith(s, sub) || (|s| > 0 && Contains(s[1..], sub))
  }

  /** `Contains` agrees with "`sub` occurs at some position of `s`". */
  lemma {:induction false} ContainsAt(s: string, sub: string)
    ensures Contains(s, sub) <==> exists i :: 0 <= i <= |s| && StartsWith(s[i..], sub)
    decreases |s|
  {
    assert s[0..] == s;
    if |s| > 0 {
      ContainsAt(s[1..], sub);
      if exists i :: 0 <= i <= |s| && StartsWith(s[i..], sub) {
        var i :| 0 <= i <= |s| && StartsWith(s[i..], sub);
        if i > 0 {
          assert s[1..][i - 1..] == s[i..];
        }
      }
      if Contains(s[1..], sub) {
        var i :| 0 <= i <= |s[1..]| && StartsWith(s[1..][i..], sub);
        assert s[1..][i..] == s[i + 1..];
      }
    } else {
      if exists i :: 0 <= i <= |s| && StartsWith(s[i..], sub) {
        var i :| 0 <= i <= |s| && StartsWith(s[i..], sub);
        assert i == 0 && s[i..] == s;
      }
    }
  }

  /** An occurrence in the second half of a concatenation is an occurrence in the whole. */
  lemma {:induction false} ContainsSuffix(a: string, b: string, sub: string)
    requires Contains(b, sub)
    ensures Contains(a + b, sub)
    decreases |a|
  {
    if a != [] {
      assert (a + b)[1..] == a[1..] + b;
      ContainsSuffix(a[1..], b, sub);
    } else {
      assert a + b == b;
    }
  }

  /** The tail of any joined part occurs in the joined string. */
  lemma {:induction false} JoinContains(parts: seq<string>, sep: string, i: nat, pre: string, sub: string)
    requires i < |parts| && parts[i] == pre + sub
    ensures Contains(Join(parts, sep), sub)
    decreases i
  {
    if i == 0 {
      var rest := if |parts| == 1 then [] else sep + Join(parts[1..], sep);
      assert Join(parts, sep) == pre + (sub + rest);
      assert StartsWith(sub + rest, sub) by {
        assert (sub + rest)[..|sub|] == sub;
      }
      ContainsSuffix(pre, sub + rest, sub);
    } else {
      JoinContains(parts[1..], sep, i - 1, pre, sub);
      ContainsSuffix(parts[0] + sep, Join(parts[1..], sep), sub);
    }
  }

  /** `String.prototype.split` with a one-character separator. */
  function Split(s: string, sep: char): (parts: seq<string>)
    ensures |parts| >= 1
    ensures forall i :: 0 <= i < |parts| ==> sep !in parts[i]
  {
    if s == [] then [[]]
    else
      var rest := Split(s[1..], sep);
      if s[0] == sep then [[]] + rest else [[s[0]] + rest[0]] + rest[1..]
  }

  /** `Array.prototype.join`. */
  function Join(parts: seq<string>, sep: string): string {
    if parts == [] then []
    else if |parts| == 1 then parts[0]
    else parts[0] + sep + Join(parts[1..], sep)
  }

  lemma {:induction false} JoinCons(p: string, parts: seq<string>, sep: string)
    requires parts != []
    ensures Join([p] + parts, sep) == p + sep + Join(parts, sep)
  {
    assert ([p] + parts)[1..] == parts;
  }

  /** Splitting and joining again with the same separator gives back the string. */
  lemma {:induction false} JoinSplit(s: string, sep: char)
    ensures Join(Split(s, sep), [sep]) == s
    decreases |s|
  {
    if s != [] {
      JoinSplit(s[1..], sep);
      if s[0] == sep {
        JoinSplitSep(s, sep);
      } else {
        JoinSplitChar(s, sep);
      }
    }
  }

  /** The step of `JoinSplit` for a leading separator. */
  lemma JoinSplitSep(s: string, sep: char)
    requires s != [] && s[0] == sep
    requires Join(Split(s[1..], sep), [sep]) == s[1..]
    ensures Join(Split(s, sep), [sep]) == s
  {
    var rest := Split(s[1..], sep);
    assert Split(s, sep) == [[]] + rest;
    JoinCons([], rest, [sep]);
    assert [] + [sep] + s[1..] == s;
  }

  /** The step of `JoinSplit` for a leading character that is not the separator. */
  lemma JoinSplitChar(s: string, sep: char)
    requires s != [] && s[0] != sep
    requires Join(Split(s[1..], sep), [sep]) == s[1..]
    ensures Join(Split(s, sep), [sep]) == s
  {
    var rest := Split(s[1..], sep);
    assert Split(s, sep) == [[s[0]] + rest[0]] + rest[1..];
    assert s == [s[0]] + s[1..];
    JoinGlue(s[0], rest, [sep]);
  }

  /** Gluing a character onto the first part of a join glues it onto the joined string. */
  lemma JoinGlue(c: char, parts: seq<string>, sep: string)
    requires parts != []
    ensures Join([[c] + parts[0]] + parts[1..], sep) == [c] + Join(parts, sep)
  {
    if |parts| > 1 {
      var tail := Join(parts[1..], sep);
      JoinCons([c] + parts[0], parts[1..], sep);
      assert [parts[0]] + parts[1..] == parts;
      JoinCons(parts[0], parts[1..], sep);
      assert ([c] + parts[0]) + sep + tail == [c] + (parts[0] + sep + tail);
    }
  }

  /** A string with one separator in front splits into an empty part followed by the parts of the rest. */
  lemma SplitAfterSep(s: string, sep: char)
    ensures Split([sep] + s, sep) == [[]] + Split(s, sep)
  {
    assert ([sep] + s)[1..] == s;
  }

  /** A separator-free prefix joins the first part. */
  lemma {:induction false} SplitAfterPlain(w: string, s: string, sep: char)
    requires sep !in w
    ensures Split(w + s, sep) == [w + Split(s, sep)[0]] + Split(s, sep)[1..]
    decreases |w|
  {
    if w != [] {
      assert (w + s)[1..] == w[1..] + s;
      assert (w + s)[0] == w[0];
      SplitAfterPlain(w[1..], s, sep);
      assert [w[0]] + (w[1..] + Split(s, sep)[0]) == w + Split(s, sep)[0];
    } else {
      assert w + s == s;
      assert w + Split(s, sep)[0] == Split(s, sep)[0];
      assert [Split(s, sep)[0]] + Split(s, sep)[1..] == Split(s, sep);
    }
  }

  /** A separator-free string is one part. */
  lemma SplitPlain(w: string, sep: char)
    requires sep !in w
    ensures Split(w, sep) == [w]
  {
    SplitAfterPlain(w, [], sep);
    assert w + [] == w;
  }

  /** Joining separator-free parts and splitting again gives back the parts. */
  lemma {:induction false} SplitJoin(parts: seq<string>, sep: char)
    requires parts != [] && forall i :: 0 <= i < |parts| ==> sep !in parts[i]
    ensures Split(Join(parts, [sep]), sep) == parts
    decreases |parts|
  {
    if |parts| == 1 {
      SplitPlain(parts[0], sep);
    } else {
      var rest := parts[1..];
      var tail := Join(rest, [sep]);
      SplitJoin(rest, sep);
      assert Join(parts, [sep]) == parts[0] + ([sep] + tail);
      SplitAfterSep(tail, sep);
      SplitAfterPlain(parts[0], [sep] + tail, sep);
      assert parts[0] + [] == parts[0];
      assert [parts[0]] + rest == parts;
    }
  }

  predicate IsDigit(c: char) { '0' <= c <= '9' }

  predicate AllDigits(s: string) {
    forall i :: 0 <= i < |s| ==> IsDigit(s[i])
  }

  function DigitChar(d: nat): (c: char)
    requires d < 10
    ensures IsDigit(c)
  {
    (('0' as int) + d) as char
  }

  /** Decimal notation of a natural number (`n.toString()`): no leading zero. */
  function Dec(n: nat): (r: string)
    ensures |r| >= 1 && AllDigits(r)
    ensures r[0] == '0' ==> n == 0
  {
    if n < 10 then [DigitChar(n)] else Dec(n / 10) + [DigitChar(n % 10)]
  }

  /** `parseInt` of a string of decimal digits. */
  function ParseDigits(s: string): nat
    requires AllDigits(s)
  {
    if s == [] then 0 else ParseDigits(s[..|s| - 1]) * 10 + ((s[|s| - 1] as int) - ('0' as int))
  }

  /** `parseInt(n.toString()) == n`. */
  lemma {:induction false} ParseDec(n: nat)
    ensures ParseDigits(Dec(n)) == n
  {
    if n >= 10 {
      var r := Dec(n);
      assert r[..|r| - 1] == Dec(n / 10);
      ParseDec(n / 10);
    }
  }

  /** Different numbers have different decimal notations. */
  lemma DecInjective(a: nat, b: nat)
    requires Dec(a) == Dec(b)
    ensures a == b
  {
    ParseDec(a);
    ParseDec(b);
  }

  /** `Number.prototype.toString` on an integer: `parseInt` reads the number back. */
  function IntToString(i: int): (r: string)
    ensures i >= 0 ==> r != [] && AllDigits(r) && ParseDigits(r) == i
    ensures i < 0 ==> |r| >= 2 && r[0] == '-' && AllDigits(r[1..]) && ParseDigits(r[1..]) == -i
  {
    if i < 0 then
      ParseDec(-i);
      assert ("-" + Dec(-i))[1..] == Dec(-i);
      "-" + Dec(-i)
    else
      ParseDec(i);
      Dec(i)
  }

  /** Different integers print differently. */
  lemma IntToStringInjective(a: int, b: int)
    requires IntToString(a) == IntToString(b)
    ensures a == b
  {
  }

  datatype Option<T> = None | Some(value: T)

  function Min(a: int, b: int): int { if a <= b then a else b }
  function Max(a: int, b: int): int { if a >= b then a else b }

  predicate NoDup<T(==)>(s: seq<T>) {
    forall i, j :: 0 <= i < j < |s| ==> s[i] != s[j]
  }

  /** `Array.prototype.filter`: the elements satisfying `p`, in their order. */
  function Filter<T>(s: seq<T>, p: T -> bool): (r: seq<T>)
    ensures |r| <= |s|
    ensures forall i :: 0 <= i < |r| ==> p(r[i]) && r[i] in s
    ensures forall i :: 0 <= i < |s| && p(s[i]) ==> s[i] in r
  {
    if s == [] then []
    else if p(s[0]) then [s[0]] + Filter(s[1..], p)
    else Filter(s[1..], p)
  }

  /** Filtering a concatenation filters both halves: the kept elements stay in order, each as often as it was. */
  lemma {:induction false} FilterAppend<T>(a: seq<T>, b: seq<T>, p: T -> bool)
    ensures Filter(a + b, p) == Filter(a, p) + Filter(b, p)
    decreases |a|
  {
    if a == [] {
      assert a + b == b;
    } else {
      assert (a + b)[0] == a[0] && (a + b)[1..] == a[1..] + b;
      FilterAppend(a[1..], b, p);
    }
  }

  /** One element is kept exactly when it satisfies `p`. */
  lemma FilterSingleton<T>(x: T, p: T -> bool)
    ensures Filter([x], p) == if p(x) then [x] else []
  {
    assert [x][1..] == [];
  }

  /** `Array.prototype.filter` keeping the elements that are not `x`. */
  function Without<T(==)>(s: seq<T>, x: T): (r: seq<T>)
    ensures forall i :: 0 <= i < |r| ==> r[i] in s && r[i] != x
    ensures forall i :: 0 <= i < |s| && s[i] != x ==> s[i] in r
    ensures |r| <= |s|
  {
    if s == [] then []
    else if s[0] == x then Without(s[1..], x)
    else [s[0]] + Without(s[1..], x)
  }

  /** Removing from a concatenation removes from both halves. */
  lemma {:induction false} WithoutAppend<T>(a: seq<T>, b: seq<T>, x: T)
    ensures Without(a + b, x) == Without(a, x) + Without(b, x)
    decreases |a|
  {
    if a == [] {
      assert a + b == b;
    } else {
      assert (a + b)[0] == a[0] && (a + b)[1..] == a[1..] + b;
      WithoutAppend(a[1..], b, x);
    }
  }

  /** Removing a value that is not there changes nothing. */
  lemma {:induction false} WithoutAbsent<T>(a: seq<T>, x: T)
    requires x !in a
    ensures Without(a, x) == a
    decreases |a|
  {
    if a != [] {
      assert a[1..] + [] == a[1..];
      WithoutAbsent(a[1..], x);
      assert [a[0]] + a[1..] == a;
    }
  }

  // ---------------------------------------------------------------------------
  // UTF-16 lengths: JavaScript's `length` and `substring` count code units
  // ---------------------------------------------------------------------------

  /** The UTF-16 code units a character takes: two outside the Basic Multilingual Plane. */
  function Units(c: char): nat {
    if c as int > 0xFFFF then 2 else 1
  }

  /** `s.length`: the number of UTF-16 code units of `s`. */
  function Utf16Length(s: string): (n: nat)
    ensures |s| <= n <= 2 * |s|
  {
    if s == [] then 0 else Units(s[0]) + Utf16Length(s[1..])
  }

  /** A non-empty prefix counts its first character, then the rest of the prefix. */
  lemma Utf16LengthHead(s: string, k: nat)
    requires 0 < k <= |s|
    ensures Utf16Length(s[..k]) == Units(s[0]) + Utf16Length(s[1..][..k - 1])
  {
    assert s[..k][1..] == s[1..][..k - 1];
  }

  /** The code-unit length of a concatenation is the sum of the lengths. */
  lemma {:induction false} Utf16LengthAppend(a: string, b: string)
    ensures Utf16Length(a + b) == Utf16Length(a) + Utf16Length(b)
  {
    if a == [] {
      assert a + b == b;
    } else {
      assert (a + b)[1..] == a[1..] + b;
      Utf16LengthAppend(a[1..], b);
    }
  }

  /** The code-unit length equals the character count exactly when every character lies in the Basic Multilingual Plane. */
  lemma {:induction false} Utf16LengthBmp(s: string)
    ensures Utf16Length(s) == |s| <==> forall k :: 0 <= k < |s| ==> s[k] as int <= 0xFFFF
  {
    if s != [] {
      Utf16LengthBmp(s[1..]);
      if forall k :: 0 <= k < |s| ==> s[k] as int <= 0xFFFF {
        assert forall k :: 0 <= k < |s| - 1 ==> s[1..][k] == s[k + 1];
      } else {
        var k :| 0 <= k < |s| && s[k] as int > 0xFFFF;
        if k > 0 {
          assert s[1..][k - 1] == s[k];
        }
      }
    }
  }

  /** A string of characters outside the Basic Multilingual Plane has two code units per character. */
  lemma {:induction false} Utf16LengthAstral(s: string)
    requires forall k :: 0 <= k < |s| ==> s[k] as int > 0xFFFF
    ensures Utf16Length(s) == 2 * |s|
  {
    if s != [] {
      assert forall k :: 0 <= k < |s| - 1 ==> s[1..][k] == s[k + 1];
      Utf16LengthAstral(s[1..]);
    }
  }

  /**
   * `s.substring(0, n)` on whole characters: the longest prefix of `s` whose
   * code-unit length is at most `n`.
   */
  function Utf16Prefix(s: string, n: nat): (r: string)
    ensures |r| <= |s| && r == s[..|r|]
  {
    if s == [] || Units(s[0]) > n then []
    else [s[0]] + Utf16Prefix(s[1..], n - Units(s[0]))
  }

  /** The prefix fits in `n` code units, and it is the whole string or one more character would not fit. */
  lemma {:induction false} Utf16PrefixFits(s: string, n: nat)
    ensures var r := Utf16Prefix(s, n);
      && Utf16Length(r) <= n
      && (r == s || Utf16Length(s[..|r| + 1]) > n)
  {
    if s == [] {
    } else if Units(s[0]) > n {
      Utf16LengthHead(s, 1);
    } else {
      var rest := Utf16Prefix(s[1..], n - Units(s[0]));
      Utf16PrefixFits(s[1..], n - Units(s[0]));
      Utf16LengthHead([s[0]] + rest, |rest| + 1);
      assert ([s[0]] + rest)[1..][..|rest|] == rest;
      if rest != s[1..] {
        assert |rest| < |s| - 1;
        Utf16LengthHead(s, |rest| + 2);
      }
    }
  }

  /** On text of the Basic Multilingual Plane, code units are characters and the prefix is the first `n` of them. */
  lemma {:induction false} Utf16PrefixBmp(s: string, n: nat)
    ensures Bmp(s) ==> Utf16Prefix(s, n) == s[..Min(n, |s|)]
  {
    if Bmp(s) {
      PrefixOfBmp(s, n);
    }
  }

  /** Every character lies in the Basic Multilingual Plane. */
  predicate Bmp(s: string) {
    forall k :: 0 <= k < |s| ==> s[k] as int <= 0xFFFF
  }

  lemma BmpTail(s: string)
    requires s != [] && Bmp(s)
    ensures Bmp(s[1..]) && Units(s[0]) == 1
  {
    forall k | 0 <= k < |s| - 1
      ensures s[1..][k] as int <= 0xFFFF
    {
      assert s[1..][k] == s[k + 1];
    }
  }

  lemma ConsSlice(s: string, m: nat)
    requires m < |s|
    ensures [s[0]] + s[1..][..m] == s[..m + 1]
  {
  }

  lemma {:induction false} PrefixOfBmp(s: string, n: nat)
    requires Bmp(s)
    ensures Utf16Prefix(s, n) == s[..Min(n, |s|)]
  {
    if s != [] && n > 0 {
      var tail := s[1..];
      BmpTail(s);
      PrefixOfBmp(tail, n - 1);
      var m := Min(n - 1, |tail|);
      assert Utf16Prefix(s, n) == [s[0]] + tail[..m];
      ConsSlice(s, m);
    }
  }
}
