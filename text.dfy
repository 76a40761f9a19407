/** String helpers with the semantics of the JavaScript operations the app uses. */
module Text {
  import opened Wrappers

  predicate IsDigit(c: char) { '0' <= c <= '9' }

  predicate AllDigits(s: string) { forall i :: 0 <= i < |s| ==> IsDigit(s[i]) }

  function Min(a: int, b: int): int { if a <= b then a else b }

  /** `s.slice(0, n)` for a non-negative n. */
  function Take(s: string, n: nat): (r: string)
    ensures |r| == Min(n, |s|) && r == s[..|r|]
  {
    s[..Min(n, |s|)]
  }

  /** `s.slice(n)` for a non-negative n. */
  function Drop(s: string, n: nat): (r: string)
    ensures Take(s, n) + r == s
  {
    s[Min(n, |s|)..]
  }

  /** `s.replace(/[^0-9]/g, '')`: the ASCII digits of s, in order. */
  function OnlyDigits(s: string): (r: string)
    ensures AllDigits(r) && |r| <= |s|
  {
    if s == [] then [] else (if IsDigit(s[0]) then [s[0]] else []) + OnlyDigits(s[1..])
  }

  lemma {:induction false} OnlyDigitsOfDigits(s: string)
    requires AllDigits(s)
    ensures OnlyDigits(s) == s
  {
    if s != [] {
      OnlyDigitsOfDigits(s[1..]);
    }
  }

  lemma {:induction false} OnlyDigitsAppend(a: string, b: string)
    ensures OnlyDigits(a + b) == OnlyDigits(a) + OnlyDigits(b)
  {
    if a == [] {
      assert a + b == b;
    } else {
      assert (a + b)[1..] == a[1..] + b;
      OnlyDigitsAppend(a[1..], b);
    }
  }

  /** s with every occurrence of c removed. */
  function Without(s: string, c: char): (r: string)
    ensures |r| <= |s| && c !in r
  {
    if s == [] then [] else (if s[0] == c then [] else [s[0]]) + Without(s[1..], c)
  }

  lemma {:induction false} WithoutAppend(a: string, b: string, c: char)
    ensures Without(a + b, c) == Without(a, c) + Without(b, c)
  {
    if a == [] {
      assert a + b == b;
    } else {
      assert (a + b)[0] == a[0] && (a + b)[1..] == a[1..] + b;
      WithoutAppend(a[1..], b, c);
    }
  }

  lemma {:induction false} WithoutAbsent(s: string, c: char)
    requires c !in s
    ensures Without(s, c) == s
  {
    if s != [] {
      WithoutAbsent(s[1..], c);
    }
  }

  lemma AllDigitsSlice(s: string, i: nat, j: nat)
    requires AllDigits(s) && i <= j <= |s|
    ensures AllDigits(s[i..j])
  {
    forall k | 0 <= k < j - i ensures IsDigit(s[i..j][k]) {
      assert s[i..j][k] == s[i + k];
    }
  }

  lemma DigitsLack(s: string, c: char)
    requires AllDigits(s) && !IsDigit(c)
    ensures c !in s
  {
    forall i | 0 <= i < |s| ensures s[i] != c {
      assert IsDigit(s[i]);
    }
  }

  lemma JoinWithout(a: string, b: string, c: char)
    requires c !in a && c !in b
    ensures Without(a + [c] + b, c) == a + b
  {
    var ac := a + [c];
    WithoutAppend(ac, b, c);
    WithoutAppend(a, [c], c);
    WithoutAbsent(a, c);
    WithoutAbsent(b, c);
    WithoutSelf(c);
    assert Without(ac, c) == a;
    assert Without(ac + b, c) == a + b;
  }

  lemma WithoutSelf(c: char)
    ensures Without([c], c) == []
  {
    assert [c][1..] == [];
  }

  lemma JoinOnlyDigits(a: string, b: string, c: char)
    requires AllDigits(a) && AllDigits(b) && !IsDigit(c)
    ensures OnlyDigits(a + [c] + b) == a + b
  {
    var ac := a + [c];
    OnlyDigitsAppend(ac, b);
    OnlyDigitsAppend(a, [c]);
    OnlyDigitsOfDigits(a);
    OnlyDigitsOfDigits(b);
    OnlyDigitsNon(c);
    assert OnlyDigits(ac) == a;
    assert OnlyDigits(ac + b) == a + b;
  }

  lemma OnlyDigitsNon(c: char)
    requires !IsDigit(c)
    ensures OnlyDigits([c]) == []
  {
    assert [c][1..] == [];
  }

  lemma JoinPositions(a: string, b: string, c: char)
    requires AllDigits(a) && AllDigits(b) && !IsDigit(c)
    ensures forall i :: 0 <= i < |a + [c] + b| ==> ((a + [c] + b)[i] == c <==> i == |a|)
    ensures forall i :: 0 <= i < |a + [c] + b| && i != |a| ==> IsDigit((a + [c] + b)[i])
  {
    var r := a + [c] + b;
    forall i | 0 <= i < |r| ensures (r[i] == c <==> i == |a|) && (i != |a| ==> IsDigit(r[i])) {
      if i < |a| {
        assert r[i] == a[i];
      } else if i > |a| {
        assert r[i] == b[i - |a| - 1];
      }
    }
  }

  /** Joining two digit strings with a non-digit c: removing c, or keeping only digits, splits them apart again. */
  lemma JoinDigits(a: string, b: string, c: char)
    requires AllDigits(a) && AllDigits(b) && !IsDigit(c)
    ensures Without(a + [c] + b, c) == a + b
    ensures OnlyDigits(a + [c] + b) == a + b
    ensures forall i :: 0 <= i < |a + [c] + b| ==> ((a + [c] + b)[i] == c <==> i == |a|)
    ensures forall i :: 0 <= i < |a + [c] + b| && i != |a| ==> IsDigit((a + [c] + b)[i])
  {
    DigitsLack(a, c);
    DigitsLack(b, c);
    JoinWithout(a, b, c);
    JoinOnlyDigits(a, b, c);
    JoinPositions(a, b, c);
  }

  function DigitChar(d: int): (c: char)
    requires 0 <= d < 10
    ensures IsDigit(c)
  {
    ('0' as int + d) as char
  }

  /** `n.toString()` for a natural number: decimal digits, no leading zeros. */
  function NatToString(n: nat): (s: string)
    ensures |s| >= 1 && AllDigits(s)
  {
    if n < 10 then [DigitChar(n)] else NatToString(n / 10) + [DigitChar(n % 10)]
  }

  /** `i.toString()` for an integer (a leading '-' for negatives). */
  function IntToString(i: int): (s: string)
    ensures ' ' !in s
  {
    if i < 0 then "-" + NatToString(-i) else NatToString(i)
  }

  /** `s.padStart(width, fill)`: fill characters in front until the length reaches width. */
  function PadStart(s: string, width: nat, fill: char): (r: string)
    ensures |r| == if |s| >= width then |s| else width
    ensures r[|r| - |s|..] == s
    ensures forall i :: 0 <= i < |r| - |s| ==> r[i] == fill
    decreases width - |s|
  {
    if |s| >= width then s else PadStart([fill] + s, width, fill)
  }

  /** `n.toString().padStart(2, "0")`. */
  function Pad2(n: nat): (r: string)
    ensures |r| >= 2 && AllDigits(r)
  {
    PadDigits(NatToString(n), 2);
    PadStart(NatToString(n), 2, '0')
  }

  lemma PadOnce(s: string, fill: char)
    requires |s| == 1
    ensures PadStart(s, 2, fill) == [fill] + s
  {
    assert |[fill] + s| == 2;
  }

  /** Zero-filling a digit string keeps it all digits. */
  lemma PadDigits(s: string, width: nat)
    requires AllDigits(s)
    ensures AllDigits(PadStart(s, width, '0'))
  {
    var r := PadStart(s, width, '0');
    var k := |r| - |s|;
    forall i | 0 <= i < |r| ensures IsDigit(r[i]) {
      if i >= k {
        assert r[i] == r[k..][i - k];
      }
    }
  }

  function Pow10(k: nat): (p: nat)
    ensures p >= 1
  {
    if k == 0 then 1 else 10 * Pow10(k - 1)
  }

  /** The last k decimal digits of n, zero-filled to exactly k characters. */
  function FixedDigits(n: nat, k: nat): (s: string)
    ensures |s| == k && AllDigits(s)
  {
    if k == 0 then [] else FixedDigits(n / 10, k - 1) + [DigitChar(n % 10)]
  }

  lemma {:induction false} NatToStringFixed(n: nat, k: nat)
    requires k >= 1 && Pow10(k - 1) <= n < Pow10(k)
    ensures NatToString(n) == FixedDigits(n, k)
  {
    if k > 1 {
      NatToStringFixed(n / 10, k - 1);
    }
  }

  lemma Pad2Fixed(n: nat)
    requires n < 100
    ensures Pad2(n) == FixedDigits(n, 2)
  {
    if n < 10 {
      Pad2OneDigit(n);
    } else {
      NatToStringFixed(n, 2);
    }
  }

  lemma Pad2OneDigit(n: nat)
    requires n < 10
    ensures Pad2(n) == FixedDigits(n, 2)
  {
    var s := NatToString(n);
    assert s == [DigitChar(n)];
    PadOnce(s, '0');
    assert FixedDigits(n, 2) == FixedDigits(0, 1) + [DigitChar(n)];
    assert FixedDigits(0, 1) == FixedDigits(0, 0) + [DigitChar(0)];
  }

  /** JavaScript `a < b` on strings: lexicographic order of the characters. */
  predicate LexLess(a: string, b: string)
    decreases |a|
  {
    if |a| == 0 then |b| > 0
    else |b| > 0 && (a[0] < b[0] || (a[0] == b[0] && LexLess(a[1..], b[1..])))
  }

  /** JavaScript `a <= b` on strings. */
  predicate LexLe(a: string, b: string) { a == b || LexLess(a, b) }

  lemma {:induction false} LexLessIrreflexive(a: string)
    ensures !LexLess(a, a)
  {
    if |a| > 0 {
      LexLessIrreflexive(a[1..]);
    }
  }

  lemma {:induction false} LexLessTransitive(a: string, b: string, c: string)
    requires LexLess(a, b) && LexLess(b, c)
    ensures LexLess(a, c)
  {
    if |a| > 0 && a[0] == b[0] && b[0] == c[0] {
      LexLessTransitive(a[1..], b[1..], c[1..]);
    }
  }

  lemma LexLessLeTransitive(a: string, b: string, c: string)
    requires LexLess(a, b) && LexLe(b, c)
    ensures LexLess(a, c)
  {
    if b != c {
      LexLessTransitive(a, b, c);
    }
  }

  lemma {:induction false} LexLessTotal(a: string, b: string)
    ensures LexLess(a, b) || a == b || LexLess(b, a)
  {
    if |a| > 0 && |b| > 0 && a[0] == b[0] {
      LexLessTotal(a[1..], b[1..]);
      if a[1..] == b[1..] {
        assert a == [a[0]] + a[1..] && b == [b[0]] + b[1..];
      }
    }
  }

  lemma LexLeTotal(a: string, b: string)
    ensures LexLe(a, b) || LexLe(b, a)
  {
    LexLessTotal(a, b);
  }

  lemma LexLeTransitive(a: string, b: string, c: string)
    requires LexLe(a, b) && LexLe(b, c)
    ensures LexLe(a, c)
  {
    if a != b && b != c {
      LexLessTransitive(a, b, c);
    }
  }

  lemma LexLeAntisymmetric(a: string, b: string)
    requires LexLe(a, b) && LexLe(b, a)
    ensures a == b
  {
    if a != b {
      LexLessTransitive(a, b, a);
      LexLessIrreflexive(a);
    }
  }

  /** Comparing two concatenations whose first parts have equal length. */
  lemma {:induction false} LexLessAppend(a: string, b: string, c: string, d: string)
    requires |a| == |c|
    ensures LexLess(a + b, c + d) <==> LexLess(a, c) || (a == c && LexLess(b, d))
  {
    if |a| > 0 {
      assert (a + b)[0] == a[0] && (c + d)[0] == c[0];
      assert (a + b)[1..] == a[1..] + b && (c + d)[1..] == c[1..] + d;
      LexLessAppend(a[1..], b, c[1..], d);
      if a[0] == c[0] && a[1..] == c[1..] {
        assert a == c;
      }
      if a == c {
        assert a[1..] == c[1..];
      }
    } else {
      assert a + b == b && c + d == d;
    }
  }

  /** Concatenations whose first parts have equal length are equal exactly when both parts are. */
  lemma AppendEqual(a: string, b: string, c: string, d: string)
    requires |a| == |c|
    ensures a + b == c + d <==> a == c && b == d
  {
    if a + b == c + d {
      assert a == (a + b)[..|a|] && c == (c + d)[..|c|];
      assert b == (a + b)[|a|..] && d == (c + d)[|c|..];
    }
  }

  /** Fixed-width digit strings compare as strings exactly as their numbers compare. */
  lemma {:induction false} FixedDigitsOrder(n: nat, m: nat, k: nat)
    requires n < Pow10(k) && m < Pow10(k)
    ensures LexLess(FixedDigits(n, k), FixedDigits(m, k)) <==> n < m
    ensures FixedDigits(n, k) == FixedDigits(m, k) <==> n == m
  {
    if k > 0 {
      FixedDigitsOrder(n / 10, m / 10, k - 1);
      var dn, dm := DigitChar(n % 10), DigitChar(m % 10);
      LexLessAppend(FixedDigits(n / 10, k - 1), [dn], FixedDigits(m / 10, k - 1), [dm]);
      assert LexLess([dn], [dm]) <==> dn < dm by {
        assert [dn][1..] == [] && [dm][1..] == [];
      }
      if FixedDigits(n, k) == FixedDigits(m, k) {
        assert FixedDigits(n, k)[k - 1] == dn && FixedDigits(m, k)[k - 1] == dm;
        assert FixedDigits(n, k)[..k - 1] == FixedDigits(n / 10, k - 1);
        assert FixedDigits(m, k)[..k - 1] == FixedDigits(m / 10, k - 1);
      }
    }
  }

  /** The first index at or after i where sep occurs in s. */
  function FindFrom(s: string, sep: string, i: nat): (r: Option<nat>)
    requires |sep| > 0
    ensures r.Some? ==> i <= r.value && r.value + |sep| <= |s| && s[r.value..r.value + |sep|] == sep
    decreases |s| - i
  {
    if i + |sep| > |s| then None
    else if s[i..i + |sep|] == sep then Some(i)
    else FindFrom(s, sep, i + 1)
  }

  /** `s.split(sep)` for a non-empty separator. */
  function Split(s: string, sep: string): (parts: seq<string>)
    requires |sep| > 0
    ensures |parts| >= 1
    decreases |s|
  {
    match FindFrom(s, sep, 0)
    case None => [s]
    case Some(j) => [s[..j]] + Split(s[j + |sep|..], sep)
  }

  lemma {:induction false} FindNoSpace(s: string, sep: string, i: nat)
    requires |sep| > 0 && sep[0] == ' ' && ' ' !in s
    ensures FindFrom(s, sep, i) == None
    decreases |s| - i
  {
    if i + |sep| <= |s| {
      assert s[i..i + |sep|][0] == s[i];
      FindNoSpace(s, sep, i + 1);
    }
  }

  lemma {:induction false} FindAfterPrefix(a: string, b: string, sep: string, i: nat)
    requires |sep| > 0 && sep[0] == ' ' && ' ' !in a && i <= |a|
    ensures FindFrom(a + sep + b, sep, i) == Some(|a|)
    decreases |a| - i
  {
    var s := a + sep + b;
    if i < |a| {
      assert s[i..i + |sep|][0] == a[i];
      FindAfterPrefix(a, b, sep, i + 1);
    } else {
      assert s[i..i + |sep|] == sep;
    }
  }

  /** Splitting "a - b" on " - " gives back a and b when neither holds a space. */
  lemma SplitPair(a: string, b: string)
    requires ' ' !in a && ' ' !in b
    ensures Split(a + " - " + b, " - ") == [a, b]
  {
    var s := a + " - " + b;
    FindAfterPrefix(a, b, " - ", 0);
    assert s[..|a|] == a;
    assert s[|a| + 3..] == b;
    FindNoSpace(b, " - ", 0);
  }
}
