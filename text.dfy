/** Character classes and string operations of Python's `str`, as the core uses them. */
module Text {

  predicate IsDigit(c: char) { '0' <= c <= '9' }

  predicate IsLetter(c: char) { 'A' <= c <= 'Z' || 'a' <= c <= 'z' }

  predicate IsAlnum(c: char) { IsDigit(c) || IsLetter(c) }

  /** The characters for which Python's `str.isspace()` holds (and which `str.strip()` removes). */
  predicate IsSpace(c: char)
  {
    || c == ' ' || '\t' <= c <= '\r' || '\U{1c}' <= c <= '\U{1f}'
    || c == '\U{85}' || c == '\U{a0}' || c == '\U{1680}' || '\U{2000}' <= c <= '\U{200a}'
    || c == '\U{2028}' || c == '\U{2029}' || c == '\U{202f}' || c == '\U{205f}' || c == '\U{3000}'
  }

  predicate AllDigits(s: string) { forall i :: 0 <= i < |s| ==> IsDigit(s[i]) }

  predicate AllLetters(s: string) { forall i :: 0 <= i < |s| ==> IsLetter(s[i]) }

  /** Python's `s.isalpha()`: non-empty and made of letters only. */
  predicate IsAlpha(s: string) { |s| > 0 && AllLetters(s) }

  /** Python's `not s or not s.strip()`. */
  predicate IsBlank(s: string) { forall i :: 0 <= i < |s| ==> IsSpace(s[i]) }

  function StripLeft(s: string): (r: string)
    ensures |r| <= |s| && r == s[|s| - |r|..]
    ensures forall i :: 0 <= i < |s| - |r| ==> IsSpace(s[i])
    ensures r == [] || !IsSpace(r[0])
  {
    if s != [] && IsSpace(s[0]) then StripLeft(s[1..]) else s
  }

  function StripRight(s: string): (r: string)
    ensures |r| <= |s| && r == s[..|r|]
    ensures forall i :: |r| <= i < |s| ==> IsSpace(s[i])
    ensures r == [] || !IsSpace(r[|r| - 1])
  {
    if s != [] && IsSpace(s[|s| - 1]) then StripRight(s[..|s| - 1]) else s
  }

  /** Python's `s.strip()`: the slice left after removing leading and trailing whitespace. */
  function Strip(s: string): (r: string)
    ensures exists i, j ::
              (&& 0 <= i <= j <= |s| && r == s[i..j]
               && (forall k :: 0 <= k < i ==> IsSpace(s[k]))
               && (forall k :: j <= k < |s| ==> IsSpace(s[k])))
    ensures r == [] || (!IsSpace(r[0]) && !IsSpace(r[|r| - 1]))
  {
    var l := StripLeft(s);
    var r := StripRight(l);
    assert r == s[|s| - |l|..|s| - |l| + |r|];
    r
  }

  lemma {:induction false} StripEmptyIffBlank(s: string)
    ensures Strip(s) == [] <==> IsBlank(s)
  {
    var r := Strip(s);
    var i, j :|
      && 0 <= i <= j <= |s| && r == s[i..j]
      && (forall k :: 0 <= k < i ==> IsSpace(s[k]))
      && (forall k :: j <= k < |s| ==> IsSpace(s[k]));
    if r != [] {
      assert !IsSpace(s[i]);
    }
    if r == [] {
      assert i == j;
    }
  }

  /** A string with no surrounding whitespace is its own strip. */
  lemma StripOfStripped(s: string)
    requires s != [] && !IsSpace(s[0]) && !IsSpace(s[|s| - 1])
    ensures Strip(s) == s
  {
  }

  function ToUpper(c: char): char
  {
    if 'a' <= c <= 'z' then (c as int - 32) as char else c
  }

  function ToLower(c: char): char
  {
    if 'A' <= c <= 'Z' then (c as int + 32) as char else c
  }

  /** Python's `s.upper()` on ASCII text. */
  function Upper(s: string): (r: string)
    ensures |r| == |s| && forall i :: 0 <= i < |s| ==> r[i] == ToUpper(s[i])
  {
    seq(|s|, i requires 0 <= i < |s| => ToUpper(s[i]))
  }

  /** Python's `s.lower()` on ASCII text. */
  function Lower(s: string): (r: string)
    ensures |r| == |s| && forall i :: 0 <= i < |s| ==> r[i] == ToLower(s[i])
  {
    seq(|s|, i requires 0 <= i < |s| => ToLower(s[i]))
  }

  /** `''.join(parts)`. */
  function Join(parts: seq<string>): string
  {
    if parts == [] then "" else parts[0] + Join(parts[1..])
  }

  lemma {:induction false} JoinMember(parts: seq<string>, c: char)
    ensures c in Join(parts) <==> exists k :: 0 <= k < |parts| && c in parts[k]
  {
    if parts != [] {
      JoinMember(parts[1..], c);
      if c in Join(parts[1..]) {
        var k :| 0 <= k < |parts[1..]| && c in parts[1..][k];
        assert c in parts[k + 1];
      }
      if exists k :: 0 <= k < |parts| && c in parts[k] {
        var k :| 0 <= k < |parts| && c in parts[k];
        if k > 0 {
          assert c in parts[1..][k - 1];
        }
      }
    }
  }

  function DigitValue(c: char): nat
    requires IsDigit(c)
  {
    c as int - '0' as int
  }

  /** `int(s)` for a string of ASCII digits (leading zeros allowed). */
  function DigitsValue(s: string): nat
    requires AllDigits(s)
  {
    if s == [] then 0 else 10 * DigitsValue(s[..|s| - 1]) + DigitValue(s[|s| - 1])
  }

  /** `str(n)`: the decimal rendering of `n`. */
  function NatToDigits(n: nat): (r: string)
    ensures |r| > 0 && AllDigits(r)
  {
    if n < 10 then [('0' as int + n) as char] else NatToDigits(n / 10) + [('0' as int + n % 10) as char]
  }

  lemma {:induction false} DigitsRoundTrip(n: nat)
    ensures DigitsValue(NatToDigits(n)) == n
  {
    var r := NatToDigits(n);
    if n >= 10 {
      DigitsRoundTrip(n / 10);
      assert r[..|r| - 1] == NatToDigits(n / 10);
    }
  }

  /** Python's `a <= b` on strings: lexicographic by code point, a proper prefix first. */
  predicate StrLessEq(a: string, b: string)
  {
    a == [] || (b != [] && (a[0] < b[0] || (a[0] == b[0] && StrLessEq(a[1..], b[1..]))))
  }

  lemma {:induction false} StrLessEqTotal(a: string, b: string)
    ensures StrLessEq(a, b) || StrLessEq(b, a)
  {
    if a != [] && b != [] && a[0] == b[0] {
      StrLessEqTotal(a[1..], b[1..]);
    }
  }

  lemma {:induction false} StrLessEqAntisymmetric(a: string, b: string)
    requires StrLessEq(a, b) && StrLessEq(b, a)
    ensures a == b
  {
    if a != [] && b != [] {
      StrLessEqAntisymmetric(a[1..], b[1..]);
      assert a == [a[0]] + a[1..] && b == [b[0]] + b[1..];
    }
  }

  lemma {:induction false} StrLessEqTransitive(a: string, b: string, c: string)
    requires StrLessEq(a, b) && StrLessEq(b, c)
    ensures StrLessEq(a, c)
  {
    if a != [] && b != [] && c != [] && a[0] == b[0] == c[0] {
      StrLessEqTransitive(a[1..], b[1..], c[1..]);
    }
  }

  /** The runs of `itertools.groupby(s, key)`: maximal non-empty slices on which `key` is constant. */
  function Runs(s: string, key: char -> bool): (r: seq<string>)
    ensures s != [] ==> r != [] && r[0] != [] && r[0][0] == s[0]
    ensures s == [] ==> r == []
    ensures forall k :: 0 <= k < |r| ==> r[k] != []
  {
    if s == [] then [] else Cons(s[0], Runs(s[1..], key), key)
  }

  /** Puts `c` in front of the runs `rest`: it joins the first run when the key agrees. */
  function Cons(c: char, rest: seq<string>, key: char -> bool): seq<string>
  {
    if rest != [] && rest[0] != [] && key(rest[0][0]) == key(c) then [[c] + rest[0]] + rest[1..]
    else [[c]] + rest
  }

  lemma ConsAppend(c: char, r1: seq<string>, r2: seq<string>, key: char -> bool)
    requires r1 != []
    ensures Cons(c, r1 + r2, key) == Cons(c, r1, key) + r2
  {
    var r := r1 + r2;
    assert r[0] == r1[0] && r[1..] == r1[1..] + r2;
    if r1[0] != [] && key(r1[0][0]) == key(c) {
      assert Cons(c, r, key) == [[c] + r1[0]] + (r1[1..] + r2);
      assert Cons(c, r1, key) == [[c] + r1[0]] + r1[1..];
    } else {
      assert Cons(c, r, key) == [[c]] + (r1 + r2);
      assert Cons(c, r1, key) == [[c]] + r1;
    }
  }

  /** `key` takes one value on all of `s`. */
  predicate Uniform(s: string, key: char -> bool)
  {
    forall i :: 0 <= i < |s| ==> key(s[i]) == key(s[0])
  }

  /** The runs of `groupby` partition the string into maximal uniform pieces. */
  lemma RunsPartition(s: string, key: char -> bool)
    ensures Join(Runs(s, key)) == s
    ensures forall k :: 0 <= k < |Runs(s, key)| ==> Runs(s, key)[k] != [] && Uniform(Runs(s, key)[k], key)
    ensures forall k :: 0 < k < |Runs(s, key)| ==> key(Runs(s, key)[k - 1][0]) != key(Runs(s, key)[k][0])
  {
    RunsJoin(s, key);
    RunsUniform(s, key);
    RunsAlternate(s, key);
  }

  lemma {:induction false} RunsJoin(s: string, key: char -> bool)
    ensures Join(Runs(s, key)) == s
  {
    if s != [] {
      RunsJoin(s[1..], key);
      var rest := Runs(s[1..], key);
      var r := Runs(s, key);
      assert s == [s[0]] + s[1..];
      if rest != [] && rest[0] != [] && key(rest[0][0]) == key(s[0]) {
        assert r == [[s[0]] + rest[0]] + rest[1..];
        assert Join(r) == ([s[0]] + rest[0]) + Join(rest[1..]);
        assert Join(rest) == rest[0] + Join(rest[1..]);
      } else {
        assert r == [[s[0]]] + rest;
        assert Join(r) == [s[0]] + Join(rest);
      }
    }
  }

  lemma {:induction false} RunsUniform(s: string, key: char -> bool)
    ensures forall k :: 0 <= k < |Runs(s, key)| ==> Runs(s, key)[k] != [] && Uniform(Runs(s, key)[k], key)
  {
    if s != [] {
      RunsUniform(s[1..], key);
      var rest := Runs(s[1..], key);
      var r := Runs(s, key);
      if rest != [] && rest[0] != [] && key(rest[0][0]) == key(s[0]) {
        assert r == [[s[0]] + rest[0]] + rest[1..];
        forall k | 0 <= k < |r|
          ensures r[k] != [] && Uniform(r[k], key)
        {
          if k > 0 {
            assert r[k] == rest[k];
          } else {
            var h := [s[0]] + rest[0];
            assert Uniform(rest[0], key);
            forall i | 0 <= i < |h|
              ensures key(h[i]) == key(h[0])
            {
              if i > 0 {
                assert h[i] == rest[0][i - 1];
              }
            }
          }
        }
      } else {
        assert r == [[s[0]]] + rest;
        forall k | 0 <= k < |r|
          ensures r[k] != [] && Uniform(r[k], key)
        {
          if k > 0 {
            assert r[k] == rest[k - 1];
          }
        }
      }
    }
  }

  lemma {:induction false} RunsAlternate(s: string, key: char -> bool)
    ensures forall k :: 0 < k < |Runs(s, key)| ==> key(Runs(s, key)[k - 1][0]) != key(Runs(s, key)[k][0])
  {
    if s != [] {
      RunsAlternate(s[1..], key);
      var rest := Runs(s[1..], key);
      var r := Runs(s, key);
      if rest != [] && rest[0] != [] && key(rest[0][0]) == key(s[0]) {
        assert r == [[s[0]] + rest[0]] + rest[1..];
        forall k | 0 < k < |r|
          ensures key(r[k - 1][0]) != key(r[k][0])
        {
          if k > 1 {
            assert r[k - 1] == rest[k - 1] && r[k] == rest[k];
          } else {
            assert r[0][0] == s[0] && r[1] == rest[1];
          }
        }
      } else {
        assert r == [[s[0]]] + rest;
        forall k | 0 < k < |r|
          ensures key(r[k - 1][0]) != key(r[k][0])
        {
          if k > 1 {
            assert r[k - 1] == rest[k - 2] && r[k] == rest[k - 1];
          } else {
            assert r[0][0] == s[0] && r[1] == rest[0];
          }
        }
      }
    }
  }

  /** A non-empty string on which `key` is constant is a single run. */
  lemma {:induction false} RunsOfUniform(s: string, key: char -> bool)
    requires s != [] && Uniform(s, key)
    ensures Runs(s, key) == [s]
  {
    if |s| > 1 {
      assert Uniform(s[1..], key) by {
        forall i | 0 <= i < |s[1..]| ensures key(s[1..][i]) == key(s[1..][0]) {
          assert s[1..][i] == s[i + 1];
        }
      }
      RunsOfUniform(s[1..], key);
      var rest := Runs(s[1..], key);
      assert rest == [s[1..]] && rest[0][0] == s[1];
      assert rest[1..] == [];
      assert [s[0]] + s[1..] == s;
    } else {
      assert [s[0]] == s;
    }
  }

  /** `groupby` over a concatenation splits at the seam when the key changes there. */
  lemma {:induction false} RunsAppend(a: string, b: string, key: char -> bool)
    requires a != [] && b != [] && key(a[|a| - 1]) != key(b[0])
    ensures Runs(a + b, key) == Runs(a, key) + Runs(b, key)
  {
    var ab := a + b;
    assert ab != [] && ab[0] == a[0] && ab[1..] == a[1..] + b;
    if |a| == 1 {
      assert ab[1..] == b;
      assert Runs(a, key) == [[a[0]]];
    } else {
      RunsAppend(a[1..], b, key);
      ConsAppend(a[0], Runs(a[1..], key), Runs(b, key), key);
    }
  }

  /** The last run starts with a character whose key is that of the last character. */
  lemma {:induction false} RunsLast(s: string, key: char -> bool)
    requires s != []
    ensures var r := Runs(s, key); r != [] && r[|r| - 1] != [] && key(r[|r| - 1][0]) == key(s[|s| - 1])
  {
    if |s| > 1 {
      var t := s[1..];
      RunsLast(t, key);
      assert t[|t| - 1] == s[|s| - 1];
      assert Runs(s, key) == Cons(s[0], Runs(t, key), key);
      ConsLast(s[0], Runs(t, key), key);
    } else {
      assert Runs(s[1..], key) == [];
      assert Runs(s, key) == [[s[0]]];
    }
  }

  /** Putting a character in front keeps the key of the last run. */
  lemma ConsLast(c: char, rest: seq<string>, key: char -> bool)
    requires rest != [] && rest[0] != [] && rest[|rest| - 1] != []
    ensures var r := Cons(c, rest, key); r != [] && r[|r| - 1] != [] && key(r[|r| - 1][0]) == key(rest[|rest| - 1][0])
  {
    var r := Cons(c, rest, key);
    if key(rest[0][0]) == key(c) {
      assert r == [[c] + rest[0]] + rest[1..];
      if |rest| > 1 {
        assert r[|r| - 1] == rest[|rest| - 1];
      } else {
        assert r[|r| - 1][0] == c;
      }
    } else {
      assert r == [[c]] + rest;
      assert r[|r| - 1] == rest[|rest| - 1];
    }
  }

  /** Putting a character in front commutes with extending the last run. */
  lemma ConsMerge(c: char, r: seq<string>, x: string, y: seq<string>, key: char -> bool)
    requires r != [] && r[0] != [] && r[|r| - 1] != []
    ensures var m := r[..|r| - 1] + [r[|r| - 1] + x] + y;
            var cr := Cons(c, r, key);
            cr != [] && Cons(c, m, key) == cr[..|cr| - 1] + [cr[|cr| - 1] + x] + y
  {
    if |r| > 1 {
      ConsMergeLong(c, r, x, y, key);
    } else {
      ConsMergeSingle(c, r, x, y, key);
    }
  }

  lemma ConsMergeLong(c: char, r: seq<string>, x: string, y: seq<string>, key: char -> bool)
    requires |r| > 1 && r[0] != [] && r[|r| - 1] != []
    ensures var m := r[..|r| - 1] + [r[|r| - 1] + x] + y;
            var cr := Cons(c, r, key);
            cr != [] && Cons(c, m, key) == cr[..|cr| - 1] + [cr[|cr| - 1] + x] + y
  {
    var m := r[..|r| - 1] + [r[|r| - 1] + x] + y;
    var cr := Cons(c, r, key);
    var joins := key(r[0][0]) == key(c);
    assert m[0] == r[0] && m[1..] == r[1..|r| - 1] + [r[|r| - 1] + x] + y;
    if joins {
      assert Cons(c, m, key) == [[c] + r[0]] + m[1..];
      assert cr == [[c] + r[0]] + r[1..];
      assert cr[..|cr| - 1] == [[c] + r[0]] + r[1..|r| - 1];
    } else {
      assert Cons(c, m, key) == [[c]] + m;
      assert cr == [[c]] + r;
      assert cr[..|cr| - 1] == [[c]] + r[..|r| - 1];
    }
  }

  lemma ConsMergeSingle(c: char, r: seq<string>, x: string, y: seq<string>, key: char -> bool)
    requires |r| == 1 && r[0] != []
    ensures var m := r[..|r| - 1] + [r[|r| - 1] + x] + y;
            var cr := Cons(c, r, key);
            cr != [] && Cons(c, m, key) == cr[..|cr| - 1] + [cr[|cr| - 1] + x] + y
  {
    var w := r[0];
    var m := r[..|r| - 1] + [r[|r| - 1] + x] + y;
    assert r == [w] && r[..|r| - 1] == [];
    assert m == [w + x] + y;
    var cr := Cons(c, r, key);
    ConsOneRun(c, w, x, y, key);
    if key(w[0]) == key(c) {
      assert cr[..|cr| - 1] == [] && cr[|cr| - 1] == [c] + w;
    } else {
      assert cr[..|cr| - 1] == [[c]] && cr[|cr| - 1] == w;
    }
  }

  lemma ConsOneRun(c: char, w: string, x: string, y: seq<string>, key: char -> bool)
    requires w != []
    ensures key(w[0]) == key(c) ==> Cons(c, [w], key) == [[c] + w] && Cons(c, [w + x] + y, key) == [[c] + w + x] + y
    ensures key(w[0]) != key(c) ==> Cons(c, [w], key) == [[c], w] && Cons(c, [w + x] + y, key) == [[c], w + x] + y
  {
    var m := [w + x] + y;
    assert m[0] == w + x && m[1..] == y && m[0][0] == w[0];
    assert [c] + (w + x) == [c] + w + x;
  }

  /** `groupby` over a concatenation joins the two runs at the seam when the key agrees there. */
  lemma {:induction false} RunsMerge(s: string, t: string, key: char -> bool)
    requires s != [] && t != [] && key(s[|s| - 1]) == key(t[0])
    ensures var rs := Runs(s, key);
            rs != [] && Runs(s + t, key) == rs[..|rs| - 1] + [rs[|rs| - 1] + Runs(t, key)[0]] + Runs(t, key)[1..]
  {
    var st := s + t;
    assert st[0] == s[0] && st[1..] == s[1..] + t;
    var rt := Runs(t, key);
    if |s| == 1 {
      assert st[1..] == t;
      assert Runs(s, key) == [[s[0]]];
      assert [s[0]] + rt[0] == [[s[0]]][0] + rt[0];
    } else {
      RunsMerge(s[1..], t, key);
      var r := Runs(s[1..], key);
      RunsLast(s[1..], key);
      ConsMerge(s[0], r, rt[0], rt[1..], key);
    }
  }
}
