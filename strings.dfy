/** The JavaScript string operations the source relies on, over strings as sequences of
    Unicode scalar values (where this differs from JavaScript's UTF-16 code units is listed
    under "Left out" in the README): `\s` and `trim`, `startsWith`/`includes`,
    global literal `replace`, `String(n)`, `padStart`, `repeat` and
    `toLowerCase` (ASCII letters only). */
module Strings {
  import opened Common

  /** JavaScript's WhiteSpace and LineTerminator characters: what `\s` matches and what `trim` removes. */
  predicate IsSpace(c: char)
  {
    || c == ' ' || c == '\t' || c == '\n' || c == '\r' || c == '\U{B}' || c == '\U{C}'
    || c == '\U{A0}' || c == '\U{1680}' || ('\U{2000}' <= c <= '\U{200A}')
    || c == '\U{2028}' || c == '\U{2029}' || c == '\U{202F}' || c == '\U{205F}'
    || c == '\U{3000}' || c == '\U{FEFF}'
  }

  /** Every character of s is whitespace (so `s.trim()` is empty). */
  predicate IsBlank(s: string)
  {
    forall i :: 0 <= i < |s| ==> IsSpace(s[i])
  }

  /** `s.trimStart()`: the suffix of s that begins at its first non-whitespace character. */
  function TrimStart(s: string): (r: string)
    ensures |r| <= |s| && r == s[|s| - |r|..]
    ensures r == [] || !IsSpace(r[0])
    ensures forall i :: 0 <= i < |s| - |r| ==> IsSpace(s[i])
  {
    if s != [] && IsSpace(s[0]) then TrimStart(s[1..]) else s
  }

  /** `s.trimEnd()`: the prefix of s that ends at its last non-whitespace character. */
  function TrimEnd(s: string): (r: string)
    ensures |r| <= |s| && r == s[..|r|]
    ensures r == [] || !IsSpace(r[|r| - 1])
    ensures forall i :: |r| <= i < |s| ==> IsSpace(s[i])
  {
    if s != [] && IsSpace(s[|s| - 1]) then TrimEnd(s[..|s| - 1]) else s
  }

  /** r occurs in s at offset a. */
  predicate SliceAt(s: string, a: int, r: string)
  {
    0 <= a && a + |r| <= |s| && s[a..a + |r|] == r
  }

  /** r occurs in s at offset a with only whitespace before and after it. */
  predicate TrimmedAt(s: string, a: int, r: string)
  {
    SliceAt(s, a, r) && IsBlank(s[..a]) && IsBlank(s[a + |r|..])
  }

  /** `s.trim()`: the slice of s between its first and last non-whitespace characters. */
  function Trim(s: string): (r: string)
    ensures exists a :: SliceAt(s, a, r)
    ensures r == [] <==> IsBlank(s)
    ensures r != [] ==> !IsSpace(r[0]) && !IsSpace(r[|r| - 1])
  {
    var t := TrimStart(s);
    var r := TrimEnd(t);
    assert SliceAt(s, |s| - |t|, r);
    assert r == [] ==> IsBlank(s) by {
      if r == [] {
        forall i | 0 <= i < |s| ensures IsSpace(s[i]) {
        }
      }
    }
    r
  }

  /** `trim` removes whitespace only: what it drops on either side is blank. */
  lemma TrimRemovesWhitespace(s: string)
    ensures TrimmedAt(s, |s| - |TrimStart(s)|, Trim(s))
  {
    var t := TrimStart(s);
    TrimmedParts(s, t, TrimEnd(t));
  }

  lemma TrimmedParts(s: string, t: string, r: string)
    requires |t| <= |s| && t == s[|s| - |t|..] && forall i :: 0 <= i < |s| - |t| ==> IsSpace(s[i])
    requires |r| <= |t| && r == t[..|r|] && forall i :: |r| <= i < |t| ==> IsSpace(t[i])
    ensures TrimmedAt(s, |s| - |t|, r)
  {
    var a := |s| - |t|;
    assert s[a..a + |r|] == r;
    var head := s[..a];
    forall i | 0 <= i < |head| ensures IsSpace(head[i]) {
      assert head[i] == s[i];
    }
    var tail := s[a + |r|..];
    forall i | 0 <= i < |tail| ensures IsSpace(tail[i]) {
      assert tail[i] == t[|r| + i];
    }
  }

  /** Length of the longest prefix of s whose characters all satisfy p (a greedy `[...]*`). */
  function Span(s: string, p: char -> bool): (n: nat)
    ensures n <= |s|
    ensures forall i :: 0 <= i < n ==> p(s[i])
    ensures n == |s| || !p(s[n])
  {
    if s != [] && p(s[0]) then 1 + Span(s[1..], p) else 0
  }

  /** Span is determined by its two defining facts. */
  lemma {:induction false} SpanIs(s: string, p: char -> bool, n: nat)
    requires n <= |s| && (forall i :: 0 <= i < n ==> p(s[i])) && (n == |s| || !p(s[n]))
    ensures Span(s, p) == n
  {
    if n > 0 {
      SpanIs(s[1..], p, n - 1);
    }
  }

  /** s begins with p (`s.startsWith(p)`). */
  predicate StartsWith(s: string, p: string)
  {
    |p| <= |s| && s[..|p|] == p
  }

  /** p occurs in s at offset i. */
  predicate OccursAt(s: string, i: int, p: string)
  {
    0 <= i <= |s| && StartsWith(s[i..], p)
  }

  /** p occurs nowhere in s. */
  predicate FreeOf(s: string, p: string)
  {
    forall i :: 0 <= i <= |s| ==> !OccursAt(s, i, p)
  }

  /** `s.includes(p)`. */
  function Includes(s: string, p: string): (b: bool)
    ensures b <==> exists i :: 0 <= i <= |s| && StartsWith(s[i..], p)
  {
    if StartsWith(s, p) then assert s[0..] == s; true
    else if s == [] then false
    else
      var b := Includes(s[1..], p);
      assert b ==> exists i :: 0 <= i <= |s| && StartsWith(s[i..], p) by {
        if b {
          var i :| 0 <= i <= |s[1..]| && StartsWith(s[1..][i..], p);
          assert s[1..][i..] == s[i + 1..];
        }
      }
      assert (exists i :: 0 <= i <= |s| && StartsWith(s[i..], p)) ==> b by {
        if exists i :: 0 <= i <= |s| && StartsWith(s[i..], p) {
          var i :| 0 <= i <= |s| && StartsWith(s[i..], p);
          assert i != 0;
          assert s[1..][i - 1..] == s[i..];
        }
      }
      b
  }

  /** `s.replace(/pat/g, rep)` for a literal, non-empty pattern and a replacement
      without `$` patterns: the leftmost occurrences, scanning left to right, are replaced. */
  function ReplaceAll(s: string, pat: string, rep: string): string
    requires pat != []
    decreases |s|
  {
    if s == [] then []
    else if StartsWith(s, pat) then rep + ReplaceAll(s[|pat|..], pat, rep)
    else [s[0]] + ReplaceAll(s[1..], pat, rep)
  }

  /** A string without the pattern comes out of ReplaceAll unchanged. */
  lemma {:induction false} ReplaceAllFree(s: string, pat: string, rep: string)
    requires pat != [] && FreeOf(s, pat)
    ensures ReplaceAll(s, pat, rep) == s
    decreases |s|
  {
    if s != [] {
      assert s[0..] == s;
      assert !OccursAt(s, 0, pat);
      assert FreeOf(s[1..], pat) by {
        forall i | 0 <= i <= |s[1..]| ensures !OccursAt(s[1..], i, pat) {
          assert s[1..][i..] == s[i + 1..];
          assert !OccursAt(s, i + 1, pat);
        }
      }
      ReplaceAllFree(s[1..], pat, rep);
    }
  }

  /** A prefix of ReplaceAll(s, pat, rep) that uses no character of rep is a prefix of s. */
  lemma {:induction false} ReplaceAllPrefix(s: string, pat: string, rep: string, u: string)
    requires pat != [] && rep != []
    requires StartsWith(ReplaceAll(s, pat, rep), u)
    requires forall i :: 0 <= i < |u| ==> u[i] !in rep
    ensures StartsWith(s, u)
    decreases |s|
  {
    if u != [] {
      var t := ReplaceAll(s, pat, rep);
      assert s != [];
      if StartsWith(s, pat) {
        ReplacedHead(s, pat, rep, u);
        assert false;
      } else {
        assert t == [s[0]] + ReplaceAll(s[1..], pat, rep);
        assert StartsWith(ReplaceAll(s[1..], pat, rep), u[1..]);
        forall i | 0 <= i < |u[1..]| ensures u[1..][i] !in rep { assert u[1..][i] == u[i + 1]; }
        ReplaceAllPrefix(s[1..], pat, rep, u[1..]);
        assert s[..|u|] == [s[0]] + s[1..][..|u| - 1];
      }
    }
  }

  /** A replaced occurrence puts the replacement first, so a prefix u of the result starts with rep[0]. */
  lemma ReplacedHead(s: string, pat: string, rep: string, u: string)
    requires pat != [] && rep != [] && u != []
    requires StartsWith(s, pat) && StartsWith(ReplaceAll(s, pat, rep), u)
    ensures u[0] in rep
  {
    assert ReplaceAll(s, pat, rep)[0] == rep[0];
  }

  /** After ReplaceAll, the pattern no longer occurs, and neither does any other
      string q that did not occur before; both provided the replacement shares
      no character with q. */
  lemma {:induction false} ReplaceAllRemoves(s: string, pat: string, rep: string, q: string)
    requires pat != [] && rep != [] && q != []
    requires forall i :: 0 <= i < |q| ==> q[i] !in rep
    requires q == pat || FreeOf(s, q)
    ensures FreeOf(ReplaceAll(s, pat, rep), q)
    decreases |s|
  {
    var t := ReplaceAll(s, pat, rep);
    if s == [] {
      forall i | 0 <= i <= |t| ensures !OccursAt(t, i, q) { }
    } else if StartsWith(s, pat) {
      var s' := s[|pat|..];
      assert q != pat ==> FreeOf(s', q) by {
        if q != pat {
          forall i | 0 <= i <= |s'| ensures !OccursAt(s', i, q) {
            assert s'[i..] == s[i + |pat|..];
            assert !OccursAt(s, i + |pat|, q);
          }
        }
      }
      ReplaceAllRemoves(s', pat, rep, q);
      var t' := ReplaceAll(s', pat, rep);
      assert t == rep + t';
      forall i | 0 <= i <= |t| ensures !OccursAt(t, i, q) {
        if i < |rep| {
          assert q[0] !in rep;
          assert t[i..][0] == rep[i];
        } else {
          assert t[i..] == t'[i - |rep|..];
          assert !OccursAt(t', i - |rep|, q);
        }
      }
    } else {
      var s' := s[1..];
      assert q != pat ==> FreeOf(s', q) by {
        if q != pat {
          forall i | 0 <= i <= |s'| ensures !OccursAt(s', i, q) {
            assert s'[i..] == s[i + 1..];
            assert !OccursAt(s, i + 1, q);
          }
        }
      }
      ReplaceAllRemoves(s', pat, rep, q);
      var t' := ReplaceAll(s', pat, rep);
      assert t == [s[0]] + t';
      assert !StartsWith(s, q) by {
        if q != pat { assert s[0..] == s; assert !OccursAt(s, 0, q); }
      }
      forall i | 0 <= i <= |t| ensures !OccursAt(t, i, q) {
        if i == 0 {
          assert t[0..] == t;
          if StartsWith(t, q) {
            ReplaceAllPrefix(s, pat, rep, q);
            assert false;
          }
        } else {
          assert t[i..] == t'[i - 1..];
          assert !OccursAt(t', i - 1, q);
        }
      }
    }
  }

  /** The decimal digit of d. */
  function DigitChar(d: nat): (c: char)
    requires d < 10
    ensures '0' <= c <= '9'
  {
    "0123456789"[d]
  }

  predicate IsDigits(s: string)
  {
    forall i :: 0 <= i < |s| ==> '0' <= s[i] <= '9'
  }

  /** The number written by a string of decimal digits. */
  function DigitsValue(s: string): nat
    requires IsDigits(s)
  {
    if s == [] then 0 else 10 * DigitsValue(s[..|s| - 1]) + (s[|s| - 1] - '0') as nat
  }

  /** `String(n)` for a natural number: its shortest decimal representation. */
  function NatToString(n: nat): (r: string)
    ensures r != []
  {
    if n < 10 then [DigitChar(n)] else NatToString(n / 10) + [DigitChar(n % 10)]
  }

  /** The decimal string of n is made of digits, writes n, and has no leading zero. */
  lemma {:induction false} NatToStringValue(n: nat)
    ensures IsDigits(NatToString(n))
    ensures DigitsValue(NatToString(n)) == n
    ensures |NatToString(n)| > 1 ==> NatToString(n)[0] != '0'
  {
    if n >= 10 {
      var r := NatToString(n);
      var q := NatToString(n / 10);
      assert r == q + [DigitChar(n % 10)];
      assert r[..|r| - 1] == q;
      NatToStringValue(n / 10);
      if |q| == 1 {
        assert q[0] != '0';
      }
    }
  }

  /** Leading zeros do not change the number a digit string writes. */
  lemma {:induction false} LeadingZeros(z: string, s: string)
    requires IsDigits(s) && forall i :: 0 <= i < |z| ==> z[i] == '0'
    ensures IsDigits(z + s) && DigitsValue(z + s) == DigitsValue(s)
    decreases |s|
  {
    if s == [] {
      assert z + s == z;
      Zeros(z);
    } else {
      var t := z + s;
      assert t[..|t| - 1] == z + s[..|s| - 1];
      LeadingZeros(z, s[..|s| - 1]);
    }
  }

  lemma {:induction false} Zeros(z: string)
    requires forall i :: 0 <= i < |z| ==> z[i] == '0'
    ensures IsDigits(z) && DigitsValue(z) == 0
    decreases |z|
  {
    if z != [] {
      Zeros(z[..|z| - 1]);
    }
  }

  /** `String(n).padStart(width, '0')` still writes n. */
  lemma PaddedValue(n: nat, width: nat)
    ensures IsDigits(PadStart(NatToString(n), width, '0'))
    ensures DigitsValue(PadStart(NatToString(n), width, '0')) == n
  {
    var s := NatToString(n);
    var r := PadStart(s, width, '0');
    var z := r[..|r| - |s|];
    assert r == z + s;
    NatToStringValue(n);
    LeadingZeros(z, s);
  }

  /** `String(n)` for an integer. */
  function IntToString(n: int): (r: string)
    ensures n >= 0 ==> r == NatToString(n)
    ensures n < 0 ==> r == "-" + NatToString(-n)
  {
    if n < 0 then "-" + NatToString(-n) else NatToString(n)
  }

  /** `s.repeat(n)`. */
  function Repeat(s: string, n: nat): (r: string)
    ensures |r| == n * |s|
  {
    if n == 0 then [] else s + Repeat(s, n - 1)
  }

  /** `s.padStart(width, [c])`: s preceded by enough copies of c to reach width; never shortened. */
  function PadStart(s: string, width: nat, c: char): (r: string)
    ensures |r| == Max(width, |s|)
    ensures r[|r| - |s|..] == s
    ensures forall i :: 0 <= i < |r| - |s| ==> r[i] == c
  {
    if |s| >= width then s else seq(width - |s|, _ => c) + s
  }

  /** `toLowerCase` restricted to ASCII letters. */
  function LowerChar(c: char): char
  {
    if 'A' <= c <= 'Z' then (c as int + 32) as char else c
  }

  /** `s.toLowerCase()`: each upper-case ASCII letter becomes its lower-case letter, every
      other character stays, and no upper-case ASCII letter is left. */
  function Lower(s: string): (r: string)
    ensures |r| == |s|
    ensures forall i :: 0 <= i < |s| && 'A' <= s[i] <= 'Z' ==> r[i] as int == s[i] as int - 'A' as int + 'a' as int
    ensures forall i :: 0 <= i < |s| && !('A' <= s[i] <= 'Z') ==> r[i] == s[i]
    ensures forall i :: 0 <= i < |r| ==> !('A' <= r[i] <= 'Z')
  {
    seq(|s|, i requires 0 <= i < |s| => LowerChar(s[i]))
  }

  /** Lower-casing twice is lower-casing once. */
  lemma LowerIdempotent(s: string)
    ensures Lower(Lower(s)) == Lower(s)
  {
    var r := Lower(s);
    assert forall i :: 0 <= i < |r| ==> Lower(r)[i] == r[i];
  }
}
