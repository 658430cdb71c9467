/** `splitByBoundary` of services/mockApi.ts: cutting the input text into the
    segments the packer works on. The two regular expressions of the source are
    replaced by scanners that behave as the JavaScript regex engine does on them:
    `text.match(/[^.!?]+[.!?]*\s*\/g)` for sentences and
    `text.split(/(\r\n|\n){2,}/)` for paragraphs. */
module Segmenter {
  import opened Common
  import opened Strings
  import opened Types

  predicate IsTerminator(c: char)
  {
    c == '.' || c == '!' || c == '?'
  }

  predicate NotTerminator(c: char)
  {
    !IsTerminator(c)
  }

  // ---------------------------------------------------------------------------
  // Sentences

  /** m splits at a and b into a non-empty run of non-terminators, a run of
      terminators and a run of whitespace: one match of `[^.!?]+[.!?]*\s*`. */
  predicate SentenceSplit(m: string, a: int, b: int)
  {
    && 0 < a <= b <= |m|
    && (forall i :: 0 <= i < a ==> !IsTerminator(m[i]))
    && (forall i :: a <= i < b ==> IsTerminator(m[i]))
    && (forall i :: b <= i < |m| ==> IsSpace(m[i]))
  }

  ghost predicate IsSentence(m: string)
  {
    exists a, b :: SentenceSplit(m, a, b)
  }

  /** Length of the match of `[^.!?]+[.!?]*\s*` at the start of s. Every quantifier is
      greedy and nothing follows that could fail, so the first attempt is the match. */
  function SentenceMatchLength(s: string): (n: nat)
    requires s != [] && !IsTerminator(s[0])
    ensures 0 < n <= |s|
    ensures IsSentence(s[..n])
    ensures forall m :: n < m <= |s| ==> !IsSentence(s[..m])
  {
    var a := Span(s, NotTerminator);
    var rest := s[a..];
    var b := Span(rest, IsTerminator);
    var tail := s[a + b..];
    var w := Span(tail, IsSpace);
    SentenceRuns(s, a, rest, b, tail, w);
    a + b + w
  }

  /** The three greedy runs make a sentence-shaped prefix, and the longest one. */
  lemma SentenceRuns(s: string, a: nat, rest: string, b: nat, tail: string, w: nat)
    requires 0 < a && a + b + w <= |s| && rest == s[a..] && tail == s[a + b..]
    requires (forall i :: 0 <= i < a ==> NotTerminator(s[i])) && (a == |s| || !NotTerminator(s[a]))
    requires forall i :: 0 <= i < b ==> IsTerminator(rest[i])
    requires a + b == |s| || !IsTerminator(rest[b])
    requires forall i :: 0 <= i < w ==> IsSpace(tail[i])
    requires a + b + w == |s| || !IsSpace(tail[w])
    ensures IsSentence(s[..a + b + w])
    ensures forall m :: a + b + w < m <= |s| ==> !IsSentence(s[..m])
  {
    forall i | a <= i < a + b ensures IsTerminator(s[i]) {
      assert rest[i - a] == s[i];
    }
    forall i | a + b <= i < a + b + w ensures IsSpace(s[i]) {
      assert tail[i - a - b] == s[i];
    }
    assert a + b < |s| ==> !IsTerminator(s[a + b]) by {
      if a + b < |s| { assert rest[b] == s[a + b]; }
    }
    assert a + b + w < |s| ==> !IsSpace(s[a + b + w]) by {
      if a + b + w < |s| { assert tail[w] == s[a + b + w]; }
    }
    SentenceShape(s, a, a + b, a + b + w);
    SentenceLongest(s, a, a + b, a + b + w);
  }

  /** Three runs of the right kinds make a sentence-shaped prefix. */
  lemma SentenceShape(s: string, a: nat, b: nat, n: nat)
    requires 0 < a <= b <= n <= |s|
    requires forall i :: 0 <= i < a ==> !IsTerminator(s[i])
    requires forall i :: a <= i < b ==> IsTerminator(s[i])
    requires forall i :: b <= i < n ==> IsSpace(s[i])
    ensures IsSentence(s[..n])
  {
    assert SentenceSplit(s[..n], a, b);
  }

  /** A match whose three runs are each as long as they can be is the longest prefix of
      the sentence shape. */
  lemma SentenceLongest(s: string, a: nat, b: nat, n: nat)
    requires 0 < a <= b <= n <= |s|
    requires (forall i :: 0 <= i < a ==> !IsTerminator(s[i])) && (a == |s| || IsTerminator(s[a]))
    requires (forall i :: a <= i < b ==> IsTerminator(s[i])) && (b == |s| || !IsTerminator(s[b]))
    requires (forall i :: b <= i < n ==> IsSpace(s[i])) && (n == |s| || !IsSpace(s[n]))
    ensures forall m :: n < m <= |s| ==> !IsSentence(s[..m])
  {
    forall m, a', b' | n < m <= |s| ensures !SentenceSplit(s[..m], a', b') {
      var t := s[..m];
      if 0 < a' <= b' <= m {
        if a' > a {
          assert IsTerminator(t[a]);
        } else if a' < a {
          if a' < b' {
            assert !IsTerminator(t[a']);
          } else {
            assert IsTerminator(t[a]) && !IsSpace(t[a]);
          }
        } else if b' > b {
          assert !IsTerminator(t[b]);
        } else if b' < b {
          assert IsTerminator(t[b']) && !IsSpace(t[b']);
        } else {
          assert !IsSpace(t[n]);
        }
      }
    }
  }

  /** The list `text.match(/[^.!?]+[.!?]*\s*\/g)` returns (empty where the source gets null).
      A match attempt fails exactly at a terminator; the engine then moves one character on. */
  function SentenceMatches(s: string): (ms: seq<string>)
    ensures forall k :: 0 <= k < |ms| ==> IsSentence(ms[k])
    decreases |s|
  {
    if s == [] then []
    else if IsTerminator(s[0]) then SentenceMatches(s[1..])
    else
      var n := SentenceMatchLength(s);
      [s[..n]] + SentenceMatches(s[n..])
  }

  /** Where a prefix has the sentence shape, the engine takes the longest such prefix as the
      match and goes on after it. */
  lemma SentenceMatchesLongest(s: string, n: nat)
    requires 0 < n <= |s| && IsSentence(s[..n])
    requires forall m :: n < m <= |s| ==> !IsSentence(s[..m])
    ensures SentenceMatches(s) == [s[..n]] + SentenceMatches(s[n..])
  {
    var a, b :| SentenceSplit(s[..n], a, b);
    assert !IsTerminator(s[0]) by {
      assert s[..n][0] == s[0];
    }
    assert SentenceMatchLength(s) == n;
  }

  /** Where no prefix has the sentence shape, the match attempt fails and the engine moves
      one character on. */
  lemma SentenceMatchesSkip(s: string)
    requires s != [] && forall m :: 0 < m <= |s| ==> !IsSentence(s[..m])
    ensures SentenceMatches(s) == SentenceMatches(s[1..])
  {
    var t := s[..1];
    assert !IsSentence(t);
    assert !SentenceSplit(t, 1, 1);
    assert t[0] == s[0];
    assert IsTerminator(s[0]);
  }

  /** r is t with some characters satisfying drop deleted and nothing else changed. */
  ghost predicate Erases(t: string, r: string, drop: char -> bool)
    decreases |t|
  {
    if t == [] then r == []
    else
      || (r != [] && r[0] == t[0] && Erases(t[1..], r[1..], drop))
      || (drop(t[0]) && Erases(t[1..], r, drop))
  }

  lemma {:induction false} ErasesNothing(t: string, drop: char -> bool)
    ensures Erases(t, t, drop)
    decreases |t|
  {
    if t != [] {
      ErasesNothing(t[1..], drop);
    }
  }

  lemma {:induction false} ErasesCommonPrefix(u: string, v: string, w: string, drop: char -> bool)
    requires Erases(v, w, drop)
    ensures Erases(u + v, u + w, drop)
    decreases |u|
  {
    if u != [] {
      assert (u + v)[1..] == u[1..] + v;
      assert (u + w)[1..] == u[1..] + w;
      ErasesCommonPrefix(u[1..], v, w, drop);
    } else {
      assert u + v == v && u + w == w;
    }
  }

  /** Deleting twice is deleting once. */
  lemma {:induction false} ErasesTrans(t: string, r: string, u: string, drop: char -> bool)
    requires Erases(t, r, drop) && Erases(r, u, drop)
    ensures Erases(t, u, drop)
    decreases |t|
  {
    if t != [] {
      if r != [] && r[0] == t[0] && Erases(t[1..], r[1..], drop) {
        if u != [] && u[0] == r[0] && Erases(r[1..], u[1..], drop) {
          ErasesTrans(t[1..], r[1..], u[1..], drop);
        } else {
          ErasesTrans(t[1..], r[1..], u, drop);
        }
      } else {
        ErasesTrans(t[1..], r, u, drop);
      }
    }
  }

  /** A prefix made only of droppable characters may be deleted whole. */
  lemma {:induction false} ErasesDroppedPrefix(u: string, v: string, w: string, drop: char -> bool)
    requires forall i :: 0 <= i < |u| ==> drop(u[i])
    requires Erases(v, w, drop)
    ensures Erases(u + v, w, drop)
    decreases |u|
  {
    if u != [] {
      assert (u + v)[0] == u[0];
      assert (u + v)[1..] == u[1..] + v;
      ErasesDroppedPrefix(u[1..], v, w, drop);
    } else {
      assert u + v == v;
    }
  }

  /** The sentence segments, put back together, give the text with only some
      `.`, `!` or `?` characters missing: those the engine skipped where a match could not start. */
  lemma {:induction false} SentenceMatchesErase(s: string)
    ensures Erases(s, Concat(SentenceMatches(s)), IsTerminator)
    decreases |s|
  {
    if s != [] {
      if IsTerminator(s[0]) {
        SentenceMatchesErase(s[1..]);
      } else {
        var n := SentenceMatchLength(s);
        SentenceMatchesErase(s[n..]);
        ErasesCommonPrefix(s[..n], s[n..], Concat(SentenceMatches(s[n..])), IsTerminator);
        assert s[..n] + s[n..] == s;
      }
    }
  }

  /** There is no sentence match at all exactly when the text consists of terminators only
      (the empty text included); `splitByBoundary` then falls back to the whole text. */
  lemma {:induction false} NoSentenceMatch(s: string)
    ensures SentenceMatches(s) == [] <==> forall i :: 0 <= i < |s| ==> IsTerminator(s[i])
    decreases |s|
  {
    if s != [] {
      if IsTerminator(s[0]) {
        NoSentenceMatch(s[1..]);
        assert forall i :: 1 <= i < |s| ==> s[i] == s[1..][i - 1];
      }
    }
  }

  // ---------------------------------------------------------------------------
  // Paragraphs

  /** Length of the line break (`\r\n` or `\n`, tried in that order) at the start of s, or 0. */
  function BreakAt(s: string): nat
  {
    if |s| >= 2 && s[0] == '\r' && s[1] == '\n' then 2
    else if |s| >= 1 && s[0] == '\n' then 1
    else 0
  }

  /** The greedy run `(\r\n|\n)*` at the start of s: how many breaks, how long, and the last
      break (the value the capture group holds after the run). */
  datatype BreakRunInfo = BreakRunInfo(count: nat, length: nat, last: string)

  function BreakRun(s: string): (r: BreakRunInfo)
    ensures r.length <= |s|
    ensures r.count == 0 <==> r.length == 0
    ensures r.count > 0 ==> r.last == "\n" || r.last == "\r\n"
    ensures forall i :: 0 <= i < r.length ==> s[i] == '\r' || s[i] == '\n'
    decreases |s|
  {
    var k := BreakAt(s);
    if k == 0 then BreakRunInfo(0, 0, "")
    else
      var rest := BreakRun(s[k..]);
      assert forall i :: k <= i < k + rest.length ==> s[i] == s[k..][i - k];
      BreakRunInfo(rest.count + 1, rest.length + k, if rest.count == 0 then s[..k] else rest.last)
  }

  /** `s.split(/(\r\n|\n){2,}/)` as the ECMAScript split algorithm computes it: the piece
      started at p is closed at the first q where the separator matches, and the captured
      last break is emitted after it. */
  function SplitOnBlankLines(s: string, p: nat, q: nat): seq<string>
    requires p <= q <= |s|
    decreases |s| - q
  {
    if q == |s| then [s[p..]]
    else
      var run := BreakRun(s[q..]);
      if run.count < 2 then SplitOnBlankLines(s, p, q + 1)
      else [s[p..q], run.last] + SplitOnBlankLines(s, q + run.length, q + run.length)
  }

  /** The `filter(p => p.trim() !== '')` test. */
  predicate NonBlank(p: string)
  {
    Trim(p) != []
  }

  /** `text.split(/(\r\n|\n){2,}/).filter(p => p.trim() !== '')`. */
  function ParagraphSegments(text: string): seq<string>
  {
    Filter(SplitOnBlankLines(text, 0, 0), NonBlank)
  }

  /** Two or more consecutive line breaks begin at offset i of s. */
  predicate BlankLineAt(s: string, i: int)
    requires 0 <= i <= |s|
  {
    BreakRun(s[i..]).count >= 2
  }

  /** s contains no two consecutive line breaks anywhere. */
  predicate NoBlankLine(s: string)
  {
    forall i :: 0 <= i <= |s| ==> !BlankLineAt(s, i)
  }

  predicate AllNoBlankLine(xs: seq<string>)
  {
    forall k :: 0 <= k < |xs| ==> NoBlankLine(xs[k])
  }

  lemma {:induction false} BreakRunGrows(t: string, u: string)
    ensures BreakRun(t).count <= BreakRun(t + u).count
    decreases |t|
  {
    var k := BreakAt(t);
    if k > 0 {
      assert BreakAt(t + u) == k by {
        assert (t + u)[0] == t[0];
        if k == 2 { assert (t + u)[1] == t[1]; }
      }
      assert (t + u)[k..] == t[k..] + u;
      BreakRunGrows(t[k..], u);
    }
  }

  /** A piece that ends where the first blank line begins contains none. */
  lemma PieceNoBlankLine(s: string, p: nat, q: nat)
    requires p <= q <= |s|
    requires forall j :: p <= j < q ==> !BlankLineAt(s, j)
    ensures NoBlankLine(s[p..q])
  {
    var piece := s[p..q];
    forall i | 0 <= i <= |piece| ensures !BlankLineAt(piece, i) {
      if p + i < q {
        assert !BlankLineAt(s, p + i);
        assert piece[i..] + s[q..] == s[p + i..];
        BreakRunGrows(piece[i..], s[q..]);
      }
    }
  }

  lemma SingleBreakNoBlankLine(b: string)
    requires b == "\n" || b == "\r\n"
    ensures NoBlankLine(b)
  {
    assert "\n"[1..] == [];
    assert "\r\n"[1..] == "\n" && "\r\n"[2..] == [];
  }

  lemma {:induction false} SplitPiecesNoBlankLine(s: string, p: nat, q: nat)
    requires p <= q <= |s|
    requires forall j :: p <= j < q ==> !BlankLineAt(s, j)
    ensures AllNoBlankLine(SplitOnBlankLines(s, p, q))
    decreases |s| - q
  {
    if q == |s| {
      PieceNoBlankLine(s, p, q);
      assert s[p..q] == s[p..];
    } else {
      var run := BreakRun(s[q..]);
      if run.count < 2 {
        assert !BlankLineAt(s, q);
        SplitPiecesNoBlankLine(s, p, q + 1);
      } else {
        SplitPiecesNoBlankLine(s, q + run.length, q + run.length);
        SeparatorNoBlankLine(s, p, q);
      }
    }
  }

  /** The piece before a separator at q and the captured break contain no blank line, given
      that the pieces after the separator contain none. */
  lemma SeparatorNoBlankLine(s: string, p: nat, q: nat)
    requires p <= q < |s| && BreakRun(s[q..]).count >= 2
    requires forall j :: p <= j < q ==> !BlankLineAt(s, j)
    requires AllNoBlankLine(SplitOnBlankLines(s, q + BreakRun(s[q..]).length, q + BreakRun(s[q..]).length))
    ensures AllNoBlankLine(SplitOnBlankLines(s, p, q))
  {
    var run := BreakRun(s[q..]);
    var e := q + run.length;
    var rest := SplitOnBlankLines(s, e, e);
    var r := SplitOnBlankLines(s, p, q);
    PieceNoBlankLine(s, p, q);
    SingleBreakNoBlankLine(run.last);
    assert r == [s[p..q], run.last] + rest;
    forall k | 2 <= k < |r| ensures NoBlankLine(r[k]) {
      assert r[k] == rest[k - 2];
    }
  }

  /** Paragraph segments: each has non-whitespace content and none contains two consecutive
      line breaks (separators and whitespace-only pieces are dropped). */
  lemma {:induction false} ParagraphSegmentsShape(text: string)
    ensures var ps := ParagraphSegments(text);
      forall k :: 0 <= k < |ps| ==> !IsBlank(ps[k]) && NoBlankLine(ps[k])
  {
    var raw := SplitOnBlankLines(text, 0, 0);
    SplitPiecesNoBlankLine(text, 0, 0);
    assert forall k :: 0 <= k < |raw| ==> NoBlankLine(raw[k]);
    FilterKeeps(raw, NonBlank, NoBlankLine);
  }

  /** The paragraph segments, put back together, give the text with only some whitespace
      missing: the breaks of each separator but the last, the captured breaks and the
      blank pieces. */
  lemma ParagraphSegmentsErase(text: string)
    ensures Erases(text, Concat(ParagraphSegments(text)), IsSpace)
  {
    var raw := SplitOnBlankLines(text, 0, 0);
    SplitErases(text, 0, 0);
    assert text[0..] == text;
    BlankPiecesErase(raw);
    ErasesTrans(text, Concat(raw), Concat(ParagraphSegments(text)), IsSpace);
  }

  /** The pieces of the split, put back together, give the text with only the breaks of each
      separator but the last missing. */
  lemma {:induction false} SplitErases(s: string, p: nat, q: nat)
    requires p <= q <= |s|
    ensures Erases(s[p..], Concat(SplitOnBlankLines(s, p, q)), IsSpace)
    decreases |s| - q
  {
    if q == |s| {
      var x := s[p..];
      assert SplitOnBlankLines(s, p, q) == [x];
      assert Concat([x]) == x by {
        assert [x][1..] == [];
        assert x + [] == x;
      }
      ErasesNothing(s[p..], IsSpace);
    } else {
      var run := BreakRun(s[q..]);
      if run.count < 2 {
        SplitErases(s, p, q + 1);
        assert SplitOnBlankLines(s, p, q) == SplitOnBlankLines(s, p, q + 1);
      } else {
        var e := q + run.length;
        var tail := Concat(SplitOnBlankLines(s, e, e));
        SplitErases(s, e, e);
        SeparatorConcat(s, p, q);
        SeparatorRunErases(s, p, q, tail);
        assert Concat(SplitOnBlankLines(s, p, q)) == s[p..q] + (run.last + tail);
      }
    }
  }

  /** The pieces at a separator: the piece before it, then its last break. */
  lemma SeparatorConcat(s: string, p: nat, q: nat)
    requires p <= q < |s| && BreakRun(s[q..]).count >= 2
    ensures var run := BreakRun(s[q..]); var e := q + run.length;
      Concat(SplitOnBlankLines(s, p, q)) == s[p..q] + (run.last + Concat(SplitOnBlankLines(s, e, e)))
  {
    var run := BreakRun(s[q..]);
    var e := q + run.length;
    var after := SplitOnBlankLines(s, e, e);
    assert SplitOnBlankLines(s, p, q) == [s[p..q], run.last] + after;
    ConcatPair(s[p..q], run.last, after);
  }

  /** The text from p: the piece, then the separator of which only the last break is kept. */
  lemma SeparatorRunErases(s: string, p: nat, q: nat, tail: string)
    requires p <= q < |s| && BreakRun(s[q..]).count >= 2
    requires Erases(s[q + BreakRun(s[q..]).length..], tail, IsSpace)
    ensures Erases(s[p..], s[p..q] + (BreakRun(s[q..]).last + tail), IsSpace)
  {
    var run := BreakRun(s[q..]);
    var u := s[q..];
    BreakRunLast(u);
    assert u[run.length..] == s[q + run.length..];
    RunErases(u, run.length, run.last, tail);
    ErasesCommonPrefix(s[p..q], u, run.last + tail, IsSpace);
    SliceJoin(s, p, q);
  }

  lemma ConcatPair(a: string, b: string, rest: seq<string>)
    ensures Concat([a, b] + rest) == a + (b + Concat(rest))
  {
    assert ([a, b] + rest)[1..] == [b] + rest;
    assert ([b] + rest)[1..] == rest;
  }

  lemma SliceJoin(s: string, p: nat, q: nat)
    requires p <= q <= |s|
    ensures s[p..q] + s[q..] == s[p..]
  {
    assert s[p..] == s[p..][..q - p] + s[p..][q - p..];
  }

  /** A run of whitespace ending in `last`, followed by text: deleting all of the run but
      `last` is an erasure. */
  lemma RunErases(u: string, n: nat, last: string, tail: string)
    requires |last| <= n <= |u| && u[n - |last|..n] == last
    requires forall i :: 0 <= i < n ==> IsSpace(u[i])
    requires Erases(u[n..], tail, IsSpace)
    ensures Erases(u, last + tail, IsSpace)
  {
    var x := u[..n - |last|];
    assert forall i :: 0 <= i < |x| ==> x[i] == u[i];
    assert u == x + (last + u[n..]) by {
      assert u[..n] == x + last;
      assert u == u[..n] + u[n..];
    }
    ErasesCommonPrefix(last, u[n..], tail, IsSpace);
    ErasesDroppedPrefix(x, last + u[n..], last + tail, IsSpace);
  }

  /** The last break of a run is where the run ends. */
  lemma {:induction false} BreakRunLast(s: string)
    requires BreakRun(s).count > 0
    ensures var r := BreakRun(s); |r.last| <= r.length && s[r.length - |r.last|..r.length] == r.last
    decreases |s|
  {
    var k := BreakAt(s);
    var rest := BreakRun(s[k..]);
    if rest.count > 0 {
      BreakRunLast(s[k..]);
      SliceShift(s, k, rest.length - |rest.last|, rest.length);
    }
  }

  lemma SliceShift(s: string, k: nat, i: nat, j: nat)
    requires k <= |s| && i <= j <= |s| - k
    ensures s[k..][i..j] == s[k + i..k + j]
  {
  }

  /** Dropping the blank pieces of a list drops only whitespace from its concatenation. */
  lemma {:induction false} BlankPiecesErase(xs: seq<string>)
    ensures Erases(Concat(xs), Concat(Filter(xs, NonBlank)), IsSpace)
  {
    if xs == [] {
      ErasesNothing([], IsSpace);
    } else {
      var x, t := xs[0], xs[1..];
      assert xs == [x] + t;
      BlankPiecesErase(t);
      FilterCons(x, t, NonBlank);
      var rest := Filter(t, NonBlank);
      if NonBlank(x) {
        assert Concat([x] + rest) == x + Concat(rest) by {
          assert ([x] + rest)[1..] == rest;
        }
        ErasesCommonPrefix(x, Concat(t), Concat(rest), IsSpace);
      } else {
        assert [] + rest == rest;
        ErasesDroppedPrefix(x, Concat(t), Concat(rest), IsSpace);
      }
    }
  }

  predicate AllBlank(xs: seq<string>)
  {
    forall k :: 0 <= k < |xs| ==> IsBlank(xs[k])
  }

  /** If every piece of the split is blank, so is the text it was cut from. */
  lemma {:induction false} BlankPieces(s: string, p: nat, q: nat)
    requires p <= q <= |s|
    requires AllBlank(SplitOnBlankLines(s, p, q))
    ensures IsBlank(s[p..])
    decreases |s| - q
  {
    var r := SplitOnBlankLines(s, p, q);
    if q == |s| {
      assert r[0] == s[p..];
    } else {
      var run := BreakRun(s[q..]);
      if run.count < 2 {
        BlankPieces(s, p, q + 1);
      } else {
        var e := q + run.length;
        var rest := SplitOnBlankLines(s, e, e);
        assert r == [s[p..q], run.last] + rest;
        assert AllBlank(rest) by {
          forall k | 0 <= k < |rest| ensures IsBlank(rest[k]) { assert rest[k] == r[k + 2]; }
        }
        BlankPieces(s, e, e);
        assert IsBlank(s[p..q]) by { assert r[0] == s[p..q]; }
        forall i | p <= i < |s| ensures IsSpace(s[i]) {
          if i < q {
            assert s[p..q][i - p] == s[i];
          } else if i < e {
            assert s[q..][i - q] == s[i];
          } else {
            assert s[e..][i - e] == s[i];
          }
        }
      }
    }
  }

  /** A text with non-whitespace content has at least one paragraph segment. */
  lemma ParagraphSegmentsExist(text: string)
    requires !IsBlank(text)
    ensures ParagraphSegments(text) != []
  {
    var raw := SplitOnBlankLines(text, 0, 0);
    assert text[0..] == text;
    if ParagraphSegments(text) == [] {
      forall k | 0 <= k < |raw| ensures IsBlank(raw[k]) {
        assert raw[k] !in ParagraphSegments(text);
      }
      BlankPieces(text, 0, 0);
      assert false;
    }
  }

  /** `splitByBoundary(text, boundary)`. */
  function SplitByBoundary(text: string, boundary: Boundary): seq<string>
  {
    match boundary
    case Sentence =>
      var ms := SentenceMatches(text);
      if ms == [] then [text] else ms
    case Paragraph => ParagraphSegments(text)
    case NoBoundary => [text]
  }
}
