/**
 * Whitespace handling shared by the RAG pipeline: the whitespace class that
 * Python's argument-less `str.split()` and `str.strip()` use, splitting into
 * words, joining with single spaces, the `_normalize` collapse built from the
 * two, ASCII lower-casing and decimal rendering of numbers.
 */
module Text {

  /** The characters for which Python's `str.isspace()` holds. */
  predicate IsSpace(c: char) {
    || c == ' ' || ('\t' <= c <= '\r') || ('\U{1C}' <= c <= '\U{1F}')
    || c == '\U{85}' || c == '\U{A0}' || c == '\U{1680}'
    || ('\U{2000}' <= c <= '\U{200A}') || c == '\U{2028}' || c == '\U{2029}'
    || c == '\U{202F}' || c == '\U{205F}' || c == '\U{3000}'
  }

  /** A word as `str.split()` produces it: non-empty and free of whitespace. */
  predicate IsWord(w: string) {
    w != [] && forall i :: 0 <= i < |w| ==> !IsSpace(w[i])
  }

  /** True when every character is whitespace; this is `not s.strip()`. */
  predicate IsBlank(s: string) {
    forall i :: 0 <= i < |s| ==> IsSpace(s[i])
  }

  /** The shape of `_normalize`'s output: no whitespace at either end, the only
      whitespace character is the plain space, and no two of them touch. */
  predicate IsNormalized(r: string) {
    && (r != [] ==> !IsSpace(r[0]) && !IsSpace(r[|r| - 1]))
    && (forall i :: 0 <= i < |r| && IsSpace(r[i]) ==> r[i] == ' ')
    && (forall i :: 0 <= i < |r| - 1 ==> !(IsSpace(r[i]) && IsSpace(r[i + 1])))
  }

  /** Drops the leading run of whitespace. */
  function DropSpaces(s: string): (r: string)
    ensures |r| <= |s|
    ensures r == [] || !IsSpace(r[0])
  {
    if s == [] || !IsSpace(s[0]) then s else DropSpaces(s[1..])
  }

  /** What `DropSpaces` removes is a run of whitespace at the front. */
  lemma {:induction false} DropSpacesSuffix(s: string)
    ensures DropSpaces(s) == s[|s| - |DropSpaces(s)|..]
    ensures forall i :: 0 <= i < |s| - |DropSpaces(s)| ==> IsSpace(s[i])
    decreases |s|
  {
    if s != [] && IsSpace(s[0]) {
      DropSpacesSuffix(s[1..]);
      assert s[1..][|s[1..]| - |DropSpaces(s)|..] == s[|s| - |DropSpaces(s)|..];
      forall i | 1 <= i < |s| - |DropSpaces(s)| ensures IsSpace(s[i]) {
        assert s[i] == s[1..][i - 1];
      }
    }
  }

  /** Length of the leading run of non-whitespace characters. */
  function WordLen(s: string): (n: nat)
    ensures n <= |s|
  {
    if s == [] || IsSpace(s[0]) then 0 else 1 + WordLen(s[1..])
  }

  /** The run `WordLen` measures is free of whitespace and ends at a space or
      at the end of the string. */
  lemma {:induction false} WordLenRun(s: string)
    ensures forall i :: 0 <= i < WordLen(s) ==> !IsSpace(s[i])
    ensures WordLen(s) == |s| || IsSpace(s[WordLen(s)])
    decreases |s|
  {
    if s != [] && !IsSpace(s[0]) {
      WordLenRun(s[1..]);
      forall i | 1 <= i < WordLen(s) ensures !IsSpace(s[i]) {
        assert s[i] == s[1..][i - 1];
      }
      if WordLen(s) < |s| {
        assert s[WordLen(s)] == s[1..][WordLen(s[1..])];
      }
    }
  }

  /** Python's `s.split()`: the maximal whitespace-free runs, in order. */
  function Words(s: string): seq<string>
    decreases |s|
  {
    var t := DropSpaces(s);
    if t == [] then []
    else
      var n := WordLen(t);
      [t[..n]] + Words(t[n..])
  }

  /** Python's `sep.join(xs)`. */
  function JoinWith(sep: string, xs: seq<string>): string {
    if |xs| == 0 then ""
    else if |xs| == 1 then xs[0]
    else xs[0] + sep + JoinWith(sep, xs[1..])
  }

  /** `_normalize`: every whitespace run becomes one space, the ends are trimmed. */
  function Normalize(s: string): string {
    JoinWith(" ", Words(s))
  }

  predicate AllWords(ws: seq<string>) {
    forall k :: 0 <= k < |ws| ==> IsWord(ws[k])
  }

  /** Every piece `split()` yields is a word. */
  lemma {:induction false} WordsAreWords(s: string)
    ensures AllWords(Words(s))
    decreases |s|
  {
    var t := DropSpaces(s);
    if t != [] {
      var n := WordLen(t);
      WordLenRun(t);
      WordsAreWords(t[n..]);
      assert IsWord(t[..n]);
      assert Words(s) == [t[..n]] + Words(t[n..]);
    }
  }

  /** Leading whitespace does not change the words. */
  lemma DropSpacesWords(s: string)
    ensures Words(DropSpaces(s)) == Words(s)
  {
    var t := DropSpaces(s);
    assert DropSpaces(t) == t;
  }

  /** A word followed by a space (or nothing) is split off as that word. */
  lemma WordThenRest(w: string, rest: string)
    requires IsWord(w)
    requires rest == [] || IsSpace(rest[0])
    ensures Words(w + rest) == [w] + Words(rest)
  {
    var s := w + rest;
    assert DropSpaces(s) == s;
    WordLenOfWord(w, rest);
    assert s[..|w|] == w;
    assert s[|w|..] == rest;
  }

  lemma {:induction false} WordLenOfWord(w: string, rest: string)
    requires forall i :: 0 <= i < |w| ==> !IsSpace(w[i])
    requires rest == [] || IsSpace(rest[0])
    ensures WordLen(w + rest) == |w|
    decreases |w|
  {
    if w != [] {
      assert (w + rest)[1..] == w[1..] + rest;
      WordLenOfWord(w[1..], rest);
    } else {
      assert w + rest == rest;
    }
  }

  /** The join of words starts and ends with a non-space (when non-empty). */
  lemma {:induction false} JoinEnds(ws: seq<string>)
    requires AllWords(ws)
    ensures JoinWith(" ", ws) == [] <==> ws == []
    ensures ws != [] ==> !IsSpace(JoinWith(" ", ws)[0]) && !IsSpace(JoinWith(" ", ws)[|JoinWith(" ", ws)| - 1])
    ensures ws != [] ==> JoinWith(" ", ws)[0] == ws[0][0]
  {
    if |ws| > 1 {
      JoinEnds(ws[1..]);
      assert AllWords(ws[1..]) by {
        forall k | 0 <= k < |ws[1..]| ensures IsWord(ws[1..][k]) { assert ws[1..][k] == ws[k + 1]; }
      }
      var j := JoinWith(" ", ws[1..]);
      assert JoinWith(" ", ws) == ws[0] + " " + j;
      assert JoinWith(" ", ws)[|JoinWith(" ", ws)| - 1] == j[|j| - 1];
      assert JoinWith(" ", ws)[0] == ws[0][0];
    }
  }

  /** A leading space does not change the words. */
  lemma LeadingSpaceWords(x: string)
    ensures Words(" " + x) == Words(x)
  {
    var s := " " + x;
    assert s[1..] == x;
    assert DropSpaces(s) == DropSpaces(x);
    DropSpacesWords(s);
    DropSpacesWords(x);
  }

  lemma JoinCons(sep: string, xs: seq<string>)
    requires |xs| > 1
    ensures JoinWith(sep, xs) == xs[0] + (sep + JoinWith(sep, xs[1..]))
  {
  }

  /** `split()` undoes `" ".join` on words: the round trip of normalisation. */
  lemma {:induction false} WordsOfJoin(ws: seq<string>)
    requires AllWords(ws)
    ensures Words(JoinWith(" ", ws)) == ws
  {
    if |ws| == 1 {
      WordThenRest(ws[0], "");
      assert ws[0] + "" == ws[0];
    } else if |ws| > 1 {
      var tail := ws[1..];
      assert AllWords(tail) by {
        forall k | 0 <= k < |tail| ensures IsWord(tail[k]) { assert tail[k] == ws[k + 1]; }
      }
      var j := JoinWith(" ", tail);
      calc {
        Words(JoinWith(" ", ws));
        { JoinCons(" ", ws); }
        Words(ws[0] + (" " + j));
        { WordThenRest(ws[0], " " + j); }
        [ws[0]] + Words(" " + j);
        { LeadingSpaceWords(j); }
        [ws[0]] + Words(j);
        { WordsOfJoin(tail); }
        [ws[0]] + tail;
      }
    }
  }

  /** The join of words has the normalised shape. */
  lemma {:induction false} JoinIsNormalized(ws: seq<string>)
    requires AllWords(ws)
    ensures IsNormalized(JoinWith(" ", ws))
  {
    JoinEnds(ws);
    if |ws| > 1 {
      var tail := ws[1..];
      assert AllWords(tail) by {
        forall k | 0 <= k < |tail| ensures IsWord(tail[k]) { assert tail[k] == ws[k + 1]; }
      }
      JoinIsNormalized(tail);
      JoinEnds(tail);
      var w, j := ws[0], JoinWith(" ", tail);
      var r := JoinWith(" ", ws);
      assert r == w + " " + j;
      assert IsWord(w);
      forall i | 0 <= i < |r| && IsSpace(r[i]) ensures r[i] == ' ' {
        if i > |w| { assert r[i] == j[i - |w| - 1]; }
      }
      forall i | 0 <= i < |r| - 1 ensures !(IsSpace(r[i]) && IsSpace(r[i + 1])) {
        if i < |w| - 1 {
        } else if i == |w| - 1 {
        } else if i == |w| {
          assert r[i + 1] == j[0];
        } else {
          assert r[i] == j[i - |w| - 1] && r[i + 1] == j[i - |w|];
        }
      }
    }
  }

  /** `_normalize` output has no leading or trailing whitespace and no two
      consecutive spaces. */
  lemma NormalizeIsNormalized(s: string)
    ensures IsNormalized(Normalize(s))
  {
    WordsAreWords(s);
    JoinIsNormalized(Words(s));
  }

  /** Normalising keeps exactly the words of the input, in order. */
  lemma NormalizeKeepsWords(s: string)
    ensures Words(Normalize(s)) == Words(s)
  {
    WordsAreWords(s);
    WordsOfJoin(Words(s));
  }

  /** `_normalize` is idempotent. */
  lemma NormalizeIdempotent(s: string)
    ensures Normalize(Normalize(s)) == Normalize(s)
  {
    NormalizeKeepsWords(s);
  }

  /** A blank string (what `not s.strip()` detects) is one with no words, that
      is one that normalises to the empty string. */
  lemma BlankIffNoWords(s: string)
    ensures IsBlank(s) <==> Words(s) == []
    ensures IsBlank(s) <==> Normalize(s) == ""
  {
    var t := DropSpaces(s);
    DropSpacesSuffix(s);
    if t != [] {
      assert !IsSpace(s[|s| - |t|]);
      WordsAreWords(s);
      JoinEnds(Words(s));
    }
  }

  /** Python `str.lower()` restricted to ASCII letters. */
  function LowerChar(c: char): char {
    if 'A' <= c <= 'Z' then (c as int + 32) as char else c
  }

  function Lower(s: string): (r: string)
    ensures |r| == |s|
    ensures forall i :: 0 <= i < |s| ==> r[i] == LowerChar(s[i])
  {
    seq(|s|, i requires 0 <= i < |s| => LowerChar(s[i]))
  }

  /** Lower-casing twice is lower-casing once. */
  lemma LowerIdempotent(s: string)
    ensures Lower(Lower(s)) == Lower(s)
  {
    forall i | 0 <= i < |s| ensures Lower(Lower(s))[i] == Lower(s)[i] {
      assert Lower(s)[i] == LowerChar(s[i]);
    }
  }

  /** `s.startswith(p)`. */
  predicate StartsWith(s: string, p: string) {
    |p| <= |s| && s[..|p|] == p
  }

  /** `s.endswith(p)`. */
  predicate EndsWith(s: string, p: string) {
    |p| <= |s| && s[|s| - |p|..] == p
  }

  /** `p in s` for strings: `p` occurs at some offset. */
  predicate Contains(s: string, p: string)
    decreases |s|
  {
    StartsWith(s, p) || (s != [] && Contains(s[1..], p))
  }

  predicate IsDigit(c: char) {
    '0' <= c <= '9'
  }

  function DigitChar(d: nat): char
    requires d < 10
  {
    ('0' as int + d) as char
  }

  /** Decimal rendering of a natural number, as `str(n)` or an f-string gives it. */
  function NatToString(n: nat): (r: string)
    ensures r != [] && forall i :: 0 <= i < |r| ==> IsDigit(r[i])
  {
    if n < 10 then [DigitChar(n)] else NatToString(n / 10) + [DigitChar(n % 10)]
  }

  /** The value of a string of decimal digits. */
  function DigitsValue(s: string): nat
    requires forall i :: 0 <= i < |s| ==> IsDigit(s[i])
  {
    if s == [] then 0 else 10 * DigitsValue(s[..|s| - 1]) + DigitValue(s[|s| - 1])
  }

  function DigitValue(c: char): nat
    requires IsDigit(c)
  {
    c as int - '0' as int
  }

  /** Reading back the decimal rendering of `n` gives `n`. */
  lemma {:induction false} DigitsOfNat(n: nat)
    ensures DigitsValue(NatToString(n)) == n
  {
    if n >= 10 {
      var r := NatToString(n);
      assert r[..|r| - 1] == NatToString(n / 10);
      DigitsOfNat(n / 10);
    }
  }

  /** Where `xs[k]` begins inside `sep.join(xs)`. */
  function JoinOffset(sep: string, xs: seq<string>, k: nat): nat
    requires k <= |xs|
  {
    if k == 0 then 0 else |xs[0]| + |sep| + JoinOffset(sep, xs[1..], k - 1)
  }

  /** A slice of the part after `a` in `a + b` is the same slice of `b`. */
  lemma SliceAfter(a: string, b: string, lo: nat, hi: nat)
    requires lo <= hi <= |b|
    ensures (a + b)[|a| + lo..|a| + hi] == b[lo..hi]
  {
  }

  /** True when piece `k` of `xs` occupies `j` from offset `o` on, followed by
      `sep` unless it is the last piece, which ends `j`. */
  predicate PieceAt(j: string, sep: string, xs: seq<string>, k: nat, o: nat)
    requires k < |xs|
  {
    && o + |xs[k]| <= |j|
    && j[o..o + |xs[k]|] == xs[k]
    && (k < |xs| - 1 ==> o + |xs[k]| + |sep| <= |j| && j[o + |xs[k]|..o + |xs[k]| + |sep|] == sep)
    && (k == |xs| - 1 ==> o + |xs[k]| == |j|)
  }

  /** Prefixing `head` shifts where every piece lies by `|head|`. */
  lemma PieceShift(head: string, rest: string, sep: string, xs: seq<string>, k: nat, o: nat)
    requires 0 < k < |xs|
    requires PieceAt(rest, sep, xs[1..], k - 1, o)
    ensures PieceAt(head + rest, sep, xs, k, |head| + o)
  {
    var n := |xs[k]|;
    assert xs[1..][k - 1] == xs[k];
    SliceAfter(head, rest, o, o + n);
    if k < |xs| - 1 {
      SliceAfter(head, rest, o + n, o + n + |sep|);
    }
  }

  /** `sep.join(xs)` lays the pieces out in order: piece `k` sits at its offset
      and is followed by `sep`, except the last, which ends the string. */
  lemma {:induction false} JoinLayout(sep: string, xs: seq<string>, k: nat)
    requires k < |xs|
    ensures PieceAt(JoinWith(sep, xs), sep, xs, k, JoinOffset(sep, xs, k))
  {
    if |xs| > 1 {
      var head := xs[0] + sep;
      var rest := JoinWith(sep, xs[1..]);
      assert JoinWith(sep, xs) == head + rest;
      if k > 0 {
        JoinLayout(sep, xs[1..], k - 1);
        PieceShift(head, rest, sep, xs, k, JoinOffset(sep, xs[1..], k - 1));
      } else {
        assert (head + rest)[..|xs[0]|] == xs[0];
        assert (head + rest)[|xs[0]|..|xs[0]| + |sep|] == sep;
      }
    }
  }
}
