/**
 * The pieces of Python's string handling the command parsers rely on:
 * `s.split(c)` on a one-character separator, `s.split(p, 1)[1]` (the text
 * after the first occurrence of `p`) and `int(s)` on a string without
 * whitespace.
 */
module PyParse {
  import opened Wrappers
  import opened Text

  /** `s.split(c)`: the pieces between the separators, empty ones included;
      there is always at least one. */
  function SplitOn(s: string, c: char): (r: seq<string>)
    ensures |r| >= 1
    decreases |s|
  {
    if s == [] then [""]
    else
      var rest := SplitOn(s[1..], c);
      if s[0] == c then [""] + rest else [[s[0]] + rest[0]] + rest[1..]
  }

  predicate Free(s: string, c: char) {
    forall i :: 0 <= i < |s| ==> s[i] != c
  }

  /** Joining the pieces with the separator gives the string back. */
  lemma {:induction false} JoinSplit(s: string, c: char)
    ensures JoinWith([c], SplitOn(s, c)) == s
    decreases |s|
  {
    if s != [] {
      var rest := SplitOn(s[1..], c);
      JoinSplit(s[1..], c);
      if s[0] == c {
        assert JoinWith([c], [""] + rest) == "" + [c] + JoinWith([c], rest);
      } else if |rest| == 1 {
        assert JoinWith([c], rest) == rest[0];
      } else {
        var r := [[s[0]] + rest[0]] + rest[1..];
        assert r[1..] == rest[1..];
        assert JoinWith([c], r) == [s[0]] + rest[0] + [c] + JoinWith([c], rest[1..]);
        assert JoinWith([c], rest) == rest[0] + [c] + JoinWith([c], rest[1..]);
      }
    }
  }

  /** No piece holds the separator. */
  lemma {:induction false} SplitPiecesFree(s: string, c: char)
    ensures forall k :: 0 <= k < |SplitOn(s, c)| ==> Free(SplitOn(s, c)[k], c)
    decreases |s|
  {
    if s != [] {
      var rest := SplitOn(s[1..], c);
      SplitPiecesFree(s[1..], c);
      if s[0] != c {
        var r := SplitOn(s, c);
        assert r[0] == [s[0]] + rest[0];
        assert Free(r[0], c) by {
          forall i | 0 <= i < |r[0]| ensures r[0][i] != c {
            if i > 0 { assert r[0][i] == rest[0][i - 1]; }
          }
        }
        forall k | 1 <= k < |r| ensures Free(r[k], c) { assert r[k] == rest[k]; }
      }
    }
  }

  /** A separator-free string splits into itself. */
  lemma {:induction false} SplitFree(a: string, c: char)
    requires Free(a, c)
    ensures SplitOn(a, c) == [a]
    decreases |a|
  {
    if a != [] {
      SplitFree(a[1..], c);
      assert [a[0]] + a[1..] == a;
    }
  }

  /** Splitting `a + [c] + b` splits off `a`, when `a` holds no separator. */
  lemma {:induction false} SplitAtFirst(a: string, b: string, c: char)
    requires Free(a, c)
    ensures SplitOn(a + [c] + b, c) == [a] + SplitOn(b, c)
    decreases |a|
  {
    var s := a + [c] + b;
    if a == [] {
      assert s[0] == c && s[1..] == b;
    } else {
      assert s[0] == a[0];
      assert s[1..] == a[1..] + [c] + b;
      SplitAtFirst(a[1..], b, c);
      assert [a[0]] + a[1..] == a;
    }
  }

  /** Splitting a join of separator-free pieces gives the pieces back. */
  lemma {:induction false} SplitJoin(xs: seq<string>, c: char)
    requires |xs| >= 1
    requires forall k :: 0 <= k < |xs| ==> Free(xs[k], c)
    ensures SplitOn(JoinWith([c], xs), c) == xs
  {
    if |xs| == 1 {
      SplitFree(xs[0], c);
    } else {
      SplitJoin(xs[1..], c);
      assert JoinWith([c], xs) == xs[0] + [c] + JoinWith([c], xs[1..]);
      SplitAtFirst(xs[0], JoinWith([c], xs[1..]), c);
      assert [xs[0]] + xs[1..] == xs;
    }
  }

  /** The offset of the first occurrence of `p` in `s`. */
  function FirstAt(s: string, p: string): (i: nat)
    requires Contains(s, p)
    ensures i + |p| <= |s| && s[i..i + |p|] == p
    decreases |s|
  {
    if StartsWith(s, p) then 0 else 1 + FirstAt(s[1..], p)
  }

  /** No occurrence of `p` starts before `FirstAt`. */
  lemma {:induction false} FirstAtIsFirst(s: string, p: string, j: nat)
    requires Contains(s, p)
    requires j < FirstAt(s, p)
    ensures !StartsWith(s[j..], p)
    decreases |s|
  {
    if j > 0 {
      assert !StartsWith(s, p);
      FirstAtIsFirst(s[1..], p, j - 1);
      assert s[1..][j - 1..] == s[j..];
    }
  }

  /** `s.split(p, 1)[1]`: what follows the first occurrence of `p`. */
  function AfterFirst(s: string, p: string): string
    requires Contains(s, p)
  {
    s[FirstAt(s, p) + |p|..]
  }

  /** The digit-and-underscore body `int()` accepts: digits, where a single
      underscore may sit between two of them. */
  predicate Underscored(s: string) {
    && s != [] && IsDigit(s[0])
    && (forall i :: 0 <= i < |s| ==> IsDigit(s[i]) || s[i] == '_')
    && (forall i :: 0 <= i < |s| && s[i] == '_' ==> i + 1 < |s| && IsDigit(s[i + 1]))
  }

  /** The digits of `s`, underscores dropped. */
  function DropUnderscores(s: string): (r: string)
    requires forall i :: 0 <= i < |s| ==> IsDigit(s[i]) || s[i] == '_'
    ensures forall i :: 0 <= i < |r| ==> IsDigit(r[i])
  {
    if s == [] then []
    else
      var rest := DropUnderscores(s[1..]);
      if s[0] == '_' then rest else [s[0]] + rest
  }

  /** `int(x)` for a string without whitespace: an optional sign, then digits
      grouped by single underscores; anything else raises, here `None`. */
  function PyInt(x: string): Option<int> {
    if x != [] && (x[0] == '+' || x[0] == '-') then
      var body := x[1..];
      if Underscored(body) then
        var v: int := DigitsValue(DropUnderscores(body));
        Some(if x[0] == '-' then -v else v)
      else None
    else if Underscored(x) then Some(DigitsValue(DropUnderscores(x)))
    else None
  }

  lemma {:induction false} DropNoUnderscores(s: string)
    requires forall i :: 0 <= i < |s| ==> IsDigit(s[i])
    ensures DropUnderscores(s) == s
  {
    if s != [] {
      DropNoUnderscores(s[1..]);
      assert [s[0]] + s[1..] == s;
    }
  }

  /** `int(str(n)) == n` and `int("-" + str(n)) == -n`. */
  lemma PyIntOfNat(n: nat)
    ensures PyInt(NatToString(n)) == Some(n)
    ensures PyInt("-" + NatToString(n)) == Some(-(n as int))
  {
    var d := NatToString(n);
    DropNoUnderscores(d);
    DigitsOfNat(n);
    assert Underscored(d);
    assert ("-" + d)[1..] == d;
  }

  lemma {:induction false} DropUnderscoresConcat(x: string, y: string)
    requires forall i :: 0 <= i < |x| ==> IsDigit(x[i]) || x[i] == '_'
    requires forall i :: 0 <= i < |y| ==> IsDigit(y[i]) || y[i] == '_'
    ensures DropUnderscores(x + y) == DropUnderscores(x) + DropUnderscores(y)
  {
    if x != [] {
      assert (x + y)[1..] == x[1..] + y;
      DropUnderscoresConcat(x[1..], y);
    } else {
      assert x + y == y;
    }
  }

  predicate AllDigits(s: string) {
    forall i :: 0 <= i < |s| ==> IsDigit(s[i])
  }

  lemma UnderscoredJoin(a: string, b: string)
    requires a != [] && b != [] && AllDigits(a) && AllDigits(b)
    ensures Underscored(a + "_" + b)
  {
    var s := a + "_" + b;
    forall i | 0 <= i < |s| ensures if i == |a| then s[i] == '_' && s[i + 1] == b[0] else IsDigit(s[i]) {
      if i < |a| { assert s[i] == a[i]; } else if i > |a| { assert s[i] == b[i - |a| - 1]; }
    }
    assert s[0] == a[0];
  }

  lemma ConcatDigits(a: string, b: string)
    requires AllDigits(a) && AllDigits(b)
    ensures AllDigits(a + b)
  {
    forall i | 0 <= i < |a + b| ensures IsDigit((a + b)[i]) {
      if i < |a| { assert (a + b)[i] == a[i]; } else { assert (a + b)[i] == b[i - |a|]; }
    }
  }

  /** Dropping the underscores of `a + "_" + b` leaves `a + b`. */
  lemma DropJoin(a: string, b: string)
    requires AllDigits(a) && AllDigits(b)
    ensures forall i :: 0 <= i < |a + "_" + b| ==> IsDigit((a + "_" + b)[i]) || (a + "_" + b)[i] == '_'
    ensures DropUnderscores(a + "_" + b) == a + b
  {
    assert a + "_" + b == a + ("_" + b);
    forall i | 0 <= i < |a + "_" + b| ensures IsDigit((a + "_" + b)[i]) || (a + "_" + b)[i] == '_' {
      if i < |a| { assert (a + "_" + b)[i] == a[i]; } else if i > |a| { assert (a + "_" + b)[i] == b[i - |a| - 1]; }
    }
    DropUnderscoresConcat(a, "_" + b);
    DropNoUnderscores(a);
    assert ("_" + b)[1..] == b;
    DropNoUnderscores(b);
  }

  /** An underscore between two runs of digits changes nothing:
      `int("1_000") == int("1000")`. */
  lemma {:induction false} UnderscoreGrouping(a: string, b: string)
    requires a != [] && b != [] && AllDigits(a) && AllDigits(b)
    ensures PyInt(a + "_" + b) == PyInt(a + b)
    ensures PyInt(a + b).Some?
  {
    var s := a + "_" + b;
    UnderscoredJoin(a, b);
    ConcatDigits(a, b);
    DropJoin(a, b);
    DropNoUnderscores(a + b);
    assert s[0] == a[0] && (a + b)[0] == a[0];
    assert Underscored(a + b);
    assert PyInt(s) == Some(DigitsValue(a + b));
  }

  /** Empty text, a lone sign, a trailing or doubled underscore and foreign
      characters are all rejected. */
  lemma Rejected()
    ensures PyInt("") == None && PyInt("-") == None && PyInt("1_") == None
    ensures PyInt("1__0") == None && PyInt("12a") == None
  {
    assert !Underscored("1__0") by { assert "1__0"[1] == '_' && "1__0"[2] == '_'; }
    assert !Underscored("12a") by { assert "12a"[2] == 'a'; }
    assert !Underscored("1_") by { assert "1_"[1] == '_'; }
    assert "-"[1..] == "";
  }
}
