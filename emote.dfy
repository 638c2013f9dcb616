/**
 * `_is_emote_only`: a message is trivial when, after deleting every custom
 * emoji tag `<a?:[A-Za-z0-9_~]+:[0-9]+>` (left to right, as `re.sub` scans),
 * then every whitespace run, then every run of `[\W_]`, nothing is left.
 */
module Emote {
  import opened Text

  predicate IsAsciiLetter(c: char) {
    ('A' <= c <= 'Z') || ('a' <= c <= 'z')
  }

  /** A character of the name part of an emoji tag: `[A-Za-z0-9_~]`. */
  predicate IsNameChar(c: char) {
    IsAsciiLetter(c) || IsDigit(c) || c == '_' || c == '~'
  }

  /** A letter or digit outside ASCII, for the main scripts. */
  predicate IsOtherAlnum(c: char) {
    || c == '\U{AA}' || c == '\U{B5}' || c == '\U{BA}'
    || ('\U{C0}' <= c <= '\U{D6}') || ('\U{D8}' <= c <= '\U{F6}') || ('\U{F8}' <= c <= '\U{2C1}')
    || c == '\U{386}' || ('\U{388}' <= c <= '\U{38A}') || c == '\U{38C}' || ('\U{38E}' <= c <= '\U{3A1}')
    || ('\U{3A3}' <= c <= '\U{3F5}') || ('\U{3F7}' <= c <= '\U{3FF}')
    || ('\U{400}' <= c <= '\U{481}') || ('\U{48A}' <= c <= '\U{52F}')
    || ('\U{5D0}' <= c <= '\U{5EA}') || ('\U{620}' <= c <= '\U{64A}') || ('\U{660}' <= c <= '\U{669}')
    || ('\U{904}' <= c <= '\U{939}') || ('\U{966}' <= c <= '\U{96F}')
    || ('\U{3041}' <= c <= '\U{3096}') || ('\U{30A1}' <= c <= '\U{30FA}')
    || ('\U{4E00}' <= c <= '\U{9FFF}') || ('\U{AC00}' <= c <= '\U{D7A3}')
    || ('\U{FF10}' <= c <= '\U{FF19}') || ('\U{FF21}' <= c <= '\U{FF3A}') || ('\U{FF41}' <= c <= '\U{FF5A}')
  }

  /** What the final `[\W_]+` removal keeps: word characters other than `_`. */
  predicate IsAlnum(c: char) {
    IsAsciiLetter(c) || IsDigit(c) || IsOtherAlnum(c)
  }

  /** Length of the leading run of name characters. */
  function NameSpan(s: string): (n: nat)
    ensures n <= |s|
  {
    if s == [] || !IsNameChar(s[0]) then 0 else 1 + NameSpan(s[1..])
  }

  /** Length of the leading run of ASCII digits. */
  function DigitSpan(s: string): (n: nat)
    ensures n <= |s|
  {
    if s == [] || !IsDigit(s[0]) then 0 else 1 + DigitSpan(s[1..])
  }

  /** Length of the emoji tag the regular expression matches at the start of
      `s`, or 0 when it does not match there: `<`, an optional `a`, `:`, then
      the rest. Both runs are greedy and their classes exclude the character
      that must follow them, so the match is unique and needs no backtracking. */
  function TagAt(s: string): (n: nat)
    ensures n <= |s|
    ensures n > 0 ==> s[0] == '<'
  {
    if |s| < 2 || s[0] != '<' then 0
    else
      var i := if s[1] == 'a' then 2 else 1;
      if i >= |s| || s[i] != ':' then 0
      else
        var m := NameThenId(s[i + 1..]);
        if m == 0 then 0 else i + 1 + m
  }

  /** Length of `name:id>` at the start of `u`, or 0. */
  function NameThenId(u: string): (n: nat)
    ensures n <= |u|
  {
    var k := NameSpan(u);
    if k == 0 || k >= |u| || u[k] != ':' then 0
    else
      var m := IdThenClose(u[k + 1..]);
      if m == 0 then 0 else k + 1 + m
  }

  /** Length of `id>` at the start of `v`, or 0. */
  function IdThenClose(v: string): (n: nat)
    ensures n <= |v|
  {
    var d := DigitSpan(v);
    if d == 0 || d >= |v| || v[d] != '>' then 0 else d + 1
  }

  /** `_CUSTOM_EMOJI.sub("", s)`. */
  function StripTags(s: string): string
    decreases |s|
  {
    if s == [] then []
    else if TagAt(s) > 0 then StripTags(s[TagAt(s)..])
    else [s[0]] + StripTags(s[1..])
  }

  /** `re.sub(r"\s+", "", s)`. */
  function RemoveSpaces(s: string): string {
    if s == [] then []
    else (if IsSpace(s[0]) then [] else [s[0]]) + RemoveSpaces(s[1..])
  }

  /** `re.sub(r"[\W_]+", "", s)`: keeps letters and digits only. */
  function RemoveNonWord(s: string): string {
    if s == [] then []
    else (if IsAlnum(s[0]) then [s[0]] else []) + RemoveNonWord(s[1..])
  }

  /** `_is_emote_only`. */
  function IsEmoteOnly(text: string): bool {
    if text == [] then true
    else |RemoveNonWord(RemoveSpaces(StripTags(text)))| == 0
  }

  predicate HasAlnum(s: string) {
    exists i :: 0 <= i < |s| && IsAlnum(s[i])
  }

  lemma SpaceIsNotAlnum(c: char)
    ensures IsSpace(c) ==> !IsAlnum(c)
  {
  }

  lemma {:induction false} RemoveNonWordEmpty(s: string)
    ensures |RemoveNonWord(s)| == 0 <==> !HasAlnum(s)
  {
    if s != [] {
      RemoveNonWordEmpty(s[1..]);
      if HasAlnum(s[1..]) {
        var i :| 0 <= i < |s[1..]| && IsAlnum(s[1..][i]);
        assert IsAlnum(s[i + 1]);
      }
      if HasAlnum(s) && !IsAlnum(s[0]) {
        var i :| 0 <= i < |s| && IsAlnum(s[i]);
        assert IsAlnum(s[1..][i - 1]);
      }
    }
  }

  /** Every character `RemoveSpaces` keeps comes from the input. */
  lemma {:induction false} RemoveSpacesSource(s: string, j: nat) returns (i: nat)
    requires j < |RemoveSpaces(s)|
    ensures i < |s| && s[i] == RemoveSpaces(s)[j]
    decreases |s|
  {
    var r := RemoveSpaces(s[1..]);
    if IsSpace(s[0]) {
      assert RemoveSpaces(s) == r;
      var i' := RemoveSpacesSource(s[1..], j);
      i := i' + 1;
    } else if j == 0 {
      i := 0;
    } else {
      assert RemoveSpaces(s) == [s[0]] + r;
      var i' := RemoveSpacesSource(s[1..], j - 1);
      i := i' + 1;
    }
  }

  /** Every non-whitespace character of the input survives `RemoveSpaces`. */
  lemma {:induction false} RemoveSpacesTarget(s: string, i: nat) returns (j: nat)
    requires i < |s| && !IsSpace(s[i])
    ensures j < |RemoveSpaces(s)| && RemoveSpaces(s)[j] == s[i]
    decreases |s|
  {
    var head := if IsSpace(s[0]) then [] else [s[0]];
    var r := RemoveSpaces(s[1..]);
    assert RemoveSpaces(s) == head + r;
    if i == 0 {
      j := 0;
    } else {
      assert s[1..][i - 1] == s[i];
      var j' := RemoveSpacesTarget(s[1..], i - 1);
      j := |head| + j';
      assert (head + r)[j] == r[j'];
    }
  }

  lemma RemoveSpacesKeepsAlnum(s: string)
    ensures HasAlnum(RemoveSpaces(s)) <==> HasAlnum(s)
  {
    if HasAlnum(s) {
      var i :| 0 <= i < |s| && IsAlnum(s[i]);
      SpaceIsNotAlnum(s[i]);
      var j := RemoveSpacesTarget(s, i);
      assert IsAlnum(RemoveSpaces(s)[j]);
    }
    if HasAlnum(RemoveSpaces(s)) {
      var j :| 0 <= j < |RemoveSpaces(s)| && IsAlnum(RemoveSpaces(s)[j]);
      var i := RemoveSpacesSource(s, j);
      assert IsAlnum(s[i]);
    }
  }

  /** The message is emote-only exactly when no letter or digit is left once
      the emoji tags are taken out; in particular the empty message is. */
  lemma EmoteOnlyIff(text: string)
    ensures IsEmoteOnly(text) <==> !HasAlnum(StripTags(text))
    ensures IsEmoteOnly([])
  {
    var t := StripTags(text);
    RemoveSpacesKeepsAlnum(t);
    RemoveNonWordEmpty(RemoveSpaces(t));
  }

  /** Without a `<` nothing is taken as an emoji tag. */
  lemma {:induction false} StripWithoutTags(s: string)
    requires forall i :: 0 <= i < |s| ==> s[i] != '<'
    ensures StripTags(s) == s
  {
    if s != [] {
      StripWithoutTags(s[1..]);
    }
  }

  /** So a message without `<` is emote-only exactly when it has no letter or
      digit: one letter or digit makes it a real message. */
  lemma PlainTextEmoteOnly(text: string)
    requires forall i :: 0 <= i < |text| ==> text[i] != '<'
    ensures IsEmoteOnly(text) <==> !HasAlnum(text)
  {
    StripWithoutTags(text);
    EmoteOnlyIff(text);
  }

  /** A custom emoji tag as Discord writes it: `<:name:id>` or `<a:name:id>`. */
  datatype EmojiTag = EmojiTag(animated: bool, name: string, id: string)

  predicate ValidTag(t: EmojiTag) {
    && t.name != [] && (forall i :: 0 <= i < |t.name| ==> IsNameChar(t.name[i]))
    && t.id != [] && (forall i :: 0 <= i < |t.id| ==> IsDigit(t.id[i]))
  }

  function RenderTag(t: EmojiTag): string {
    "<" + (if t.animated then "a" else "") + ":" + t.name + ":" + t.id + ">"
  }

  /** A piece of a text made only of emoji tags and characters that are
      neither letters nor digits (whitespace, punctuation, `_`, pictographs). */
  datatype Piece = Tag(tag: EmojiTag) | Symbol(c: char)

  predicate ValidPiece(p: Piece) {
    match p
    case Tag(t) => ValidTag(t)
    case Symbol(c) => !IsAlnum(c)
  }

  function RenderPiece(p: Piece): string {
    match p
    case Tag(t) => RenderTag(t)
    case Symbol(c) => [c]
  }

  function Render(ps: seq<Piece>): string {
    if ps == [] then [] else RenderPiece(ps[0]) + Render(ps[1..])
  }

  predicate ValidPieces(ps: seq<Piece>) {
    forall k :: 0 <= k < |ps| ==> ValidPiece(ps[k])
  }

  lemma ValidTail(ps: seq<Piece>, j: nat)
    requires ValidPieces(ps) && j <= |ps|
    ensures ValidPieces(ps[j..])
  {
    forall k | 0 <= k < |ps[j..]| ensures ValidPiece(ps[j..][k]) { assert ps[j..][k] == ps[j + k]; }
  }

  /** A rendered text of pieces never starts with a letter or digit. */
  lemma RenderStart(ps: seq<Piece>)
    requires ValidPieces(ps) && ps != []
    ensures Render(ps) != [] && !IsAlnum(Render(ps)[0])
    ensures Render(ps)[0] == (if ps[0].Tag? then '<' else ps[0].c)
  {
    assert Render(ps) == RenderPiece(ps[0]) + Render(ps[1..]);
    assert ValidPiece(ps[0]);
  }

  lemma {:induction false} NameSpanOfWord(w: string, rest: string)
    requires forall i :: 0 <= i < |w| ==> IsNameChar(w[i])
    requires rest == [] || !IsNameChar(rest[0])
    ensures NameSpan(w + rest) == |w|
  {
    if w == [] {
      assert w + rest == rest;
    } else {
      assert (w + rest)[1..] == w[1..] + rest;
      NameSpanOfWord(w[1..], rest);
    }
  }

  lemma {:induction false} DigitSpanOfNumber(w: string, rest: string)
    requires forall i :: 0 <= i < |w| ==> IsDigit(w[i])
    requires rest == [] || !IsDigit(rest[0])
    ensures DigitSpan(w + rest) == |w|
  {
    if w == [] {
      assert w + rest == rest;
    } else {
      assert (w + rest)[1..] == w[1..] + rest;
      DigitSpanOfNumber(w[1..], rest);
    }
  }

  lemma IdRecognised(id: string, rest: string)
    requires id != [] && forall i :: 0 <= i < |id| ==> IsDigit(id[i])
    ensures IdThenClose(id + (">" + rest)) == |id| + 1
  {
    var v := id + (">" + rest);
    DigitSpanOfNumber(id, ">" + rest);
    assert v[|id|] == '>';
  }

  lemma NameRecognised(t: EmojiTag, rest: string)
    requires ValidTag(t)
    ensures NameThenId(t.name + (":" + (t.id + (">" + rest)))) == |t.name| + |t.id| + 2
  {
    var tail := t.id + (">" + rest);
    var u := t.name + (":" + tail);
    NameSpanOfWord(t.name, ":" + tail);
    var k := |t.name|;
    assert u[k] == ':';
    assert u[k + 1..] == tail;
    IdRecognised(t.id, rest);
  }

  /** The scanner recognises a well-formed tag, and exactly it, at the front. */
  lemma TagRecognised(t: EmojiTag, rest: string)
    requires ValidTag(t)
    ensures TagAt(RenderTag(t) + rest) == |RenderTag(t)|
  {
    var pre := "<" + (if t.animated then "a" else "") + ":";
    var u := t.name + (":" + (t.id + (">" + rest)));
    var s := RenderTag(t) + rest;
    assert s == pre + u;
    assert s[0] == '<' && s[|pre| - 1] == ':';
    assert s[1] == (if t.animated then 'a' else ':');
    assert s[|pre|..] == u;
    NameRecognised(t, rest);
  }

  /** A run of name characters over rendered pieces ends on a piece boundary:
      tags start with `<`, which is not a name character. */
  lemma {:induction false} NameSpanOnPieces(ps: seq<Piece>) returns (j: nat)
    requires ValidPieces(ps)
    ensures j <= |ps|
    ensures Render(ps)[NameSpan(Render(ps))..] == Render(ps[j..])
  {
    if ps == [] {
      j := 0;
    } else {
      RenderStart(ps);
      var s := Render(ps);
      if IsNameChar(s[0]) {
        assert ps[0].Symbol?;
        ValidTail(ps, 1);
        assert s == [ps[0].c] + Render(ps[1..]);
        assert s[1..] == Render(ps[1..]);
        var j' := NameSpanOnPieces(ps[1..]);
        j := j' + 1;
        assert ps[1..][j'..] == ps[j..];
      } else {
        j := 0;
      }
    }
  }

  /** No tag id starts where rendered pieces start: none begins with a digit. */
  lemma IdAfterPieces(ps: seq<Piece>)
    requires ValidPieces(ps)
    ensures IdThenClose(Render(ps)) == 0
  {
    if ps != [] {
      RenderStart(ps);
    }
  }

  /** Rendered pieces that start with `:` start with the symbol `:`. */
  lemma ColonPiece(ps: seq<Piece>)
    requires ValidPieces(ps) && Render(ps) != [] && Render(ps)[0] == ':'
    ensures ps != [] && ps[0] == Symbol(':')
    ensures Render(ps)[1..] == Render(ps[1..]) && ValidPieces(ps[1..])
  {
    RenderStart(ps);
    ValidTail(ps, 1);
    assert Render(ps) == [':'] + Render(ps[1..]);
  }

  /** A name run over rendered pieces is never followed by a valid id. */
  lemma NameAfterPieces(ps: seq<Piece>)
    requires ValidPieces(ps)
    ensures NameThenId(Render(ps)) == 0
  {
    var u := Render(ps);
    var j := NameSpanOnPieces(ps);
    var k := NameSpan(u);
    var after := ps[j..];
    ValidTail(ps, j);
    if k > 0 && k < |u| && u[k] == ':' {
      var r := Render(after);
      assert r == u[k..] && r[0] == ':';
      ColonPiece(after);
      assert u[k + 1..] == r[1..];
      IdAfterPieces(after[1..]);
    }
  }

  /** A non-alphanumeric symbol in front of rendered pieces never starts a
      tag: the digits a tag needs could only come from a piece, and no piece
      starts with a digit. */
  lemma SymbolStartsNoTag(c: char, ps: seq<Piece>)
    requires !IsAlnum(c) && ValidPieces(ps)
    ensures TagAt([c] + Render(ps)) == 0
  {
    var s := [c] + Render(ps);
    if c == '<' && |s| >= 2 {
      RenderStart(ps);
      assert s[1] == Render(ps)[0];
      if s[1] == ':' {
        ColonPiece(ps);
        assert s[2..] == Render(ps[1..]);
        NameAfterPieces(ps[1..]);
      }
    }
  }

  lemma {:induction false} StripPiecesHasNoAlnum(ps: seq<Piece>)
    requires ValidPieces(ps)
    ensures !HasAlnum(StripTags(Render(ps)))
  {
    if ps != [] {
      ValidTail(ps, 1);
      StripPiecesHasNoAlnum(ps[1..]);
      var s := Render(ps);
      assert s == RenderPiece(ps[0]) + Render(ps[1..]);
      assert ValidPiece(ps[0]);
      match ps[0]
      case Tag(t) =>
        TagRecognised(t, Render(ps[1..]));
        assert s[TagAt(s)..] == Render(ps[1..]);
      case Symbol(c) =>
        SymbolStartsNoTag(c, ps[1..]);
        assert s[1..] == Render(ps[1..]);
        var r := StripTags(Render(ps[1..]));
        assert StripTags(s) == [c] + r;
    }
  }

  /** A message made only of custom emoji tags, whitespace and other
      non-alphanumeric characters (punctuation, `_`, pictographs) is emote-only. */
  lemma PiecesAreEmoteOnly(ps: seq<Piece>)
    requires ValidPieces(ps)
    ensures IsEmoteOnly(Render(ps))
  {
    StripPiecesHasNoAlnum(ps);
    EmoteOnlyIff(Render(ps));
  }
}
