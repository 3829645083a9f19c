/**
 * The string primitives the core relies on: Python's `str.split()` with no
 * argument (used on the Authorization header), ASCII lower-casing, and
 * substring containment as JavaScript's `String.prototype.includes`.
 */
module Text {

  /** Python's `str.isspace()` for one character: the separators of `str.split()`. */
  predicate IsSpace(c: char) {
    var n := c as int;
    || 9 <= n <= 13 || 28 <= n <= 32 || n == 0x85 || n == 0xA0 || n == 0x1680
    || 0x2000 <= n <= 0x200A || n == 0x2028 || n == 0x2029 || n == 0x202F
    || n == 0x205F || n == 0x3000
  }

  predicate AllSpace(s: string) {
    forall i :: 0 <= i < |s| ==> IsSpace(s[i])
  }

  /** A word as `str.split()` produces it: non-empty and free of whitespace. */
  predicate IsWord(w: string) {
    |w| > 0 && forall i :: 0 <= i < |w| ==> !IsSpace(w[i])
  }

  /** The length of the leading run of whitespace of `s`. */
  function SpaceLength(s: string): (n: nat)
    ensures n <= |s|
    decreases |s|
  {
    if s != [] && IsSpace(s[0]) then 1 + SpaceLength(s[1..]) else 0
  }

  /** The length of the leading run of non-whitespace characters of `s`. */
  function WordLength(s: string): (n: nat)
    ensures n <= |s|
    decreases |s|
  {
    if s != [] && !IsSpace(s[0]) then 1 + WordLength(s[1..]) else 0
  }

  /**
   * Python's `s.split()`: the maximal runs of non-whitespace characters, in
   * order; runs of whitespace, and leading or trailing whitespace, separate
   * nothing.
   */
  function Split(s: string): seq<string>
    decreases |s|, 1
  {
    Words(s[SpaceLength(s)..])
  }

  /** The split of a string that does not start with whitespace. */
  function Words(t: string): seq<string>
    decreases |t|, 0
  {
    var n := WordLength(t);
    if n == 0 then [] else [t[..n]] + Split(t[n..])
  }

  /** The words joined with the separator `sep` between consecutive ones. */
  function Join(words: seq<string>, sep: string): string {
    if |words| == 0 then ""
    else if |words| == 1 then words[0]
    else words[0] + sep + Join(words[1..], sep)
  }

  lemma {:induction false} SpaceLengthAppend(s: string, x: string)
    ensures SpaceLength(s) < |s| ==> SpaceLength(s + x) == SpaceLength(s)
    ensures AllSpace(s) ==> SpaceLength(s + x) == |s| + SpaceLength(x)
    decreases |s|
  {
    if s != [] {
      assert (s + x)[1..] == s[1..] + x;
      SpaceLengthAppend(s[1..], x);
    } else {
      assert s + x == x;
    }
  }

  lemma {:induction false} WordLengthAppend(t: string, x: string)
    ensures WordLength(t) < |t| ==> WordLength(t + x) == WordLength(t)
    ensures WordLength(t) == |t| && (x == [] || IsSpace(x[0])) ==> WordLength(t + x) == |t|
    decreases |t|
  {
    if t != [] {
      assert (t + x)[1..] == t[1..] + x;
      WordLengthAppend(t[1..], x);
    } else {
      assert t + x == x;
    }
  }

  lemma {:induction false} SpaceLengthBounds(s: string)
    ensures forall i :: 0 <= i < SpaceLength(s) ==> IsSpace(s[i])
    ensures SpaceLength(s) < |s| ==> !IsSpace(s[SpaceLength(s)])
    decreases |s|
  {
    if s != [] && IsSpace(s[0]) {
      SpaceLengthBounds(s[1..]);
    }
  }

  lemma {:induction false} WordLengthBounds(s: string)
    ensures forall i :: 0 <= i < WordLength(s) ==> !IsSpace(s[i])
    ensures WordLength(s) < |s| ==> IsSpace(s[WordLength(s)])
    decreases |s|
  {
    if s != [] && !IsSpace(s[0]) {
      WordLengthBounds(s[1..]);
    }
  }

  lemma {:induction false} WordLengthOfWord(w: string)
    requires IsWord(w)
    ensures WordLength(w) == |w|
    decreases |w|
  {
    if |w| > 1 {
      WordLengthOfWord(w[1..]);
    }
  }

  /** Every element of a split is a word. */
  lemma {:induction false} SplitWords(s: string)
    ensures forall k :: 0 <= k < |Split(s)| ==> IsWord(Split(s)[k])
    decreases |s|
  {
    var t := s[SpaceLength(s)..];
    var n := WordLength(t);
    if n > 0 {
      WordLengthBounds(t);
      assert IsWord(t[..n]);
      assert Split(s) == [t[..n]] + Split(t[n..]);
      SplitWords(t[n..]);
    }
  }

  /** A string of whitespace alone splits into no words. */
  lemma SplitOfSpace(ws: string)
    requires AllSpace(ws)
    ensures Split(ws) == []
  {
    SpaceLengthAppend(ws, "");
    assert ws + "" == ws;
  }

  /** Leading whitespace is dropped. */
  lemma SplitLeadingSpace(ws: string, s: string)
    requires AllSpace(ws)
    ensures Split(ws + s) == Split(s)
  {
    SpaceLengthAppend(ws, s);
    var k := SpaceLength(s);
    assert (ws + s)[|ws| + k..] == s[k..];
  }

  /** A word followed by whitespace (or by nothing) is the first word of the split. */
  lemma SplitWord(w: string, rest: string)
    requires IsWord(w)
    requires rest == [] || IsSpace(rest[0])
    ensures Split(w + rest) == [w] + Split(rest)
  {
    var s := w + rest;
    assert SpaceLength(s) == 0;
    assert s[0..] == s;
    WordLengthOfWord(w);
    WordLengthAppend(w, rest);
    assert s[..|w|] == w;
    assert s[|w|..] == rest;
  }

  /** Trailing whitespace is dropped from a string that starts with a word. */
  lemma {:induction false} WordsTrailingSpace(t: string, ws: string)
    requires AllSpace(ws)
    ensures Words(t + ws) == Words(t)
    decreases |t|, 0
  {
    if t == [] {
      assert t + ws == ws;
    } else {
      var n := WordLength(t);
      WordLengthAppend(t, ws);
      if n > 0 {
        assert (t + ws)[..n] == t[..n];
        assert (t + ws)[n..] == t[n..] + ws;
        SplitTrailingSpace(t[n..], ws);
      }
    }
  }

  /** Trailing whitespace is dropped. */
  lemma {:induction false} SplitTrailingSpace(s: string, ws: string)
    requires AllSpace(ws)
    ensures Split(s + ws) == Split(s)
    decreases |s|, 1
  {
    var k := SpaceLength(s);
    SpaceLengthBounds(s);
    SpaceLengthAppend(s, ws);
    if k == |s| {
      assert AllSpace(s);
      SplitOfSpace(s);
      SplitLeadingSpace(s, ws);
      SplitOfSpace(ws);
    } else {
      assert (s + ws)[k..] == s[k..] + ws;
      WordsTrailingSpace(s[k..], ws);
    }
  }

  /**
   * Round trip: joining words with any non-empty whitespace separator and
   * splitting gives the words back.
   */
  lemma {:induction false} SplitJoin(words: seq<string>, sep: string)
    requires forall k :: 0 <= k < |words| ==> IsWord(words[k])
    requires |sep| > 0 && AllSpace(sep)
    ensures Split(Join(words, sep)) == words
    decreases |words|
  {
    if |words| == 0 {
      SplitOfSpace("");
    } else if |words| == 1 {
      SplitWord(words[0], "");
      SplitOfSpace("");
      assert words[0] + "" == words[0];
    } else {
      var tail := Join(words[1..], sep);
      assert Join(words, sep) == words[0] + (sep + tail);
      SplitWord(words[0], sep + tail);
      SplitLeadingSpace(sep, tail);
      SplitJoin(words[1..], sep);
      assert words == [words[0]] + words[1..];
    }
  }

  /** ASCII lower-casing of one character; every other character is kept. */
  function LowerChar(c: char): char {
    if 'A' <= c <= 'Z' then (c as int + 32) as char else c
  }

  function AsciiLower(s: string): (r: string)
    ensures |r| == |s|
  {
    seq(|s|, i requires 0 <= i < |s| => LowerChar(s[i]))
  }

  /**
   * JavaScript's `s.includes(sub)`: `sub` occurs in `s` at some offset; the
   * empty string occurs in every string.
   */
  predicate Contains(s: string, sub: string)
    decreases |s|
  {
    sub <= s || (s != [] && Contains(s[1..], sub))
  }

  /** `sub` occurs in `s` starting at offset `i`. */
  predicate OccursAt(s: string, sub: string, i: int) {
    0 <= i && i + |sub| <= |s| && s[i..i + |sub|] == sub
  }

  lemma {:induction false} ContainsHasOffset(s: string, sub: string) returns (i: nat)
    requires Contains(s, sub)
    ensures OccursAt(s, sub, i)
    decreases |s|
  {
    if sub <= s {
      i := 0;
      assert s[0..|sub|] == sub;
    } else {
      var k := ContainsHasOffset(s[1..], sub);
      i := k + 1;
      assert s[1..][k..k + |sub|] == s[i..i + |sub|];
    }
  }

  lemma {:induction false} OffsetGivesContains(s: string, sub: string, i: nat)
    requires OccursAt(s, sub, i)
    ensures Contains(s, sub)
    decreases i
  {
    if i > 0 {
      assert s[1..][i - 1..i - 1 + |sub|] == s[i..i + |sub|];
      OffsetGivesContains(s[1..], sub, i - 1);
    } else {
      assert s[..|sub|] == sub;
    }
  }

  /** Contains agrees with the definition by offsets. */
  lemma ContainsAt(s: string, sub: string)
    ensures Contains(s, sub) <==> exists i :: OccursAt(s, sub, i)
  {
    if Contains(s, sub) {
      var i := ContainsHasOffset(s, sub);
    }
    if exists i :: OccursAt(s, sub, i) {
      var i :| OccursAt(s, sub, i);
      OffsetGivesContains(s, sub, i);
    }
  }
}
