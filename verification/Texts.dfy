/** The string operations the sources use, on sequences of Unicode characters. */
module Texts {
  import opened Wrappers

  /** The characters with the Unicode `White_Space` property. */
  predicate IsWhitespace(c: char) {
    var n := c as int;
    || 9 <= n <= 13 || n == 0x20 || n == 0x85 || n == 0xA0 || n == 0x1680
    || 0x2000 <= n <= 0x200A || n == 0x2028 || n == 0x2029 || n == 0x202F || n == 0x205F || n == 0x3000
  }

  function TrimStart(s: string): string {
    if s != [] && IsWhitespace(s[0]) then TrimStart(s[1..]) else s
  }

  function TrimEnd(s: string): string {
    if s != [] && IsWhitespace(s[|s| - 1]) then TrimEnd(s[..|s| - 1]) else s
  }

  function Trim(s: string): string {
    TrimEnd(TrimStart(s))
  }

  function UpToWhitespace(s: string): string {
    if s == [] || IsWhitespace(s[0]) then [] else [s[0]] + UpToWhitespace(s[1..])
  }

  /** The first word, empty when there is none. */
  function FirstWord(s: string): string {
    UpToWhitespace(TrimStart(s))
  }

  function UpperChar(c: char): char {
    if 'a' <= c <= 'z' then c - 'a' + 'A' else c
  }

  function LowerChar(c: char): char {
    if 'A' <= c <= 'Z' then c - 'A' + 'a' else c
  }

  function AsciiUpper(s: string): string {
    seq(|s|, i requires 0 <= i < |s| => UpperChar(s[i]))
  }

  function AsciiLower(s: string): string {
    seq(|s|, i requires 0 <= i < |s| => LowerChar(s[i]))
  }

  predicate OccursAt<T(==)>(haystack: seq<T>, needle: seq<T>, i: nat) {
    i + |needle| <= |haystack| && haystack[i..i + |needle|] == needle
  }

  lemma OccursBetween<T>(a: seq<T>, needle: seq<T>, b: seq<T>)
    ensures OccursAt(a + needle + b, needle, |a|)
  {
    var s := a + needle + b;
    assert s[|a|..|a| + |needle|] == needle;
  }

  lemma AroundOccurrence<T>(s: seq<T>, needle: seq<T>, i: nat)
    requires OccursAt(s, needle, i)
    ensures s == s[..i] + needle + s[i + |needle|..]
  {
  }

  predicate Contains(haystack: string, needle: string) {
    exists i: nat :: i <= |haystack| && OccursAt(haystack, needle, i)
  }

  function Find(s: string, c: char): (r: Option<nat>)
    ensures r.Some? ==> r.value < |s| && s[r.value] == c
  {
    if s == [] then None
    else if s[0] == c then Some(0)
    else match Find(s[1..], c)
      case None => None
      case Some(i) => Some(i + 1)
  }

  function FindLast(s: string, c: char): (r: Option<nat>)
    ensures r.Some? ==> r.value < |s| && s[r.value] == c
  {
    if s == [] then None
    else if s[|s| - 1] == c then Some(|s| - 1)
    else FindLast(s[..|s| - 1], c)
  }

  /** The text between the first `<` and the last `>`, when they are in that order. */
  function Bracketed(s: string): (r: Option<string>) {
    var open, close := Find(s, '<'), FindLast(s, '>');
    if open.Some? && close.Some? && close.value > open.value
    then Some(s[open.value + 1..close.value])
    else None
  }

  function Split(s: string, c: char): seq<string> {
    match Find(s, c)
    case None => [s]
    case Some(i) => [s[..i]] + Split(s[i + 1..], c)
  }

  // ..... What the operations find .....

  lemma {:induction false} FindIs(s: string, c: char)
    ensures match Find(s, c)
      case None => c !in s
      case Some(i) => c !in s[..i]
    decreases |s|
  {
    if s != [] && s[0] != c {
      FindIs(s[1..], c);
      assert s == [s[0]] + s[1..];
      match Find(s[1..], c)
      case None =>
      case Some(i) => assert s[..i + 1] == [s[0]] + s[1..][..i];
    }
  }

  lemma {:induction false} FindLastIs(s: string, c: char)
    ensures match FindLast(s, c)
      case None => c !in s
      case Some(i) => c !in s[i + 1..]
    decreases |s|
  {
    var n := |s| - 1;
    if s != [] && s[n] != c {
      FindLastIs(s[..n], c);
      assert s == s[..n] + [s[n]];
      match FindLast(s[..n], c)
      case None =>
      case Some(i) => assert s[i + 1..] == s[..n][i + 1..] + [s[n]];
    }
  }

  /** The piece from `i` to `j` is surrounded by whitespace only, and touches none. */
  predicate TrimsTo(s: string, i: nat, j: nat) {
    && i <= j <= |s|
    && (forall k :: 0 <= k < i ==> IsWhitespace(s[k]))
    && (forall k :: j <= k < |s| ==> IsWhitespace(s[k]))
    && (i < j ==> !IsWhitespace(s[i]) && !IsWhitespace(s[j - 1]))
  }

  ghost predicate IsTrimOf(t: string, s: string) {
    exists i: nat, j: nat :: TrimsTo(s, i, j) && t == s[i..j]
  }

  lemma {:induction false} TrimStartIs(s: string) returns (i: nat)
    ensures i <= |s| && TrimStart(s) == s[i..]
    ensures forall k :: 0 <= k < i ==> IsWhitespace(s[k])
    ensures i < |s| ==> !IsWhitespace(s[i])
    decreases |s|
  {
    hide IsWhitespace;
    i := 0;
    if s != [] && IsWhitespace(s[0]) {
      i := TrimStartIs(s[1..]);
      assert forall k :: 0 < k < i + 1 ==> s[k] == s[1..][k - 1];
      i := i + 1;
    }
  }

  lemma {:induction false} TrimEndIs(s: string) returns (j: nat)
    ensures j <= |s| && TrimEnd(s) == s[..j]
    ensures forall k :: j <= k < |s| ==> IsWhitespace(s[k])
    ensures j > 0 ==> !IsWhitespace(s[j - 1])
    decreases |s|
  {
    hide IsWhitespace;
    j := |s|;
    if s != [] && IsWhitespace(s[|s| - 1]) {
      j := TrimEndIs(s[..|s| - 1]);
    }
  }

  lemma TrimsToUnique(s: string, i: nat, j: nat, i': nat, j': nat)
    requires TrimsTo(s, i, j) && TrimsTo(s, i', j')
    ensures s[i..j] == s[i'..j']
  {
    hide IsWhitespace;
  }

  /** Trimming gives the one piece that whitespace surrounds and that touches none. */
  lemma TrimIs(s: string, t: string)
    ensures IsTrimOf(t, s) <==> t == Trim(s)
  {
    hide IsWhitespace;
    var i := TrimStartIs(s);
    var n := TrimEndIs(s[i..]);
    assert TrimsTo(s, i, i + n) by {
      assert forall k :: i <= k < |s| ==> s[k] == s[i..][k - i];
    }
    assert s[i..][..n] == s[i..i + n];
    hide TrimsTo;
    if IsTrimOf(t, s) {
      var i': nat, j': nat :| TrimsTo(s, i', j') && t == s[i'..j'];
      TrimsToUnique(s, i, i + n, i', j');
    }
  }

  /** The word from `i` to `j` is the first: only whitespace before it, none in it, and no more of it. */
  predicate FirstWordAt(s: string, i: nat, j: nat) {
    && i <= j <= |s|
    && (forall k :: 0 <= k < i ==> IsWhitespace(s[k]))
    && (forall k :: i <= k < j ==> !IsWhitespace(s[k]))
    && (j < |s| ==> i < j && IsWhitespace(s[j]))
  }

  ghost predicate IsFirstWord(w: string, s: string) {
    exists i: nat, j: nat :: FirstWordAt(s, i, j) && w == s[i..j]
  }

  lemma {:induction false} UpToWhitespaceIs(s: string) returns (j: nat)
    ensures j <= |s| && UpToWhitespace(s) == s[..j]
    ensures forall k :: 0 <= k < j ==> !IsWhitespace(s[k])
    ensures j < |s| ==> IsWhitespace(s[j])
    decreases |s|
  {
    hide IsWhitespace;
    j := 0;
    if s != [] && !IsWhitespace(s[0]) {
      j := UpToWhitespaceIs(s[1..]);
      assert forall k :: 0 < k < j + 1 ==> s[k] == s[1..][k - 1];
      assert [s[0]] + s[1..][..j] == s[..j + 1];
      j := j + 1;
    }
  }

  lemma FirstWordUnique(s: string, i: nat, j: nat, i': nat, j': nat)
    requires FirstWordAt(s, i, j) && FirstWordAt(s, i', j')
    ensures s[i..j] == s[i'..j']
  {
    hide IsWhitespace;
    assert i < |s| ==> !IsWhitespace(s[i]);
    assert i' < |s| ==> !IsWhitespace(s[i']);
    assert i == i';
  }

  /** The first word is the one run without whitespace that only whitespace precedes. */
  lemma FirstWordIs(s: string, w: string)
    ensures IsFirstWord(w, s) <==> w == FirstWord(s)
  {
    hide IsWhitespace;
    var i := TrimStartIs(s);
    var n := UpToWhitespaceIs(s[i..]);
    assert FirstWordAt(s, i, i + n) by {
      assert forall k :: i <= k < |s| ==> s[k] == s[i..][k - i];
    }
    assert s[i..][..n] == s[i..i + n];
    hide FirstWordAt;
    if IsFirstWord(w, s) {
      var i': nat, j': nat :| FirstWordAt(s, i', j') && w == s[i'..j'];
      FirstWordUnique(s, i, i + n, i', j');
    }
  }

  /** Lowering moves the letters from A to Z by 32 and leaves everything else. */
  lemma AsciiLowerIs(s: string, t: string)
    ensures t == AsciiLower(s) <==>
      && |t| == |s|
      && forall k :: 0 <= k < |s| ==> t[k] as int == s[k] as int + if 65 <= s[k] as int <= 90 then 32 else 0
  {
  }

  /** The pieces of a text between separators, put together again. */
  function Rejoined(pieces: seq<string>, c: char): string
    requires pieces != []
  {
    if |pieces| == 1 then pieces[0] else pieces[0] + [c] + Rejoined(pieces[1..], c)
  }

  /** Splitting cuts a text at every separator and nowhere else. */
  lemma {:induction false} SplitIs(s: string, c: char)
    ensures Split(s, c) != [] && Rejoined(Split(s, c), c) == s
    ensures forall i :: 0 <= i < |Split(s, c)| ==> c !in Split(s, c)[i]
    decreases |s|
  {
    FindIs(s, c);
    if Find(s, c).Some? {
      var i := Find(s, c).value;
      SplitIs(s[i + 1..], c);
      var rest := Split(s[i + 1..], c);
      assert ([s[..i]] + rest)[1..] == rest;
      assert s == s[..i] + [c] + s[i + 1..];
    }
  }

  lemma {:induction false} FindAt(head: string, c: char, rest: string)
    requires c !in head
    ensures Find(head + [c] + rest, c) == Some(|head|)
    decreases |head|
  {
    var s := head + [c] + rest;
    if head != "" {
      FindAt(head[1..], c, rest);
      assert s[1..] == head[1..] + [c] + rest;
      assert s[0] == head[0];
    }
  }

  lemma {:induction false} FindNone(s: string, c: char)
    requires c !in s
    ensures Find(s, c).None?
    decreases |s|
  {
    if s != "" { FindNone(s[1..], c); }
  }

  /** No other cutting at separators puts the same text together. */
  lemma {:induction false} SplitRejoins(pieces: seq<string>, c: char)
    requires pieces != [] && forall i :: 0 <= i < |pieces| ==> c !in pieces[i]
    ensures Split(Rejoined(pieces, c), c) == pieces
    decreases |pieces|
  {
    if |pieces| == 1 {
      FindNone(pieces[0], c);
    } else {
      var rest := Rejoined(pieces[1..], c);
      var s := pieces[0] + [c] + rest;
      FindAt(pieces[0], c, rest);
      assert s[..|pieces[0]|] == pieces[0] && s[|pieces[0]| + 1..] == rest;
      SplitRejoins(pieces[1..], c);
    }
  }
}
