/** The few JavaScript string and value semantics the merge function relies on:
    truthiness of a possibly missing JSON field, `String.prototype.trim`, and
    `String.prototype.split` on a one-character separator.
 */
module JsString {

  /** A field read out of a parsed JSON body: missing (`undefined`, or `null`)
      or a string. */
  datatype Value = Absent | Str(s: string)

  /** JavaScript truthiness restricted to `Value`: only a non-empty string is truthy. */
  predicate Truthy(v: Value) {
    v.Str? && v.s != ""
  }

  /** The ECMAScript WhiteSpace and LineTerminator code points, which is the set
      `trim` strips from both ends. */
  predicate IsWs(c: char) {
    || c == '\t' || c == '\n' || c == '\U{B}' || c == '\U{C}' || c == '\r'
    || c == ' ' || c == '\U{A0}' || c == '\U{1680}'
    || ('\U{2000}' <= c <= '\U{200A}')
    || c == '\U{2028}' || c == '\U{2029}' || c == '\U{202F}' || c == '\U{205F}'
    || c == '\U{3000}' || c == '\U{FEFF}'
  }

  /** Strips leading whitespace: the result is a suffix of `s`, everything cut
      off is whitespace, and the result does not start with whitespace. */
  function TrimStart(s: string): (r: string)
    ensures |r| <= |s| && r == s[|s| - |r|..]
    ensures forall k :: 0 <= k < |s| - |r| ==> IsWs(s[k])
    ensures r == [] || !IsWs(r[0])
    decreases |s|
  {
    if s != [] && IsWs(s[0]) then TrimStart(s[1..]) else s
  }

  /** Strips trailing whitespace: the result is a prefix of `s`, everything cut
      off is whitespace, and the result does not end with whitespace. */
  function TrimEnd(s: string): (r: string)
    ensures |r| <= |s| && r == s[..|r|]
    ensures forall k :: |r| <= k < |s| ==> IsWs(s[k])
    ensures r == [] || !IsWs(r[|r| - 1])
    decreases |s|
  {
    if s != [] && IsWs(s[|s| - 1]) then TrimEnd(s[..|s| - 1]) else s
  }

  /** `r` is `s[i..i+|r|]`, everything outside that window is whitespace, and
      `r` neither starts nor ends with whitespace. */
  predicate TrimmedAt(s: string, r: string, i: int) {
    && 0 <= i <= i + |r| <= |s|
    && r == s[i..i + |r|]
    && (forall k :: 0 <= k < i ==> IsWs(s[k]))
    && (forall k :: i + |r| <= k < |s| ==> IsWs(s[k]))
    && (r == [] || (!IsWs(r[0]) && !IsWs(r[|r| - 1])))
  }

  /** The declarative meaning of trimming, independent of how it is computed. */
  ghost predicate IsTrimOf(s: string, r: string) {
    exists i :: TrimmedAt(s, r, i)
  }

  /** `String.prototype.trim`. */
  function Trim(s: string): (r: string)
    ensures IsTrimOf(s, r)
  {
    var t := TrimStart(s);
    var u := TrimEnd(t);
    assert TrimmedAt(s, u, |s| - |t|);
    u
  }

  /** Exactly one string is a trim of `s`, and it is what `Trim` computes. */
  lemma TrimUnique(s: string, r: string)
    ensures IsTrimOf(s, r) <==> r == Trim(s)
  {
    if IsTrimOf(s, r) {
      var t := Trim(s);
      var i :| TrimmedAt(s, r, i);
      var j :| TrimmedAt(s, t, j);
      if r != [] && t != [] {
        assert i == j;
        assert |r| == |t|;
      }
    }
  }

  /** Trimming a trimmed string changes nothing. */
  lemma TrimIdempotent(s: string)
    ensures Trim(Trim(s)) == Trim(s)
  {
    var t := Trim(s);
    assert TrimmedAt(t, t, 0);
    TrimUnique(t, t);
  }

  /** A string trims to the empty string exactly when it is all whitespace. */
  lemma TrimEmptyIffAllWs(s: string)
    ensures Trim(s) == [] <==> (forall k :: 0 <= k < |s| ==> IsWs(s[k]))
  {
    if forall k :: 0 <= k < |s| ==> IsWs(s[k]) {
      assert TrimmedAt(s, [], 0);
      TrimUnique(s, []);
    }
  }

  /** Number of occurrences of `c` in `s`. */
  function CountChar(s: string, c: char): (n: nat)
    ensures n <= |s|
  {
    if s == [] then 0 else (if s[0] == c then 1 else 0) + CountChar(s[1..], c)
  }

  lemma {:induction false} CountCharZero(s: string, c: char)
    ensures CountChar(s, c) == 0 <==> c !in s
  {
    if s != [] {
      CountCharZero(s[1..], c);
      assert s == [s[0]] + s[1..];
    }
  }

  /** Joins a non-empty list of pieces with `c` between consecutive pieces;
      the inverse partner of `Split`. */
  function Join(pieces: seq<string>, c: char): string
    requires |pieces| >= 1
  {
    if |pieces| == 1 then pieces[0] else pieces[0] + [c] + Join(pieces[1..], c)
  }

  /** `String.prototype.split` with a one-character string separator: the
      pieces between separators, including empty ones at either end. */
  function Split(s: string, c: char): (pieces: seq<string>)
    ensures |pieces| == CountChar(s, c) + 1
    ensures forall k :: 0 <= k < |pieces| ==> c !in pieces[k]
    ensures Join(pieces, c) == s
  {
    if s == [] then [[]]
    else
      var rest := Split(s[1..], c);
      if s[0] == c then [[]] + rest
      else
        var ps := [[s[0]] + rest[0]] + rest[1..];
        assert ps[1..] == rest[1..];
        ps
  }

  /** Splitting undoes joining pieces that do not contain the separator. */
  lemma {:induction false} SplitJoin(pieces: seq<string>, c: char)
    requires |pieces| >= 1
    requires forall k :: 0 <= k < |pieces| ==> c !in pieces[k]
    ensures Split(Join(pieces, c), c) == pieces
    decreases |pieces|, |pieces[0]|
  {
    var p := pieces[0];
    if |pieces| == 1 {
      if p != [] {
        SplitJoin([p[1..]], c);
        assert [p[1..]][0] == p[1..];
      }
    } else if p == [] {
      assert Join(pieces, c) == [c] + Join(pieces[1..], c);
      SplitJoin(pieces[1..], c);
      assert ([c] + Join(pieces[1..], c))[1..] == Join(pieces[1..], c);
    } else {
      var shorter := [p[1..]] + pieces[1..];
      assert shorter[1..] == pieces[1..];
      assert c !in p[1..] by { assert forall x :: x in p[1..] ==> x in p; }
      SplitJoin(shorter, c);
      assert Join(pieces, c) == [p[0]] + Join(shorter, c);
      assert ([p[0]] + Join(shorter, c))[1..] == Join(shorter, c);
      assert [p[0]] + p[1..] == p;
    }
  }

  /** `s.split(' ').length`: one more than the number of space characters. */
  function WordCount(s: string): (n: nat)
    ensures n == CountChar(s, ' ') + 1
  {
    |Split(s, ' ')|
  }

  /** Only U+0020 separates words: a string without a space character is one
      word however many tabs or line breaks it holds. */
  lemma SingleWordWithoutSpace(s: string)
    ensures ' ' !in s <==> WordCount(s) == 1
  {
    CountCharZero(s, ' ');
  }

  /** A whitespace-only string trims to the empty string, which is one word. */
  lemma WhitespaceOnlyIsOneWord(s: string)
    requires forall k :: 0 <= k < |s| ==> IsWs(s[k])
    ensures Trim(s) == [] && WordCount(Trim(s)) == 1
  {
    TrimEmptyIffAllWs(s);
  }

  /** `sub` occurs in `s` starting at index `at`. */
  predicate OccursAt(sub: string, s: string, at: int) {
    0 <= at && at + |sub| <= |s| && s[at..at + |sub|] == sub
  }

  /** `x` occurs in `s`, and `y` occurs after it without overlapping. */
  ghost predicate InOrder(s: string, x: string, y: string) {
    exists i, j :: OccursAt(x, s, i) && i + |x| <= j && OccursAt(y, s, j)
  }

  /** A trimmed string occurs inside the string it was trimmed from. */
  lemma TrimOccurs(s: string)
    ensures exists i :: OccursAt(Trim(s), s, i)
  {
    var i :| TrimmedAt(s, Trim(s), i);
    assert OccursAt(Trim(s), s, i);
  }
}
