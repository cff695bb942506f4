/*
 * The few ECMAScript string built-ins the translator core relies on:
 * String.prototype.trim, replace with a global one-character pattern,
 * and split on a one-character separator. Strings are sequences of
 * characters; the UTF-16 code-unit view of ECMAScript makes no difference
 * to any of these operations for the characters involved.
 */
module JsString {

  /** WhiteSpace (section 12.2 of ECMA-262) and LineTerminator (section 12.3):
      the code points String.prototype.trim removes. The Zs category at the
      time of writing is U+0020, U+00A0, U+1680, U+2000..U+200A, U+202F,
      U+205F and U+3000. */
  predicate IsWhitespace(c: char) {
    // WhiteSpace
    c == '\t' || c == '\U{000B}' || c == '\U{000C}' || c == '\U{FEFF}'
    || c == ' ' || c == '\U{00A0}' || c == '\U{1680}'
    || ('\U{2000}' <= c <= '\U{200A}')
    || c == '\U{202F}' || c == '\U{205F}' || c == '\U{3000}'
    // LineTerminator
    || c == '\n' || c == '\r' || c == '\U{2028}' || c == '\U{2029}'
  }

  predicate AllWhitespace(s: string) {
    forall i :: 0 <= i < |s| ==> IsWhitespace(s[i])
  }

  /** Neither the first nor the last character is whitespace. */
  predicate NoEdgeWhitespace(s: string) {
    s == [] || (!IsWhitespace(s[0]) && !IsWhitespace(s[|s| - 1]))
  }

  /** String.prototype.trimStart: the longest suffix that does not start
      with whitespace, everything dropped before it being whitespace. */
  function TrimStart(s: string): (r: string)
    ensures |r| <= |s| && r == s[|s| - |r|..]
    ensures AllWhitespace(s[..|s| - |r|])
    ensures r == [] || !IsWhitespace(r[0])
  {
    if s != [] && IsWhitespace(s[0]) then TrimStart(s[1..]) else s
  }

  /** String.prototype.trimEnd, the mirror image of TrimStart. */
  function TrimEnd(s: string): (r: string)
    ensures |r| <= |s| && r == s[..|r|]
    ensures AllWhitespace(s[|r|..])
    ensures r == [] || !IsWhitespace(r[|r| - 1])
  {
    if s != [] && IsWhitespace(s[|s| - 1]) then TrimEnd(s[..|s| - 1]) else s
  }

  /** String.prototype.trim. */
  function Trim(s: string): (r: string)
    ensures |r| <= |s|
    ensures forall ch :: ch in r ==> ch in s
    ensures NoEdgeWhitespace(r)
  {
    TrimEnd(TrimStart(s))
  }

  /** `!s.trim()` in ECMAScript, the trimmed string being the falsy "":
      BlankIffTrimEmpty shows the two agree. */
  predicate IsBlank(s: string) {
    AllWhitespace(s)
  }

  /** Where trim cuts s: the result is s[i..j], with only whitespace
      before i and after j. */
  lemma TrimBounds(s: string) returns (i: nat, j: nat)
    ensures i <= j <= |s| && Trim(s) == s[i..j]
    ensures AllWhitespace(s[..i]) && AllWhitespace(s[j..])
  {
    var t := TrimStart(s);
    i := |s| - |t|;
    var r := TrimEnd(t);
    j := i + |r|;
    assert t == s[i..];
    assert r == s[i..j];
    assert s[j..] == t[|r|..];
  }

  /** Trim cuts s into whitespace, the result, and whitespace. */
  lemma TrimIsSlice(s: string)
    ensures exists i, j :: 0 <= i <= j <= |s| && Trim(s) == s[i..j]
                           && AllWhitespace(s[..i]) && AllWhitespace(s[j..])
  {
    var i, j := TrimBounds(s);
  }

  lemma TrimStartExact(w: string, y: string)
    requires AllWhitespace(w)
    requires y == [] || !IsWhitespace(y[0])
    ensures TrimStart(w + y) == y
  {
    var s := w + y;
    assert s[|w|..] == y;
  }

  lemma TrimEndExact(y: string, w: string)
    requires AllWhitespace(w)
    requires y == [] || !IsWhitespace(y[|y| - 1])
    ensures TrimEnd(y + w) == y
  {
    var s := y + w;
    assert s[..|y|] == y;
  }

  /** Trim is exactly the removal of surrounding whitespace: whatever
      whitespace surrounds a string with no whitespace at its ends, Trim
      gives that string back. With TrimIsSlice this characterises Trim. */
  lemma TrimExact(w1: string, t: string, w2: string)
    requires AllWhitespace(w1) && AllWhitespace(w2)
    requires NoEdgeWhitespace(t)
    ensures Trim(w1 + t + w2) == t
  {
    assert w1 + t + w2 == w1 + (t + w2);
    if t == [] {
      TrimStartExact(w1 + w2, []);
      assert w1 + t + w2 == (w1 + w2) + [];
      TrimEndExact([], []);
    } else {
      TrimStartExact(w1, t + w2);
      TrimEndExact(t, w2);
    }
  }

  /** A string with no whitespace at its ends is its own trim. */
  lemma TrimOfTrimmed(t: string)
    requires NoEdgeWhitespace(t)
    ensures Trim(t) == t
  {
    TrimExact([], t, []);
    assert [] + t + [] == t;
  }

  /** `!s.trim()` holds exactly when every character of s is whitespace. */
  lemma BlankIffTrimEmpty(s: string)
    ensures IsBlank(s) <==> Trim(s) == []
  {
    var i, j := TrimBounds(s);
    if Trim(s) == [] {
      forall k | 0 <= k < |s| ensures IsWhitespace(s[k]) {
        if k < i { assert s[..i][k] == s[k]; } else { assert s[j..][k - j] == s[k]; }
      }
    } else {
      assert !IsWhitespace(s[i..j][0]);
    }
  }

  /** `s.replace(/c/g, '')` for a one-character pattern c: every occurrence
      of c removed, every other character kept in order. */
  function RemoveAll(s: string, c: char): (r: string)
    ensures c !in r
  {
    if s == [] then []
    else (if s[0] == c then [] else [s[0]]) + RemoveAll(s[1..], c)
  }

  /** Removal keeps every other character as often as it occurs. */
  lemma {:induction false} RemoveAllCounts(s: string, c: char)
    ensures multiset(RemoveAll(s, c)) == multiset(s)[c := 0]
  {
    if s != [] {
      RemoveAllCounts(s[1..], c);
      assert s == [s[0]] + s[1..];
    }
  }

  /** Removal on a string with a known first character. */
  lemma RemoveAllCons(x: char, t: string, c: char)
    ensures RemoveAll([x] + t, c) == (if x == c then [] else [x]) + RemoveAll(t, c)
  {
    assert ([x] + t)[1..] == t;
  }

  /** Removal works piece by piece, so the kept characters stay in order. */
  lemma {:induction false} RemoveAllAppend(a: string, b: string, c: char)
    ensures RemoveAll(a + b, c) == RemoveAll(a, c) + RemoveAll(b, c)
  {
    if a == [] {
      assert a + b == b;
    } else {
      var x, t := a[0], a[1..];
      assert a == [x] + t;
      assert a + b == [x] + (t + b);
      RemoveAllCons(x, t, c);
      RemoveAllCons(x, t + b, c);
      RemoveAllAppend(t, b, c);
    }
  }

  /** A string without c is left as it is. */
  lemma {:induction false} RemoveAllAbsent(s: string, c: char)
    requires c !in s
    ensures RemoveAll(s, c) == s
  {
    if s != [] {
      RemoveAllAbsent(s[1..], c);
    }
  }

  /** String.prototype.split with a one-character separator: the pieces
      between consecutive separators, always at least one piece
      ("".split(",") is [""]). */
  function Split(s: string, c: char): (parts: seq<string>)
    ensures |parts| >= 1
    ensures forall k :: 0 <= k < |parts| ==> c !in parts[k]
  {
    if s == [] then [[]]
    else
      var rest := Split(s[1..], c);
      if s[0] == c then [[]] + rest
      else [[s[0]] + rest[0]] + rest[1..]
  }

  /** Array.prototype.join with a one-character separator. */
  function Join(parts: seq<string>, c: char): string
    requires |parts| >= 1
  {
    if |parts| == 1 then parts[0] else parts[0] + [c] + Join(parts[1..], c)
  }

  /** Joining the pieces gives the original string back. */
  lemma {:induction false} JoinSplit(s: string, c: char)
    ensures Join(Split(s, c), c) == s
  {
    if s != [] {
      JoinSplit(s[1..], c);
      var rest := Split(s[1..], c);
      if s[0] != c && |rest| > 1 {
        assert ([[s[0]] + rest[0]] + rest[1..])[1..] == rest[1..];
      } else if s[0] == c {
        assert ([[]] + rest)[1..] == rest;
      }
    }
  }

  /** A string without the separator is a single piece. */
  lemma {:induction false} SplitAbsent(x: string, c: char)
    requires c !in x
    ensures Split(x, c) == [x]
  {
    if x != [] {
      SplitAbsent(x[1..], c);
      assert [x[0]] + x[1..] == x;
    }
  }

  /** The first piece runs up to the first separator; the remaining pieces
      are those of the text after it. */
  lemma {:induction false} SplitAtFirst(x: string, y: string, c: char)
    requires c !in x
    ensures Split(x + [c] + y, c) == [x] + Split(y, c)
  {
    if x != [] {
      assert (x + [c] + y)[1..] == x[1..] + [c] + y;
      SplitAtFirst(x[1..], y, c);
      assert [x[0]] + x[1..] == x;
    } else {
      assert x + [c] + y == [c] + y;
    }
  }

  /** Splitting undoes joining pieces that do not contain the separator. */
  lemma {:induction false} SplitJoin(parts: seq<string>, c: char)
    requires |parts| >= 1
    requires forall k :: 0 <= k < |parts| ==> c !in parts[k]
    ensures Split(Join(parts, c), c) == parts
  {
    if |parts| == 1 {
      SplitAbsent(parts[0], c);
    } else {
      SplitJoin(parts[1..], c);
      SplitAtFirst(parts[0], Join(parts[1..], c), c);
      assert parts == [parts[0]] + parts[1..];
    }
  }

  /** Two pieces around the only separator. */
  lemma SplitTwo(x: string, y: string, c: char)
    requires c !in x && c !in y
    ensures Split(x + [c] + y, c) == [x, y]
  {
    SplitAtFirst(x, y, c);
    SplitAbsent(y, c);
  }

  /** The first piece ends where the separator (if any) begins. */
  lemma SplitFirstPiece(x: string, tail: string, c: char)
    requires c !in x && (tail == [] || tail[0] == c)
    ensures Split(x + tail, c)[0] == x
  {
    if tail == [] {
      assert x + tail == x;
      SplitAbsent(x, c);
    } else {
      assert x + tail == x + [c] + tail[1..];
      SplitAtFirst(x, tail[1..], c);
    }
  }

  /** The position of the first c in s, or |s| when there is none. */
  function IndexOf(s: string, c: char): (i: nat)
    ensures i <= |s| && c !in s[..i]
    ensures i < |s| ==> s[i] == c
  {
    if s == [] then 0
    else if s[0] == c then 0
    else
      var i := 1 + IndexOf(s[1..], c);
      assert s[..i] == [s[0]] + s[1..][..i - 1];
      i
  }

  /** The text before the first c (all of s when there is none). */
  function Before(s: string, c: char): string {
    s[..IndexOf(s, c)]
  }

  /** The text after the first c (empty when there is none). */
  function After(s: string, c: char): string {
    if IndexOf(s, c) < |s| then s[IndexOf(s, c) + 1..] else []
  }

  /** Split seen through the first separator: the first piece is the text
      before it and the other pieces are those of the text after it; with
      no separator there is one piece, the whole string. */
  lemma SplitByIndex(s: string, c: char)
    ensures c in s ==> Split(s, c) == [Before(s, c)] + Split(After(s, c), c)
    ensures c !in s ==> Split(s, c) == [s]
  {
    var i := IndexOf(s, c);
    if i < |s| {
      var x, y := s[..i], s[i + 1..];
      assert s == x + [c] + y;
      SplitAtFirst(x, y, c);
    } else {
      SplitAbsent(s, c);
    }
  }

  /** The first piece of a split is the text before the first separator. */
  lemma FirstPiece(s: string, c: char)
    ensures Split(s, c)[0] == Before(s, c)
  {
    SplitByIndex(s, c);
    if c !in s {
      assert s[..IndexOf(s, c)] == s;
    }
  }
}
