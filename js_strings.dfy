/**
 * The JavaScript string built-ins the CSV handling relies on:
 * String.prototype.trim, String.prototype.split with a one-character
 * separator, and Array.prototype.join over strings.
 */
module JsStrings {

  /**
   * ECMAScript WhiteSpace and LineTerminator code points, the set that
   * String.prototype.trim removes: TAB, LF, VT, FF, CR, the space separators
   * (category Zs), LS, PS and the byte order mark. All of them lie in the
   * Basic Multilingual Plane, so each is a single UTF-16 code unit.
   */
  predicate IsWhitespace(c: char): (b: bool)
    ensures b ==> (c as int) < 0x1_0000
    ensures c == ' ' || c == '\t' || c == '\n' || c == '\r' ==> b
    ensures c == ',' || c == '\U{85}' ==> !b
  {
    var n := c as int;
    n == 0x09 || n == 0x0A || n == 0x0B || n == 0x0C || n == 0x0D
    || n == 0x20 || n == 0xA0 || n == 0x1680
    || (0x2000 <= n <= 0x200A)
    || n == 0x2028 || n == 0x2029 || n == 0x202F || n == 0x205F
    || n == 0x3000 || n == 0xFEFF
  }

  /** Every character of s at an index in [lo, hi) is whitespace. */
  predicate WhitespaceBetween(s: string, lo: int, hi: int) {
    forall k :: lo <= k < hi && 0 <= k < |s| ==> IsWhitespace(s[k])
  }

  predicate AllWhitespace(s: string) {
    WhitespaceBetween(s, 0, |s|)
  }

  /** Scanning forward from k: the first index at or after k that is not whitespace (or |s|). */
  function TrimStartIndex(s: string, k: nat): (i: nat)
    requires k <= |s|
    ensures k <= i <= |s| && WhitespaceBetween(s, k, i)
    ensures i == |s| || !IsWhitespace(s[i])
    decreases |s| - k
  {
    if k < |s| && IsWhitespace(s[k]) then TrimStartIndex(s, k + 1) else k
  }

  /** Scanning backward from k: the end of the last non-whitespace character before k (or 0). */
  function TrimEndIndex(s: string, k: nat): (j: nat)
    requires k <= |s|
    ensures j <= k && WhitespaceBetween(s, j, k)
    ensures j == 0 || !IsWhitespace(s[j - 1])
  {
    if k > 0 && IsWhitespace(s[k - 1]) then TrimEndIndex(s, k - 1) else k
  }

  /**
   * s is t with only whitespace before it (the first i characters) and after
   * it, and t neither starts nor ends with whitespace.
   */
  predicate IsTrimmedAt(s: string, t: string, i: nat) {
    i + |t| <= |s| && t == s[i..i + |t|]
    && WhitespaceBetween(s, 0, i) && WhitespaceBetween(s, i + |t|, |s|)
    && (t == [] || (!IsWhitespace(t[0]) && !IsWhitespace(t[|t| - 1])))
  }

  /** String.prototype.trim: leading and trailing whitespace removed. */
  function Trim(s: string): (t: string)
    ensures IsTrimmedAt(s, t, TrimStartIndex(s, 0))
  {
    var i := TrimStartIndex(s, 0);
    var j := TrimEndIndex(s, |s|);
    if j <= i then [] else s[i..j]
  }

  /** Number of occurrences of c in s. */
  function Count(s: string, c: char): nat {
    if s == [] then 0 else (if s[0] == c then 1 else 0) + Count(s[1..], c)
  }

  /**
   * String.prototype.split with a one-character separator: the pieces
   * between consecutive separators, so one more piece than there are
   * separators (the empty string splits into one empty piece).
   */
  function Split(s: string, sep: char): (parts: seq<string>)
    ensures |parts| == Count(s, sep) + 1
    ensures forall k :: 0 <= k < |parts| ==> sep !in parts[k]
    ensures parts[0] <= s && (|parts[0]| == |s| || s[|parts[0]|] == sep)
  {
    if s == [] then [[]]
    else
      var rest := Split(s[1..], sep);
      if s[0] == sep then [[]] + rest
      else [[s[0]] + rest[0]] + rest[1..]
  }

  /** Array.prototype.join: the pieces with sep between neighbours. */
  function Join(parts: seq<string>, sep: char): (s: string)
    ensures parts == [] ==> s == []
    ensures |parts| >= 1 ==> parts[0] <= s
    ensures |parts| >= 2 ==> |parts[0]| < |s| && s[|parts[0]|] == sep
  {
    if |parts| == 0 then []
    else if |parts| == 1 then parts[0]
    else parts[0] + [sep] + Join(parts[1..], sep)
  }

  /**
   * The converse of Trim's contract: whenever s is t with only whitespace
   * around it, and t neither starts nor ends with whitespace, Trim(s) is t.
   */
  lemma TrimUnique(s: string, t: string, i: nat)
    requires IsTrimmedAt(s, t, i)
    ensures Trim(s) == t
  {
    if t == [] {
      assert TrimStartIndex(s, 0) == |s|;
    } else {
      assert TrimStartIndex(s, 0) == i;
      assert TrimEndIndex(s, |s|) == i + |t|;
    }
  }

  /** Text that neither starts nor ends with whitespace is its own trimmed form. */
  lemma TrimNoop(s: string)
    requires s == [] || (!IsWhitespace(s[0]) && !IsWhitespace(s[|s| - 1]))
    ensures Trim(s) == s
  {
    TrimUnique(s, s, 0);
  }

  lemma {:induction false} JoinSplit(s: string, sep: char)
    ensures Join(Split(s, sep), sep) == s
  {
    if s != [] {
      var rest := Split(s[1..], sep);
      JoinSplit(s[1..], sep);
      if s[0] == sep {
        assert Split(s, sep) == [[]] + rest;
        assert ([[]] + rest)[1..] == rest;
      } else {
        var parts := [[s[0]] + rest[0]] + rest[1..];
        assert Split(s, sep) == parts;
        if |rest| > 1 {
          assert parts[1..] == rest[1..];
        }
      }
    }
  }

  /** Splitting text that starts with a separator-free piece extends the first part. */
  lemma {:induction false} SplitAfterPiece(p: string, t: string, sep: char)
    requires sep !in p
    ensures Split(p + t, sep) == [p + Split(t, sep)[0]] + Split(t, sep)[1..]
  {
    var st := Split(t, sep);
    if p == [] {
      assert p + t == t;
      assert p + st[0] == st[0];
      assert [st[0]] + st[1..] == st;
    } else {
      var s := p + t;
      SplitAfterPiece(p[1..], t, sep);
      assert s[1..] == p[1..] + t;
      var rest := Split(s[1..], sep);
      assert rest == [p[1..] + st[0]] + st[1..];
      assert s[0] == p[0] && s[0] != sep;
      assert Split(s, sep) == [[s[0]] + rest[0]] + rest[1..];
      assert rest[0] == p[1..] + st[0] && rest[1..] == st[1..];
      assert [p[0]] + (p[1..] + st[0]) == p + st[0];
    }
  }

  /** Join of two or more pieces: the first piece, the separator, then the join of the rest. */
  lemma JoinCons(parts: seq<string>, sep: char)
    requires |parts| >= 2
    ensures Join(parts, sep) == parts[0] + ([sep] + Join(parts[1..], sep))
  {
    assert parts[0] + [sep] + Join(parts[1..], sep) == parts[0] + ([sep] + Join(parts[1..], sep));
  }

  /** Split of text starting with the separator: an empty first piece, then the split of the rest. */
  lemma SplitSepFirst(t: string, sep: char)
    ensures Split([sep] + t, sep) == [[]] + Split(t, sep)
  {
    assert ([sep] + t)[1..] == t;
  }

  lemma {:induction false} SplitJoin(parts: seq<string>, sep: char)
    requires |parts| >= 1
    requires forall k :: 0 <= k < |parts| ==> sep !in parts[k]
    ensures Split(Join(parts, sep), sep) == parts
  {
    if |parts| == 1 {
      SplitAfterPiece(parts[0], [], sep);
      assert parts[0] + [] == parts[0];
    } else {
      var rest := parts[1..];
      var tail := Join(rest, sep);
      assert forall k :: 0 <= k < |rest| ==> sep !in rest[k] by {
        forall k | 0 <= k < |rest| ensures sep !in rest[k] {
          assert rest[k] == parts[k + 1];
        }
      }
      SplitJoin(rest, sep);
      JoinCons(parts, sep);
      SplitSepFirst(tail, sep);
      SplitAfterPiece(parts[0], [sep] + tail, sep);
      assert parts[0] + [] == parts[0];
      assert ([[]] + rest)[1..] == rest;
      assert [parts[0]] + rest == parts;
    }
  }

  /** Joining n separator-free pieces puts exactly n - 1 separators in the text. */
  lemma JoinCount(parts: seq<string>, sep: char)
    requires |parts| >= 1
    requires forall k :: 0 <= k < |parts| ==> sep !in parts[k]
    ensures Count(Join(parts, sep), sep) == |parts| - 1
  {
    SplitJoin(parts, sep);
  }
}
