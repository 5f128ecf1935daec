/**
 * padSequences: brings a batch of token sequences to one common length by
 * adding copies of a fill value before ('pre') or after ('post') each one.
 */
module Padding {
  import opened Wrappers

  const Pre: string := "pre"
  const Post: string := "post"

  /** The parameter defaults: mode 'pre', fill value 0, no explicit length. */
  const DefaultPadding: string := Pre
  const DefaultValue: int := 0

  predicate IsMode(padding: string) {
    padding == Pre || padding == Post
  }

  /** What padSequences throws. */
  datatype PadError =
    | InvalidPaddingType(padding: string)  // Error for a mode other than 'pre' or 'post'
    | InvalidArrayLength(length: int)      // RangeError from new Array(length) with length < 0

  const PaddingTypePrefix: string := "Invalid padding type: "

  /**
   * The message of what is thrown; the rejected mode can be read back from
   * it. The RangeError's text is worded differently by different engines:
   * "Invalid array length" stands in for it, and the contract claims only
   * that it does not carry the padding-type prefix.
   */
  function Message(e: PadError): (m: string)
    ensures e.InvalidPaddingType? ==>
      PaddingTypePrefix <= m && m[|PaddingTypePrefix|..] == e.padding
    ensures e.InvalidArrayLength? ==> !(PaddingTypePrefix <= m)
  {
    match e
    case InvalidPaddingType(p) => PaddingTypePrefix + p
    case InvalidArrayLength(_) => "Invalid array length"
  }

  predicate AllEqual(s: seq<int>, value: int) {
    forall j :: 0 <= j < |s| ==> s[j] == value
  }

  /** new Array(n).fill(value) for a length JavaScript accepts: n copies of value. */
  function Fill(value: int, n: nat): (f: seq<int>)
    ensures |f| == n && AllEqual(f, value)
  {
    seq(n, _ => value)
  }

  function Max(a: int, b: int): int {
    if a < b then b else a
  }

  /**
   * The default target length: the reduce that starts from 0 and keeps the
   * larger of the running value and each sequence's length.
   */
  function MaxLength(sequences: seq<seq<int>>): (m: nat)
    ensures forall i :: 0 <= i < |sequences| ==> |sequences[i]| <= m
    ensures sequences == [] ==> m == 0
    ensures sequences != [] ==> exists i :: 0 <= i < |sequences| && |sequences[i]| == m
  {
    if sequences == [] then 0
    else
      var n := |sequences| - 1;
      Max(MaxLength(sequences[..n]), |sequences[n]|)
  }

  /** maxlen after its default has been filled in. */
  function TargetLength(sequences: seq<seq<int>>, maxlen: Option<int>): (t: int)
    ensures maxlen.Some? ==> t == maxlen.value
    ensures maxlen.None? ==> 0 <= t && forall i :: 0 <= i < |sequences| ==> |sequences[i]| <= t
    ensures maxlen.None? && sequences != [] ==> exists i :: 0 <= i < |sequences| && |sequences[i]| == t
  {
    match maxlen
    case None => MaxLength(sequences)
    case Some(m) => m
  }

  /**
   * One pass of the loop body: the padded sequence, or what the body throws.
   * The mode is examined first, then the length handed to new Array.
   */
  function PadOne(s: seq<int>, padding: string, value: int, maxlen: int): (r: Result<seq<int>, PadError>)
    ensures r.Success? <==> IsMode(padding) && |s| <= maxlen
    ensures !IsMode(padding) ==> r == Failure(InvalidPaddingType(padding))
    ensures IsMode(padding) && maxlen < |s| ==> r == Failure(InvalidArrayLength(maxlen - |s|))
    ensures r.Success? ==> |r.value| == maxlen
    ensures r.Success? && padding == Pre ==>
      r.value[maxlen - |s|..] == s && forall j :: 0 <= j < maxlen - |s| ==> r.value[j] == value
    ensures r.Success? && padding == Post ==>
      r.value[..|s|] == s && forall j :: |s| <= j < maxlen ==> r.value[j] == value
  {
    if padding == Pre then
      var padLen := maxlen - |s|;
      if padLen < 0 then Failure(InvalidArrayLength(padLen)) else Success(Fill(value, padLen) + s)
    else if padding == Post then
      var padLen := maxlen - |s|;
      if padLen < 0 then Failure(InvalidArrayLength(padLen)) else Success(s + Fill(value, padLen))
    else
      Failure(InvalidPaddingType(padding))
  }

  /** The whole loop: the first sequence whose pass throws decides the error. */
  function PadAll(sequences: seq<seq<int>>, padding: string, value: int, maxlen: int): (r: Result<seq<seq<int>>, PadError>)
    ensures sequences == [] ==> r == Success([])
    ensures r.Success? ==> |r.value| == |sequences|
    ensures sequences != [] && r.Success? ==> PadOne(sequences[0], padding, value, maxlen) == Success(r.value[0])
    ensures sequences != [] && PadOne(sequences[0], padding, value, maxlen).Failure? ==>
      r == Failure(PadOne(sequences[0], padding, value, maxlen).error)
  {
    if sequences == [] then Success([])
    else
      match PadOne(sequences[0], padding, value, maxlen)
      case Failure(e) => Failure(e)
      case Success(p) =>
        match PadAll(sequences[1..], padding, value, maxlen)
        case Failure(e) => Failure(e)
        case Success(ps) => Success([p] + ps)
  }

  /** padSequences(sequences, padding, value, maxlen) as a value. */
  function Pad(sequences: seq<seq<int>>, padding: string, value: int, maxlen: Option<int>): (r: Result<seq<seq<int>>, PadError>)
    ensures sequences == [] ==> r == Success([])
    ensures r.Success? ==> |r.value| == |sequences|
    ensures sequences != [] && !IsMode(padding) ==> r == Failure(InvalidPaddingType(padding))
  {
    PadAll(sequences, padding, value, TargetLength(sequences, maxlen))
  }

  /**
   * padSequences: fills in the default length, then pads each sequence in
   * turn, pushing onto result, until one throws.
   */
  method PadSequences(sequences: seq<seq<int>>, padding: string, value: int, maxlen: Option<int>)
    returns (r: Result<seq<seq<int>>, PadError>)
    ensures r == Pad(sequences, padding, value, maxlen)
  {
    var result: seq<seq<int>> := [];
    var target := TargetLength(sequences, maxlen);
    var i := 0;
    while i < |sequences|
      invariant 0 <= i <= |sequences|
      invariant PadAll(sequences[..i], padding, value, target) == Success(result)
    {
      var s := sequences[i];
      if padding == Pre {
        var padLen := target - |s|;
        if padLen < 0 {
          r := Failure(InvalidArrayLength(padLen));
          PadAllFailsAt(sequences, i, padding, value, target);
          return;
        }
        PadAllSnoc(sequences[..i], s, padding, value, target);
        result := result + [Fill(value, padLen) + s];
      } else if padding == Post {
        var padLen := target - |s|;
        if padLen < 0 {
          r := Failure(InvalidArrayLength(padLen));
          PadAllFailsAt(sequences, i, padding, value, target);
          return;
        }
        PadAllSnoc(sequences[..i], s, padding, value, target);
        result := result + [s + Fill(value, padLen)];
      } else {
        r := Failure(InvalidPaddingType(padding));
        PadAllFailsAt(sequences, i, padding, value, target);
        return;
      }
      assert sequences[..i + 1] == sequences[..i] + [s];
      i := i + 1;
    }
    assert sequences[..i] == sequences;
    r := Success(result);
  }

  /** Padding a concatenation: the left part's error wins, then the right part's. */
  lemma {:induction false} PadAllAppend(xs: seq<seq<int>>, ys: seq<seq<int>>, padding: string, value: int, maxlen: int)
    ensures PadAll(xs + ys, padding, value, maxlen) ==
      match PadAll(xs, padding, value, maxlen)
      case Failure(e) => Failure(e)
      case Success(ps) =>
        match PadAll(ys, padding, value, maxlen)
        case Failure(e) => Failure(e)
        case Success(qs) => Success(ps + qs)
  {
    if xs == [] {
      assert xs + ys == ys;
      match PadAll(ys, padding, value, maxlen)
      case Failure(_) =>
      case Success(qs) => assert [] + qs == qs;
    } else {
      assert (xs + ys)[0] == xs[0];
      assert (xs + ys)[1..] == xs[1..] + ys;
      match PadOne(xs[0], padding, value, maxlen)
      case Failure(_) =>
      case Success(p) =>
        PadAllAppend(xs[1..], ys, padding, value, maxlen);
        match PadAll(xs[1..], padding, value, maxlen)
        case Failure(_) =>
        case Success(ps) =>
          match PadAll(ys, padding, value, maxlen)
          case Failure(_) =>
          case Success(qs) => assert [p] + (ps + qs) == ([p] + ps) + qs;
    }
  }

  /** When every earlier sequence pads and sequence i does not, the batch fails with i's error. */
  lemma PadAllFailsAt(sequences: seq<seq<int>>, i: nat, padding: string, value: int, maxlen: int)
    requires i < |sequences|
    requires PadAll(sequences[..i], padding, value, maxlen).Success?
    requires PadOne(sequences[i], padding, value, maxlen).Failure?
    ensures PadAll(sequences, padding, value, maxlen) == Failure(PadOne(sequences[i], padding, value, maxlen).error)
  {
    assert sequences == sequences[..i] + sequences[i..];
    PadAllAppend(sequences[..i], sequences[i..], padding, value, maxlen);
    assert sequences[i..][0] == sequences[i];
  }

  /** Padding one more sequence that pads pushes its padded form onto the result. */
  lemma PadAllSnoc(xs: seq<seq<int>>, x: seq<int>, padding: string, value: int, maxlen: int)
    requires PadAll(xs, padding, value, maxlen).Success?
    requires PadOne(x, padding, value, maxlen).Success?
    ensures PadAll(xs + [x], padding, value, maxlen) ==
      Success(PadAll(xs, padding, value, maxlen).value + [PadOne(x, padding, value, maxlen).value])
  {
    PadAllAppend(xs, [x], padding, value, maxlen);
    var p := PadOne(x, padding, value, maxlen).value;
    assert [x][0] == x && [x][1..] == [];
    assert [p] + [] == [p];
  }

  /** The batch pads exactly when each of its sequences does. */
  lemma {:induction false} PadAllSucceedsIff(sequences: seq<seq<int>>, padding: string, value: int, maxlen: int)
    ensures PadAll(sequences, padding, value, maxlen).Success? <==>
      forall i :: 0 <= i < |sequences| ==> PadOne(sequences[i], padding, value, maxlen).Success?
  {
    if sequences != [] {
      PadAllSucceedsIff(sequences[1..], padding, value, maxlen);
      assert forall i :: 1 <= i < |sequences| ==> sequences[1..][i - 1] == sequences[i];
    }
  }

  /** A padded batch holds, in input order, each sequence's padded form. */
  lemma {:induction false} PadAllShape(sequences: seq<seq<int>>, padding: string, value: int, maxlen: int)
    requires PadAll(sequences, padding, value, maxlen).Success?
    ensures |PadAll(sequences, padding, value, maxlen).value| == |sequences|
    ensures forall i :: 0 <= i < |sequences| ==>
      PadOne(sequences[i], padding, value, maxlen) == Success(PadAll(sequences, padding, value, maxlen).value[i])
  {
    if sequences != [] {
      PadAllShape(sequences[1..], padding, value, maxlen);
      var out := PadAll(sequences, padding, value, maxlen).value;
      assert forall i :: 1 <= i < |sequences| ==>
        sequences[1..][i - 1] == sequences[i] && out[i] == PadAll(sequences[1..], padding, value, maxlen).value[i - 1];
    }
  }

  /**
   * Success and failure: padSequences returns exactly when the batch is empty
   * (whatever the mode) or the mode is valid and no sequence is longer than
   * the target length.
   */
  lemma PadSucceedsIff(sequences: seq<seq<int>>, padding: string, value: int, maxlen: Option<int>)
    ensures Pad(sequences, padding, value, maxlen).Success? <==>
      sequences == [] ||
      (IsMode(padding) && forall i :: 0 <= i < |sequences| ==> |sequences[i]| <= TargetLength(sequences, maxlen))
  {
    PadAllSucceedsIff(sequences, padding, value, TargetLength(sequences, maxlen));
    if sequences != [] && !IsMode(padding) {
      assert !PadOne(sequences[0], padding, value, TargetLength(sequences, maxlen)).Success?;
    }
  }

  /**
   * An unknown mode is only noticed inside the loop: an empty batch comes back
   * empty, any other batch fails with the mode in the error.
   */
  lemma PadInvalidMode(sequences: seq<seq<int>>, padding: string, value: int, maxlen: Option<int>)
    requires !IsMode(padding)
    ensures Pad(sequences, padding, value, maxlen) ==
      if sequences == [] then Success([]) else Failure(InvalidPaddingType(padding))
  {
  }

  /**
   * A sequence longer than an explicit maxlen is never truncated: the first
   * such sequence makes new Array throw with its negative padding length.
   */
  lemma PadFirstTooLong(sequences: seq<seq<int>>, padding: string, value: int, maxlen: int, k: nat)
    requires IsMode(padding)
    requires k < |sequences| && maxlen < |sequences[k]|
    requires forall j :: 0 <= j < k ==> |sequences[j]| <= maxlen
    ensures Pad(sequences, padding, value, Some(maxlen)) == Failure(InvalidArrayLength(maxlen - |sequences[k]|))
  {
    PadAllSucceedsIff(sequences[..k], padding, value, maxlen);
    assert forall j :: 0 <= j < k ==> sequences[..k][j] == sequences[j];
    PadAllFailsAt(sequences, k, padding, value, maxlen);
  }

  /** Without an explicit maxlen, a valid mode never fails and every row has the longest input's length. */
  lemma PadDefaultLength(sequences: seq<seq<int>>, padding: string, value: int)
    requires IsMode(padding)
    ensures Pad(sequences, padding, value, None).Success?
    ensures forall i :: 0 <= i < |Pad(sequences, padding, value, None).value| ==>
      |Pad(sequences, padding, value, None).value[i]| == MaxLength(sequences)
  {
    PadSucceedsIff(sequences, padding, value, None);
    PadAllShape(sequences, padding, value, MaxLength(sequences));
  }

  /**
   * 'pre' round trip: every row has the target length, and dropping its first
   * target - |s| elements, all equal to the fill value, gives back s.
   */
  lemma PadPreRoundTrip(sequences: seq<seq<int>>, value: int, maxlen: Option<int>, out: seq<seq<int>>)
    requires Pad(sequences, Pre, value, maxlen) == Success(out)
    ensures |out| == |sequences|
    ensures forall i :: 0 <= i < |out| ==>
      var n := TargetLength(sequences, maxlen) - |sequences[i]|;
      0 <= n && |out[i]| == TargetLength(sequences, maxlen) && out[i][n..] == sequences[i] && AllEqual(out[i][..n], value)
  {
    var m := TargetLength(sequences, maxlen);
    PadAllShape(sequences, Pre, value, m);
    forall i | 0 <= i < |out|
      ensures var n := m - |sequences[i]|;
        0 <= n && |out[i]| == m && out[i][n..] == sequences[i] && AllEqual(out[i][..n], value)
    {
      assert PadOne(sequences[i], Pre, value, m) == Success(out[i]);
    }
  }

  /**
   * 'post' round trip: every row has the target length, its first |s|
   * elements are s and every later element is the fill value.
   */
  lemma PadPostRoundTrip(sequences: seq<seq<int>>, value: int, maxlen: Option<int>, out: seq<seq<int>>)
    requires Pad(sequences, Post, value, maxlen) == Success(out)
    ensures |out| == |sequences|
    ensures forall i :: 0 <= i < |out| ==>
      |sequences[i]| <= TargetLength(sequences, maxlen) && |out[i]| == TargetLength(sequences, maxlen)
      && out[i][..|sequences[i]|] == sequences[i] && AllEqual(out[i][|sequences[i]|..], value)
  {
    var m := TargetLength(sequences, maxlen);
    PadAllShape(sequences, Post, value, m);
    forall i | 0 <= i < |out|
      ensures |sequences[i]| <= m && |out[i]| == m
        && out[i][..|sequences[i]|] == sequences[i] && AllEqual(out[i][|sequences[i]|..], value)
    {
      assert PadOne(sequences[i], Post, value, m) == Success(out[i]);
    }
  }

  /** A batch whose sequences all have the target length comes back unchanged. */
  lemma {:induction false} PadAllUniform(sequences: seq<seq<int>>, padding: string, value: int, maxlen: int)
    requires IsMode(padding)
    requires forall i :: 0 <= i < |sequences| ==> |sequences[i]| == maxlen
    ensures PadAll(sequences, padding, value, maxlen) == Success(sequences)
  {
    if sequences != [] {
      var s := sequences[0];
      assert Fill(value, 0) + s == s && s + Fill(value, 0) == s;
      assert PadOne(s, padding, value, maxlen) == Success(s);
      assert forall i :: 0 <= i < |sequences[1..]| ==> sequences[1..][i] == sequences[i + 1];
      PadAllUniform(sequences[1..], padding, value, maxlen);
      assert [s] + sequences[1..] == sequences;
    }
  }

  /** Padding is idempotent: padding a padded batch again with the same arguments changes nothing. */
  lemma PadIdempotent(sequences: seq<seq<int>>, padding: string, value: int, maxlen: Option<int>, out: seq<seq<int>>)
    requires Pad(sequences, padding, value, maxlen) == Success(out)
    ensures Pad(out, padding, value, maxlen) == Success(out)
  {
    var m := TargetLength(sequences, maxlen);
    PadAllShape(sequences, padding, value, m);
    if sequences == [] {
      assert out == [];
    } else {
      PadSucceedsIff(sequences, padding, value, maxlen);
      assert IsMode(padding);
      assert forall i :: 0 <= i < |out| ==> |out[i]| == m by {
        forall i | 0 <= i < |out| ensures |out[i]| == m {
          assert PadOne(sequences[i], padding, value, m) == Success(out[i]);
        }
      }
      assert TargetLength(out, maxlen) == m;
      PadAllUniform(out, padding, value, m);
    }
  }

  /** Worked examples: the default length of a batch, and an unknown mode with and without sequences. */
  lemma DefaultLengthAndModeExamples()
    ensures MaxLength([[1, 2, 3], [1, 2, 3, 4, 5], [1, 2]]) == 5
    ensures Pad([[1]], "mid", DefaultValue, None) == Failure(InvalidPaddingType("mid"))
    ensures Pad([], "mid", DefaultValue, None) == Success([])
    ensures Message(InvalidPaddingType("mid")) == "Invalid padding type: mid"
  {
  }

  /** Worked examples: [1, 2, 3] padded to length 5 with 0, before and after. */
  lemma PreAndPostExamples()
    ensures Pad([[1, 2, 3]], Pre, 0, Some(5)) == Success([[0, 0, 1, 2, 3]])
    ensures Pad([[1, 2, 3]], Post, 0, Some(5)) == Success([[1, 2, 3, 0, 0]])
  {
    var s: seq<int> := [1, 2, 3];
    assert Fill(0, 2) == [0, 0];
    assert Fill(0, 2) + s == [0, 0, 1, 2, 3];
    assert s + Fill(0, 2) == [1, 2, 3, 0, 0];
    assert PadOne(s, Pre, 0, 5) == Success([0, 0, 1, 2, 3]);
    assert PadOne(s, Post, 0, 5) == Success([1, 2, 3, 0, 0]);
    var none: seq<seq<int>> := [];
    assert none + [s] == [s];
    PadAllSnoc(none, s, Pre, 0, 5);
    PadAllSnoc(none, s, Post, 0, 5);
    assert none + [[0, 0, 1, 2, 3]] == [[0, 0, 1, 2, 3]];
    assert PadAll([s], Pre, 0, 5) == Success([[0, 0, 1, 2, 3]]);
    assert none + [[1, 2, 3, 0, 0]] == [[1, 2, 3, 0, 0]];
    assert PadAll([s], Post, 0, 5) == Success([[1, 2, 3, 0, 0]]);
  }

  /** Worked example: the call padSequences(s) with every parameter at its default. */
  lemma DefaultsExample()
    ensures Pad([[1, 2], [3]], DefaultPadding, DefaultValue, None) == Success([[1, 2], [0, 3]])
  {
    var batch := [[1, 2], [3]];
    assert batch[..1] == [[1, 2]] && [[1, 2]][..0] == [];
    assert MaxLength(batch) == 2;
    assert Fill(0, 0) + [1, 2] == [1, 2];
    assert Fill(0, 1) == [0];
    assert Fill(0, 1) + [3] == [0, 3];
    assert batch[0] == [1, 2] && batch[1..] == [[3]];
    assert PadOne([1, 2], Pre, 0, 2) == Success([1, 2]);
    assert PadOne([3], Pre, 0, 2) == Success([0, 3]);
    var none: seq<seq<int>> := [];
    assert [[3]][1..] == none && [[0, 3]] + [] == [[0, 3]];
    assert PadAll([[3]], Pre, 0, 2) == Success([[0, 3]]);
    assert [[1, 2]] + [[0, 3]] == [[1, 2], [0, 3]];
    assert PadAll(batch, Pre, 0, 2) == Success([[1, 2], [0, 3]]);
    assert TargetLength(batch, None) == 2;
    assert Pad(batch, DefaultPadding, DefaultValue, None) == PadAll(batch, Pre, 0, 2);
  }

  /** Worked example: a mixed batch padded with 9 to its default length 3. */
  lemma MixedBatchExample()
    ensures Pad([[7], [1, 2, 3]], Pre, 9, None) == Success([[9, 9, 7], [1, 2, 3]])
  {
    var batch := [[7], [1, 2, 3]];
    assert batch[..1] == [[7]] && [[7]][..0] == [];
    assert MaxLength(batch) == 3;
    assert Fill(9, 2) == [9, 9];
    assert Fill(9, 2) + [7] == [9, 9, 7];
    assert Fill(9, 0) + [1, 2, 3] == [1, 2, 3];
    assert PadOne([7], Pre, 9, 3) == Success([9, 9, 7]);
    assert PadOne([1, 2, 3], Pre, 9, 3) == Success([1, 2, 3]);
    assert batch[0] == [7] && batch[1..] == [[1, 2, 3]];
    var none: seq<seq<int>> := [];
    assert none + [[7]] == [[7]];
    PadAllSnoc(none, [7], Pre, 9, 3);
    assert none + [[9, 9, 7]] == [[9, 9, 7]];
    assert PadAll([[7]], Pre, 9, 3) == Success([[9, 9, 7]]);
    PadAllSnoc([[7]], [1, 2, 3], Pre, 9, 3);
    assert [[7]] + [[1, 2, 3]] == batch;
    assert [[9, 9, 7]] + [[1, 2, 3]] == [[9, 9, 7], [1, 2, 3]];
    assert PadAll(batch, Pre, 9, 3) == Success([[9, 9, 7], [1, 2, 3]]);
  }
}
