/**
 * removeJSONComments (src/ex00/readDB.go:75-96, the same code at
 * src/ex01/compareDB.go:75-95): the byte scanner that drops `//` line
 * comments before a JSON document is decoded. It knows nothing of string
 * literals, and it writes the line break that ends a comment.
 */
module CommentStrip {

  /** A byte of the input, as Go's `byte`. */
  type byte = b: int | 0 <= b < 256

  const SLASH: byte := 47
  const LF: byte := 10
  const CR: byte := 13

  predicate IsBreak(b: byte) { b == LF || b == CR }

  /** The scanner sees a comment opener at `i`: two slashes, both inside the input. */
  predicate PairAt(data: seq<byte>, i: int) {
    0 <= i && i + 1 < |data| && data[i] == SLASH && data[i + 1] == SLASH
  }

  /** No two adjacent slashes anywhere in `s`. */
  predicate NoPair(s: seq<byte>) {
    forall i :: 0 <= i < |s| - 1 ==> !(s[i] == SLASH && s[i + 1] == SLASH)
  }

  /** What the scanner writes from position `i` on, entering it in state `inComment`.
      A comment opener sets the state and skips both slashes; a line break
      clears the state before the write check, so the break itself is written. */
  function StripFrom(data: seq<byte>, i: nat, inComment: bool): seq<byte>
    requires i <= |data|
    decreases |data| - i
  {
    if i == |data| then []
    else if PairAt(data, i) then StripFrom(data, i + 2, true)
    else
      var c := if inComment && IsBreak(data[i]) then false else inComment;
      (if c then [] else [data[i]]) + StripFrom(data, i + 1, c)
  }

  /** The output of removeJSONComments. */
  function Strip(data: seq<byte>): seq<byte> {
    StripFrom(data, 0, false)
  }

  /** The scanner loop itself: a position, the one-bit state and the output
      buffer. A comment opener bumps the position past its second slash. */
  method RemoveJsonComments(data: seq<byte>) returns (out: seq<byte>)
    ensures out == Strip(data)
    ensures IsSubsequence(out, data)
    ensures Breaks(out) == Breaks(data)
  {
    out := [];
    var inComment := false;
    var i := 0;
    while i < |data|
      invariant 0 <= i <= |data|
      invariant out + StripFrom(data, i, inComment) == Strip(data)
      decreases |data| - i
    {
      if data[i] == SLASH && i + 1 < |data| && data[i + 1] == SLASH {
        assert StripFrom(data, i, inComment) == StripFrom(data, i + 2, true);
        inComment := true;
        i := i + 2;
        continue;
      }
      ghost var before := StripFrom(data, i, inComment);
      if inComment && (data[i] == LF || data[i] == CR) {
        inComment := false;
      }
      ghost var rest := StripFrom(data, i + 1, inComment);
      if !inComment {
        assert before == [data[i]] + rest;
        out := out + [data[i]];
      } else {
        assert before == rest;
      }
      i := i + 1;
    }
    StripSubsequence(data, 0, false);
    StripKeepsBreaks(data, 0, false);
    assert data[0..] == data;
  }

  // ---------------------------------------------------------- subsequence

  /** `a` is `b` with some bytes left out, the rest in order. */
  ghost predicate IsSubsequence(a: seq<byte>, b: seq<byte>)
    decreases |b|
  {
    a == [] || (b != [] && ((a[0] == b[0] && IsSubsequence(a[1..], b[1..])) || IsSubsequence(a, b[1..])))
  }

  /** Every written byte is an input byte, written in input order. */
  lemma {:induction false} StripSubsequence(data: seq<byte>, i: nat, inComment: bool)
    requires i <= |data|
    ensures IsSubsequence(StripFrom(data, i, inComment), data[i..])
    ensures |StripFrom(data, i, inComment)| <= |data| - i
    decreases |data| - i
  {
    if i < |data| {
      var out := StripFrom(data, i, inComment);
      assert data[i..][1..] == data[i + 1..];
      if PairAt(data, i) {
        StripSubsequence(data, i + 2, true);
        assert data[i + 1..][1..] == data[i + 2..];
        assert IsSubsequence(out, data[i + 1..]);
      } else {
        var c := if inComment && IsBreak(data[i]) then false else inComment;
        StripSubsequence(data, i + 1, c);
        var rest := StripFrom(data, i + 1, c);
        if !c {
          assert out == [data[i]] + rest;
          assert out[0] == data[i..][0] && out[1..] == rest;
        } else {
          assert out == rest;
        }
      }
    }
  }

  // ---------------------------------------------------------- line breaks

  /** The line-break bytes of `s`, in order. */
  function Breaks(s: seq<byte>): (r: seq<byte>)
    ensures forall k :: 0 <= k < |r| ==> IsBreak(r[k])
  {
    if s == [] then [] else (if IsBreak(s[0]) then [s[0]] else []) + Breaks(s[1..])
  }

  /** Every line break of the input is written, in order, and no other. */
  lemma {:induction false} StripKeepsBreaks(data: seq<byte>, i: nat, inComment: bool)
    requires i <= |data|
    ensures Breaks(StripFrom(data, i, inComment)) == Breaks(data[i..])
    decreases |data| - i
  {
    if i < |data| {
      var out := StripFrom(data, i, inComment);
      assert data[i..][1..] == data[i + 1..];
      if PairAt(data, i) {
        StripKeepsBreaks(data, i + 2, true);
        assert data[i + 1..][1..] == data[i + 2..];
      } else {
        var c := if inComment && IsBreak(data[i]) then false else inComment;
        StripKeepsBreaks(data, i + 1, c);
        var rest := StripFrom(data, i + 1, c);
        if !c {
          assert out == [data[i]] + rest;
          assert out[0] == data[i] && out[1..] == rest;
        } else {
          assert out == rest;
        }
      }
    }
  }

  // ---------------------------------------------------------- no comments, idempotence

  /** Without a `//` the scanner never enters a comment and writes everything. */
  lemma {:induction false} NoPairUnchanged(data: seq<byte>, i: nat)
    requires NoPair(data) && i <= |data|
    ensures StripFrom(data, i, false) == data[i..]
    decreases |data| - i
  {
    if i < |data| {
      NoPairUnchanged(data, i + 1);
      assert data[i..] == [data[i]] + data[i + 1..];
    }
  }

  /** An input with no `//` comes out unchanged. */
  lemma StripWithoutComments(data: seq<byte>)
    requires NoPair(data)
    ensures Strip(data) == data
  {
    NoPairUnchanged(data, 0);
    assert data[0..] == data;
  }

  /** Outside a comment, a byte other than a slash is written first. */
  lemma WritesPlainByte(data: seq<byte>, i: nat)
    requires i < |data| && data[i] != SLASH
    ensures StripFrom(data, i, false) == [data[i]] + StripFrom(data, i + 1, false)
  {
  }

  /** Prepending a byte keeps NoPair unless it makes a new `//`. */
  lemma NoPairCons(b: byte, s: seq<byte>)
    requires NoPair(s)
    requires b != SLASH || s == [] || s[0] != SLASH
    ensures NoPair([b] + s)
  {
    var t := [b] + s;
    forall i | 0 <= i < |t| - 1 ensures !(t[i] == SLASH && t[i + 1] == SLASH) {
      if i > 0 {
        assert t[i] == s[i - 1] && t[i + 1] == s[i];
      }
    }
  }

  /** The scanner never writes two slashes in a row. */
  lemma {:induction false} StripNoPair(data: seq<byte>, i: nat, inComment: bool)
    requires i <= |data|
    ensures NoPair(StripFrom(data, i, inComment))
    decreases |data| - i
  {
    if i < |data| {
      if PairAt(data, i) {
        StripNoPair(data, i + 2, true);
      } else {
        var c := if inComment && IsBreak(data[i]) then false else inComment;
        StripNoPair(data, i + 1, c);
        if !c {
          if i + 1 < |data| && data[i] == SLASH {
            WritesPlainByte(data, i + 1);
          }
          NoPairCons(data[i], StripFrom(data, i + 1, c));
        }
      }
    }
  }

  /** Stripping twice is stripping once. */
  lemma StripIdempotent(data: seq<byte>)
    ensures Strip(Strip(data)) == Strip(data)
  {
    StripNoPair(data, 0, false);
    StripWithoutComments(Strip(data));
  }

  // ---------------------------------------------------------- how a comment ends

  /** The scanner's output from `k` on does not depend on what lies before `k`. */
  lemma {:induction false} StripShift(a: seq<byte>, t: seq<byte>, k: nat, inComment: bool)
    requires k <= |t|
    ensures StripFrom(a + t, |a| + k, inComment) == StripFrom(t, k, inComment)
    decreases |t| - k
  {
    if k < |t| {
      var data := a + t;
      assert data[|a| + k] == t[k];
      assert |a| + k + 1 < |data| ==> data[|a| + k + 1] == t[k + 1];
      assert PairAt(data, |a| + k) == PairAt(t, k);
      if PairAt(t, k) {
        StripShift(a, t, k + 2, true);
      } else {
        var c := if inComment && IsBreak(t[k]) then false else inComment;
        StripShift(a, t, k + 1, c);
      }
    }
  }

  /** Inside a comment, everything up to the next line break is dropped and
      the break is written, which ends the comment. */
  lemma {:induction false} CommentRunsToBreak(data: seq<byte>, k: nat, j: nat)
    requires k <= j < |data| && IsBreak(data[j])
    requires forall m :: k <= m < j ==> !IsBreak(data[m])
    ensures StripFrom(data, k, true) == [data[j]] + StripFrom(data, j + 1, false)
    decreases j - k
  {
    if k < j {
      if PairAt(data, k) {
        CommentRunsToBreak(data, k + 2, j);
      } else {
        CommentRunsToBreak(data, k + 1, j);
      }
    }
  }

  /** Inside a comment with no line break after it, nothing more is written. */
  lemma {:induction false} CommentRunsToEnd(data: seq<byte>, k: nat)
    requires k <= |data|
    requires forall m :: k <= m < |data| ==> !IsBreak(data[m])
    ensures StripFrom(data, k, true) == []
    decreases |data| - k
  {
    if k < |data| {
      if PairAt(data, k) {
        CommentRunsToEnd(data, k + 2);
      } else {
        CommentRunsToEnd(data, k + 1);
      }
    }
  }

  /** A prefix without `//` that does not end in a slash is written as it is,
      and the scanner leaves it outside a comment. */
  lemma PlainPrefix(p: seq<byte>, t: seq<byte>)
    requires NoPair(p) && (p == [] || p[|p| - 1] != SLASH)
    ensures Strip(p + t) == p + Strip(t)
  {
    PlainPrefixFrom(p, t, 0);
    StripShift(p, t, 0, false);
    assert p[0..] == p;
  }

  lemma {:induction false} PlainPrefixFrom(p: seq<byte>, t: seq<byte>, k: nat)
    requires NoPair(p) && (p == [] || p[|p| - 1] != SLASH)
    requires k <= |p|
    ensures StripFrom(p + t, k, false) == p[k..] + StripFrom(p + t, |p|, false)
    decreases |p| - k
  {
    if k < |p| {
      var data := p + t;
      assert data[k] == p[k];
      if k + 1 < |p| {
        assert data[k + 1] == p[k + 1];
        assert !(p[k] == SLASH && p[k + 1] == SLASH);
      } else {
        assert p[k] != SLASH;
      }
      assert StripFrom(data, k, false) == [p[k]] + StripFrom(data, k + 1, false);
      PlainPrefixFrom(p, t, k + 1);
      assert p[k..] == [p[k]] + p[k + 1..];
    }
  }

  /** A `//` comment on a line of its own or after plain text is dropped up
      to, but not including, the line break that ends it. */
  lemma CommentLine(p: seq<byte>, body: seq<byte>, b: byte, rest: seq<byte>)
    requires NoPair(p) && (p == [] || p[|p| - 1] != SLASH)
    requires forall m :: 0 <= m < |body| ==> !IsBreak(body[m])
    requires IsBreak(b)
    ensures Strip(p + [SLASH, SLASH] + body + [b] + rest) == p + [b] + Strip(rest)
  {
    var head := [SLASH, SLASH] + body + [b];
    var t := head + rest;
    assert p + [SLASH, SLASH] + body + [b] + rest == p + t;
    PlainPrefix(p, t);
    assert PairAt(t, 0);
    assert Strip(t) == StripFrom(t, 2, true);
    var j := 2 + |body|;
    assert t[j] == b;
    assert forall m :: 2 <= m < j ==> t[m] == body[m - 2];
    CommentRunsToBreak(t, 2, j);
    StripShift(head, rest, 0, false);
  }

  /** A `//` comment that runs to the end of the input is dropped entirely. */
  lemma CommentAtEnd(p: seq<byte>, body: seq<byte>)
    requires NoPair(p) && (p == [] || p[|p| - 1] != SLASH)
    requires forall m :: 0 <= m < |body| ==> !IsBreak(body[m])
    ensures Strip(p + [SLASH, SLASH] + body) == p
  {
    var t := [SLASH, SLASH] + body;
    assert p + [SLASH, SLASH] + body == p + t;
    PlainPrefix(p, t);
    assert PairAt(t, 0);
    assert forall m :: 2 <= m < |t| ==> t[m] == body[m - 2];
    CommentRunsToEnd(t, 2);
  }

  /** A single slash as the very last byte opens no comment and is written. */
  lemma TrailingSlashKept(p: seq<byte>)
    requires NoPair(p) && (p == [] || p[|p| - 1] != SLASH)
    ensures Strip(p + [SLASH]) == p + [SLASH]
  {
    PlainPrefix(p, [SLASH]);
    assert !PairAt([SLASH], 0);
    assert StripFrom([SLASH], 1, false) == [];
  }

  /** The bytes of `"http://x"`, quotes included: the scanner does not know
      the slashes are inside a string and cuts the value after `http:`. */
  lemma QuotedSlashesStartComment()
    ensures Strip([34, 104, 116, 116, 112, 58, 47, 47, 120, 34]) == [34, 104, 116, 116, 112, 58]
  {
    var p: seq<byte> := [34, 104, 116, 116, 112, 58];
    var body: seq<byte> := [120, 34];
    assert NoPair(p);
    assert p + [SLASH, SLASH] + body == [34, 104, 116, 116, 112, 58, 47, 47, 120, 34];
    CommentAtEnd(p, body);
    assert Strip(p + [SLASH, SLASH] + body) == p;
  }
}
