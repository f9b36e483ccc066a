/**
 * Removal of skipped blocks (`removeSkippedBlocks`): the rewrite of
 * `/{[^{.]+:SKIP:}/` to the empty string, repeated until it no longer
 * matches, followed by the deletion of every remaining brace.
 */
module SkipBlocks {
  import opened Values

  /** The text that closes a skipped block: the marker and a closing brace. */
  function Closer(): string { Skip() + "}" }

  /** The characters the class `[^{.]` admits. */
  predicate InBody(c: char)
  {
    c != '{' && c != '.'
  }

  /** The seven characters that end at index `e` of `s` are the closer. */
  predicate ClosesAt(s: string, e: int)
  {
    7 <= e <= |s| && s[e - 7..e] == Closer()
  }

  /**
   * `s` starts with a match of the pattern that ends at index `e`: an opening
   * brace, at least one body character, the closer, and no `{` or `.` after
   * the opening brace (the closer has neither, so this covers the body).
   */
  ghost predicate IsBlock(s: string, e: int)
  {
    9 <= e && ClosesAt(s, e) && s[0] == '{' && forall k :: 0 < k < e ==> InBody(s[k])
  }

  /** No position of `s` starts a match. */
  ghost predicate NoBlock(s: string)
  {
    forall i, e :: 0 <= i < |s| ==> !IsBlock(s[i..], e)
  }

  /** The end of the maximal run of body characters that starts at `i`. */
  function RunEnd(s: string, i: nat): (q: nat)
    requires i <= |s|
    ensures i <= q <= |s|
    ensures forall k :: i <= k < q ==> InBody(s[k])
    ensures q < |s| ==> !InBody(s[q])
    decreases |s| - i
  {
    if i == |s| || !InBody(s[i]) then i else RunEnd(s, i + 1)
  }

  /** The greedy backtracking step: the last end at or below `hi` where the closer sits. */
  function LastCloser(s: string, hi: nat): (m: Option<nat>)
    requires hi <= |s|
    ensures m.Some? ==> 9 <= m.value <= hi && ClosesAt(s, m.value)
    ensures forall e :: 9 <= e <= hi && (m.None? || m.value < e) ==> !ClosesAt(s, e)
    decreases hi
  {
    if hi < 9 then None
    else if s[hi - 7..hi] == Closer() then Some(hi)
    else LastCloser(s, hi - 1)
  }

  /** Where the match that starts at the front of `s` ends, if there is one; greedy. */
  function BlockEnd(s: string): (m: Option<nat>)
    ensures m.Some? ==> IsBlock(s, m.value) && forall e :: IsBlock(s, e) ==> e <= m.value
    ensures m.None? ==> forall e :: !IsBlock(s, e)
  {
    if s == [] || s[0] != '{' then None
    else
      var q := RunEnd(s, 1);
      var m := LastCloser(s, q);
      assert forall e :: q < e ==> !IsBlock(s, e) by {
        forall e | q < e ensures !IsBlock(s, e) {
          if q < |s| { assert !InBody(s[q]); }
        }
      }
      m
  }

  lemma NoBlockStep(s: string)
    requires s != []
    ensures NoBlock(s) <==> BlockEnd(s).None? && NoBlock(s[1..])
  {
    if BlockEnd(s).Some? {
      assert s[0..] == s;
      assert IsBlock(s[0..], BlockEnd(s).value);
    }
    if BlockEnd(s).None? && NoBlock(s[1..]) {
      forall i, e | 0 <= i < |s| ensures !IsBlock(s[i..], e) {
        if i > 0 {
          assert s[i..] == s[1..][i - 1..];
        } else {
          assert s[0..] == s;
        }
      }
    }
    if NoBlock(s) {
      forall i, e | 0 <= i < |s| - 1 ensures !IsBlock(s[1..][i..], e) {
        assert s[1..][i..] == s[i + 1..];
      }
    }
  }

  /**
   * One global `preg_replace` pass: every match found scanning left to right
   * is deleted and the scan resumes after it; the count is the number of
   * matches deleted.
   */
  function Pass(s: string): (res: (string, nat))
    ensures |res.0| + 9 * res.1 <= |s|
    ensures res.1 == 0 ==> res.0 == s
    decreases |s|
  {
    if s == [] then ("", 0)
    else
      match BlockEnd(s)
      case Some(e) =>
        var rest := Pass(s[e..]);
        (rest.0, rest.1 + 1)
      case None =>
        var rest := Pass(s[1..]);
        assert rest.1 == 0 ==> [s[0]] + rest.0 == s;
        ([s[0]] + rest.0, rest.1)
  }

  /** A pass deletes nothing exactly when no position of the text starts a match. */
  lemma {:induction false} PassFindsEveryBlock(s: string)
    ensures Pass(s).1 == 0 <==> NoBlock(s)
    decreases |s|
  {
    if s != [] {
      NoBlockStep(s);
      if BlockEnd(s).None? {
        PassFindsEveryBlock(s[1..]);
      }
    }
  }

  /** `str_replace(["{", "}"], "", s)`. */
  function StripBraces(s: string): (r: string)
    ensures forall k :: 0 <= k < |r| ==> r[k] != '{' && r[k] != '}'
    ensures (forall k :: 0 <= k < |s| ==> s[k] != '{' && s[k] != '}') ==> r == s
    decreases |s|
  {
    if s == [] then ""
    else (if s[0] == '{' || s[0] == '}' then "" else [s[0]]) + StripBraces(s[1..])
  }

  /** Only braces are dropped: every other character keeps all its occurrences. */
  lemma {:induction false} StripKeepsOthers(s: string)
    ensures forall c :: c != '{' && c != '}' ==> multiset(StripBraces(s))[c] == multiset(s)[c]
    decreases |s|
  {
    if s != [] {
      StripKeepsOthers(s[1..]);
      assert s == [s[0]] + s[1..];
    }
  }

  /**
   * The remover's meaning: passes repeat while they delete something (each
   * such pass shortens the text); then the braces go.
   */
  function RemoveSkipped(s: string): (r: string)
    ensures forall k :: 0 <= k < |r| ==> r[k] != '{' && r[k] != '}'
    decreases |s|
  {
    var pass := Pass(s);
    if pass.1 == 0 then StripBraces(s) else RemoveSkipped(pass.0)
  }

  /** `removeSkippedBlocks`: the `while ($count > 0)` loop over `preg_replace`. */
  method RemoveSkippedBlocks(text: string) returns (r: string)
    ensures r == RemoveSkipped(text)
    ensures forall k :: 0 <= k < |r| ==> r[k] != '{' && r[k] != '}'
  {
    var result := text;
    var count: nat := 1;
    while count > 0
      invariant RemoveSkipped(result) == RemoveSkipped(text)
      invariant count == 0 ==> Pass(result).1 == 0
      decreases if count > 0 then |result| + 1 else 0
    {
      var pass := Pass(result);
      result, count := pass.0, pass.1;
    }
    r := StripBraces(result);
  }

  // ---------------------------------------------------------------------
  // Properties of the remover
  // ---------------------------------------------------------------------

  /** Without an opening brace nothing can match. */
  lemma NoOpenBraceNoBlock(s: string)
    requires forall k :: 0 <= k < |s| ==> s[k] != '{'
    ensures NoBlock(s)
  {
    forall i, e | 0 <= i < |s| ensures !IsBlock(s[i..], e) {
      assert s[i..][0] == s[i];
    }
  }

  /** Running the remover on its own output changes nothing. */
  lemma RemoveSkippedIdempotent(s: string)
    ensures RemoveSkipped(RemoveSkipped(s)) == RemoveSkipped(s)
  {
    var r := RemoveSkipped(s);
    NoOpenBraceNoBlock(r);
    PassFindsEveryBlock(r);
  }

  /** When no block can be removed, every character but the braces is kept in place. */
  lemma NothingRemovableKeepsText(s: string)
    requires NoBlock(s)
    ensures RemoveSkipped(s) == StripBraces(s)
  {
    PassFindsEveryBlock(s);
  }

  /** A match needs the closer; where it never occurs no position starts one. */
  lemma NoCloserNoBlock(s: string)
    requires forall e :: !ClosesAt(s, e)
    ensures NoBlock(s)
  {
    forall i, e | 0 <= i < |s| ensures !IsBlock(s[i..], e) {
      if 7 <= e <= |s| - i {
        var t := s[i..];
        assert forall k :: e - 7 <= k < e ==> t[k] == s[i + k];
        assert t[e - 7..e] == s[i + e - 7..i + e];
        assert !ClosesAt(s, i + e);
      }
    }
  }

  /** Blocks are removed only where the closer occurs; without it the whole text is kept. */
  lemma WithoutCloserNothingRemoved(s: string)
    requires forall e :: !ClosesAt(s, e)
    ensures RemoveSkipped(s) == StripBraces(s)
  {
    NoCloserNoBlock(s);
    NothingRemovableKeepsText(s);
  }

  /** `a` is `b` with some characters deleted (greedy matching from the front). */
  ghost predicate IsSubsequence(a: string, b: string)
    decreases |b|
  {
    if a == [] then true
    else if b == [] then false
    else if a[0] == b[0] then IsSubsequence(a[1..], b[1..])
    else IsSubsequence(a, b[1..])
  }

  lemma {:induction false} SubsequenceRefl(a: string)
    ensures IsSubsequence(a, a)
    decreases |a|
  {
    if a != [] { SubsequenceRefl(a[1..]); }
  }

  lemma {:induction false} SubsequenceDropHead(a: string, b: string)
    requires a != [] && IsSubsequence(a, b)
    ensures IsSubsequence(a[1..], b)
    decreases |b|, 0
  {
    if a[1..] != [] && b != [] {
      if a[0] == b[0] {
        SubsequenceSkip(a[1..], b[1..], b[0]);
        assert [b[0]] + b[1..] == b;
      } else {
        SubsequenceDropHead(a, b[1..]);
        SubsequenceSkip(a[1..], b[1..], b[0]);
        assert [b[0]] + b[1..] == b;
      }
    }
  }

  lemma {:induction false} SubsequenceSkip(a: string, b: string, c: char)
    requires IsSubsequence(a, b)
    ensures IsSubsequence(a, [c] + b)
    decreases |b|, 1
  {
    var cb := [c] + b;
    assert cb[1..] == b;
    if a != [] && a[0] == c {
      SubsequenceDropHead(a, b);
    }
  }

  lemma {:induction false} SubsequenceOfSuffix(a: string, s: string, e: nat)
    requires e <= |s| && IsSubsequence(a, s[e..])
    ensures IsSubsequence(a, s)
    decreases e
  {
    if e > 0 {
      assert s[e - 1..] == [s[e - 1]] + s[e..];
      SubsequenceSkip(a, s[e..], s[e - 1]);
      SubsequenceOfSuffix(a, s, e - 1);
    } else {
      assert s[0..] == s;
    }
  }

  lemma {:induction false} SubsequenceTrans(a: string, b: string, c: string)
    requires IsSubsequence(a, b) && IsSubsequence(b, c)
    ensures IsSubsequence(a, c)
    decreases |c|
  {
    if a != [] && b != [] && c != [] {
      if b[0] == c[0] {
        if a[0] == b[0] {
          SubsequenceTrans(a[1..], b[1..], c[1..]);
        } else {
          SubsequenceTrans(a, b[1..], c[1..]);
        }
      } else {
        SubsequenceTrans(a, b, c[1..]);
        if a[0] == c[0] {
          SubsequenceDropHead(a, c[1..]);
        }
      }
    }
  }

  lemma {:induction false} PassIsSubsequence(s: string)
    ensures IsSubsequence(Pass(s).0, s)
    decreases |s|
  {
    if s != [] {
      match BlockEnd(s)
      case Some(e) =>
        PassIsSubsequence(s[e..]);
        SubsequenceOfSuffix(Pass(s).0, s, e);
      case None =>
        PassIsSubsequence(s[1..]);
        var r := Pass(s).0;
        assert r == [s[0]] + Pass(s[1..]).0;
        assert r[1..] == Pass(s[1..]).0;
    }
  }

  lemma {:induction false} StripIsSubsequence(s: string)
    ensures IsSubsequence(StripBraces(s), s)
    decreases |s|
  {
    if s != [] {
      StripIsSubsequence(s[1..]);
      if s[0] == '{' || s[0] == '}' {
        assert StripBraces(s) == StripBraces(s[1..]);
        SubsequenceSkip(StripBraces(s[1..]), s[1..], s[0]);
        assert [s[0]] + s[1..] == s;
      } else {
        var r := StripBraces(s);
        assert r == [s[0]] + StripBraces(s[1..]);
        assert r[1..] == StripBraces(s[1..]);
      }
    }
  }

  /** The remover only deletes characters: what is kept stays in its original order. */
  lemma {:induction false} RemoveSkippedIsSubsequence(s: string)
    ensures IsSubsequence(RemoveSkipped(s), s)
    decreases |s|
  {
    var pass := Pass(s);
    if pass.1 == 0 {
      StripIsSubsequence(s);
    } else {
      RemoveSkippedIsSubsequence(pass.0);
      PassIsSubsequence(s);
      SubsequenceTrans(RemoveSkipped(s), pass.0, s);
    }
  }

  /**
   * Where no block starts, the pass copies the first character and goes on
   * (this is so whenever the text does not start with `{`).
   */
  lemma PassSkipsHead(s: string)
    requires s != [] && BlockEnd(s).None?
    ensures Pass(s) == ([s[0]] + Pass(s[1..]).0, Pass(s[1..]).1)
  {
  }

  lemma {:induction false} PassPlainPrefix(a: string, b: string)
    requires forall k :: 0 <= k < |a| ==> a[k] != '{'
    ensures Pass(a + b) == (a + Pass(b).0, Pass(b).1)
    decreases |a|
  {
    if a == [] {
      assert a + b == b && a + Pass(b).0 == Pass(b).0;
    } else {
      var s := a + b;
      var t := a[1..] + b;
      assert s[0] == a[0] && s[1..] == t;
      assert Pass(s) == ([a[0]] + Pass(t).0, Pass(t).1) by {
        assert BlockEnd(s).None?;
        PassSkipsHead(s);
      }
      PassPlainPrefix(a[1..], b);
      var pb := Pass(b);
      assert Pass(t) == (a[1..] + pb.0, pb.1);
      assert Pass(s) == ([a[0]] + (a[1..] + pb.0), pb.1);
      assert [a[0]] + (a[1..] + pb.0) == a + pb.0;
      assert Pass(s) == (a + pb.0, pb.1);
    }
  }

  lemma {:induction false} StripPlainPrefix(a: string, b: string)
    requires forall k :: 0 <= k < |a| ==> a[k] != '{' && a[k] != '}'
    ensures StripBraces(a + b) == a + StripBraces(b)
    decreases |a|
  {
    if a != [] {
      assert (a + b)[0] == a[0];
      assert (a + b)[1..] == a[1..] + b;
      StripPlainPrefix(a[1..], b);
      assert a == [a[0]] + a[1..];
    } else {
      assert a + b == b;
    }
  }

  /** Text before the first brace is never touched by the remover. */
  lemma {:induction false} PlainPrefixKept(a: string, b: string)
    requires forall k :: 0 <= k < |a| ==> a[k] != '{' && a[k] != '}'
    ensures RemoveSkipped(a + b) == a + RemoveSkipped(b)
    decreases |b|
  {
    PassPlainPrefix(a, b);
    var pass := Pass(b);
    if pass.1 == 0 {
      StripPlainPrefix(a, b);
    } else {
      PlainPrefixKept(a, pass.0);
    }
  }

  /** Text with no braces at all comes out as it went in. */
  lemma BraceFreeUnchanged(s: string)
    requires forall k :: 0 <= k < |s| ==> s[k] != '{' && s[k] != '}'
    ensures RemoveSkipped(s) == s
  {
    NoOpenBraceNoBlock(s);
    NothingRemovableKeepsText(s);
  }

  /**
   * A skipped block followed by text with no `{` and no `:` is deleted
   * whole; only the braces of the following text go.
   */
  lemma BlockThenPlain(blk: string, b: string)
    requires IsBlock(blk, |blk|)
    requires forall k :: 0 <= k < |b| ==> b[k] != '{' && b[k] != ':'
    ensures Pass(blk + b) == (b, 1)
    ensures RemoveSkipped(blk + b) == StripBraces(b)
  {
    var x := blk + b;
    assert x[..|blk|] == blk;
    assert IsBlock(x, |blk|) by {
      assert x[|blk| - 7..|blk|] == blk[|blk| - 7..|blk|];
    }
    assert Closer()[5] == ':' && Closer()[6] == '}';
    assert blk[|blk| - 1] == blk[|blk| - 7..|blk|][6];
    forall e | |blk| < e <= |x| ensures !ClosesAt(x, e) {
      if e - 2 >= |blk| {
        assert x[e - 2] == b[e - 2 - |blk|];
      } else {
        assert x[e - 2] == blk[|blk| - 1];
      }
      if 7 <= e { assert x[e - 7..e][5] == x[e - 2]; }
    }
    assert BlockEnd(x) == Some(|blk|);
    assert x[|blk|..] == b;
    NoOpenBraceNoBlock(b);
    PassFindsEveryBlock(b);
    assert Pass(x) == (b, Pass(b).1 + 1);
  }

  /** Without a `:` the marker cannot close a block, so only the braces go. */
  lemma NoColonNothingRemoved(s: string)
    requires forall k :: 0 <= k < |s| ==> s[k] != ':'
    ensures RemoveSkipped(s) == StripBraces(s)
  {
    assert Closer()[5] == ':';
    forall e | 7 <= e <= |s| ensures !ClosesAt(s, e) {
      assert s[e - 7..e][5] == s[e - 2];
    }
    WithoutCloserNothingRemoved(s);
  }

  lemma DotNoBlock(a: string, b: string)
    requires forall k :: 0 <= k < |a| ==> a[k] != '{' && a[k] != '}'
    requires forall k :: 0 <= k < |b| ==> b[k] != '{' && b[k] != '}'
    ensures NoBlock("{" + (a + "." + b) + "}")
  {
    var s := "{" + (a + "." + b) + "}";
    var d := |a| + 1;
    assert s[d] == '.';
    forall k | 1 <= k < d ensures s[k] != '{' && s[k] != '}' {
      assert s[k] == a[k - 1];
    }
    forall k | d < k < |s| - 1 ensures s[k] != '{' {
      assert s[k] == b[k - d - 1];
    }
    forall i, e | 0 <= i < |s| ensures !IsBlock(s[i..], e) {
      if i > 0 {
        assert s[i..][0] == s[i];
      } else {
        assert s[0..] == s;
        if e > d {
          assert !InBody(s[d]);
        } else if 7 <= e {
          assert s[e - 7..e][6] == s[e - 1];
        }
      }
    }
  }

  lemma BraceFreeAppend(a: string, b: string)
    requires forall k :: 0 <= k < |a| ==> a[k] != '{' && a[k] != '}'
    requires forall k :: 0 <= k < |b| ==> b[k] != '{' && b[k] != '}'
    ensures forall k :: 0 <= k < |a + b| ==> (a + b)[k] != '{' && (a + b)[k] != '}'
  {
    forall k | 0 <= k < |a + b| ensures (a + b)[k] != '{' && (a + b)[k] != '}' {
      if k >= |a| { assert (a + b)[k] == b[k - |a|]; }
    }
  }

  /** Only the two braces around brace-free text go. */
  lemma StripEnclosing(m: string)
    requires forall k :: 0 <= k < |m| ==> m[k] != '{' && m[k] != '}'
    ensures StripBraces("{" + m + "}") == m
  {
    var s := "{" + m + "}";
    assert s[0] == '{' && s[1..] == m + "}";
    StripPlainPrefix(m, "}");
    assert StripBraces("}") == "";
  }

  /**
   * The body class `[^{.]` excludes `.`: a brace whose body reaches a `.`
   * before any `}` is never removed, marker or not; only braces go.
   */
  lemma DotKeepsBlock(a: string, b: string)
    requires forall k :: 0 <= k < |a| ==> a[k] != '{' && a[k] != '}'
    requires forall k :: 0 <= k < |b| ==> b[k] != '{' && b[k] != '}'
    ensures RemoveSkipped("{" + (a + "." + b) + "}") == a + "." + b
  {
    var m := a + "." + b;
    BraceFreeAppend(a, ".");
    BraceFreeAppend(a + ".", b);
    StripEnclosing(m);
    DotNoBlock(a, b);
    NothingRemovableKeepsText("{" + m + "}");
  }

  /** A brace, a non-empty body of admitted characters, the marker and `}`: a block running to the end. */
  lemma MarkedBody(m: string)
    requires m != [] && forall k :: 0 <= k < |m| ==> InBody(m[k])
    ensures IsBlock("{" + m + Closer(), |m| + 8)
  {
    var s := "{" + m + Closer();
    assert s[|s| - 7..] == Closer();
    forall k | 0 < k < |s| ensures InBody(s[k]) {
      if k <= |m| {
        assert s[k] == m[k - 1];
      } else {
        assert s[k] == Closer()[k - |m| - 1];
      }
    }
  }

  /** The first pass over a block nested at the front of another. */
  lemma InnerPass(m: string, c: string)
    requires m != [] && forall k :: 0 <= k < |m| ==> InBody(m[k])
    requires forall k :: 0 <= k < |c| ==> c[k] != '{' && c[k] != '}' && c[k] != ':'
    ensures Pass("{" + ("{" + m + Closer()) + c + "}") == ("{" + c + "}", 1)
  {
    var blk := "{" + m + Closer();
    var tail := c + "}";
    var s := "{" + blk + c + "}";
    assert s[1..] == blk + tail;
    assert s[1] == '{';
    assert "{" + c + "}" == [s[0]] + tail;
    forall k | 0 <= k < |tail| ensures tail[k] != '{' && tail[k] != ':' {
      if k < |c| { assert tail[k] == c[k]; }
    }
    assert BlockEnd(s).None? by {
      assert !InBody(s[1]);
    }
    PassSkipsHead(s);
    MarkedBody(m);
    BlockThenPlain(blk, tail);
  }

  /** Enclosing text in braces adds no `:`. */
  lemma EnclosedNoColon(c: string)
    requires forall k :: 0 <= k < |c| ==> c[k] != ':'
    ensures forall k :: 0 <= k < |"{" + c + "}"| ==> ("{" + c + "}")[k] != ':'
  {
    var r := "{" + c + "}";
    forall k | 0 <= k < |r| ensures r[k] != ':' {
      if 0 < k <= |c| { assert r[k] == c[k - 1]; }
    }
  }

  /** Text without braces or colons, enclosed in braces, loses just the braces. */
  lemma EnclosedKept(c: string)
    requires forall k :: 0 <= k < |c| ==> c[k] != '{' && c[k] != '}' && c[k] != ':'
    ensures RemoveSkipped("{" + c + "}") == c
  {
    EnclosedNoColon(c);
    NoColonNothingRemoved("{" + c + "}");
    StripEnclosing(c);
  }

  /**
   * A block nested in another goes in the first pass; the outer brace then
   * no longer ends in the marker, so its body stays and only its braces go.
   */
  lemma InnerBlockFirst(m: string, c: string)
    requires m != [] && forall k :: 0 <= k < |m| ==> InBody(m[k])
    requires forall k :: 0 <= k < |c| ==> c[k] != '{' && c[k] != '}' && c[k] != ':'
    ensures RemoveSkipped("{" + ("{" + m + Closer()) + c + "}") == c
  {
    InnerPass(m, c);
    EnclosedKept(c);
  }

  /** A skipped block after brace-free text disappears, the text before it stays. */
  lemma SkippedAfterPlain(p: string, m: string)
    requires forall k :: 0 <= k < |p| ==> p[k] != '{' && p[k] != '}'
    requires m != [] && forall k :: 0 <= k < |m| ==> InBody(m[k])
    ensures RemoveSkipped(p + ("{" + m + Closer())) == p
  {
    var blk := "{" + m + Closer();
    assert blk + "" == blk;
    assert p + "" == p;
    MarkedBody(m);
    BlockThenPlain(blk, "");
    PlainPrefixKept(p, blk);
  }

  /** A block without the marker after brace-free text keeps its body. */
  lemma KeptAfterPlain(p: string, c: string)
    requires forall k :: 0 <= k < |p| ==> p[k] != '{' && p[k] != '}'
    requires forall k :: 0 <= k < |c| ==> c[k] != '{' && c[k] != '}' && c[k] != ':'
    ensures RemoveSkipped(p + ("{" + c + "}")) == p + c
  {
    EnclosedKept(c);
    PlainPrefixKept(p, "{" + c + "}");
  }
}
