/**
 * The driver (`buildQuery`): every `?` token of the template, left to right,
 * takes the next argument and is replaced by its conversion; the replaced
 * text is not scanned again; then skipped blocks are removed.
 */
module QueryBuilder {
  import opened Values
  import opened Converter
  import opened SkipBlocks

  /** The class `[\w#]`: ASCII letters, digits, underscore, and `#`. */
  predicate IsSpecChar(c: char)
  {
    'a' <= c <= 'z' || 'A' <= c <= 'Z' || '0' <= c <= '9' || c == '_' || c == '#'
  }

  /** The specifier of the token at the front of `t`: the next character when it is in `[\w#]`. */
  function TokenSpec(t: string): (sp: string)
    requires t != [] && t[0] == '?'
    ensures 1 + |sp| <= |t|
    ensures sp == t[1..1 + |sp|]
    ensures sp == "" || (|sp| == 1 && IsSpecChar(sp[0]))
    ensures |t| > 1 && IsSpecChar(t[1]) <==> sp != ""
  {
    if |t| > 1 && IsSpecChar(t[1]) then t[1..2] else ""
  }

  /** The specifiers of the template's tokens, in order. */
  function Placeholders(t: string): (ps: seq<string>)
    ensures forall k :: 0 <= k < |ps| ==> ps[k] == "" || (|ps[k]| == 1 && IsSpecChar(ps[k][0]))
    decreases |t|
  {
    if t == [] then []
    else if t[0] == '?' then [TokenSpec(t)] + Placeholders(t[1 + |TokenSpec(t)|..])
    else Placeholders(t[1..])
  }

  function CountQuestionMarks(t: string): nat
    decreases |t|
  {
    if t == [] then 0 else (if t[0] == '?' then 1 else 0) + CountQuestionMarks(t[1..])
  }

  /** A specifier is never `?`, so every `?` of the template starts a token of its own. */
  lemma {:induction false} OneTokenPerQuestionMark(t: string)
    ensures |Placeholders(t)| == CountQuestionMarks(t)
    decreases |t|
  {
    if t != [] {
      if t[0] == '?' {
        var sp := TokenSpec(t);
        OneTokenPerQuestionMark(t[1 + |sp|..]);
        if sp != "" {
          assert t[1..][1..] == t[2..];
          assert CountQuestionMarks(t[1..]) == CountQuestionMarks(t[2..]);
        }
      } else {
        OneTokenPerQuestionMark(t[1..]);
      }
    }
  }

  function Prepend(s: string, r: Result<string>): Result<string>
  {
    if r.Success? then Success(s + r.value) else r
  }

  lemma PrependTwice(a: string, b: string, r: Result<string>)
    ensures Prepend(a, Prepend(b, r)) == Prepend(a + b, r)
  {
    if r.Success? { assert a + (b + r.value) == (a + b) + r.value; }
  }

  /** The substitution of `preg_replace_callback` with its argument callback. */
  function Substitute(t: string, args: seq<Value>, lib: Filters): (r: Result<string>)
    ensures r.Success? ==> |Placeholders(t)| <= |args|
    decreases |t|
  {
    if t == [] then Success("")
    else if t[0] == '?' then
      var sp := TokenSpec(t);
      if args == [] then Failure(NotEnoughParams)
      else
        var x := ConvertParam(args[0], sp, false, lib);
        if x.Failure? then Failure(x.error)
        else Prepend(x.value, Substitute(t[1 + |sp|..], args[1..], lib))
    else Prepend([t[0]], Substitute(t[1..], args, lib))
  }

  /** `buildQuery`'s meaning: the substitution, then the skipped-block removal. */
  function Build(query: string, args: seq<Value>, lib: Filters): (r: Result<string>)
    ensures r.Success? ==> forall k :: 0 <= k < |r.value| ==> r.value[k] != '{' && r.value[k] != '}'
    ensures r.Failure? <==> Substitute(query, args, lib).Failure?
  {
    match Substitute(query, args, lib)
    case Success(s) => Success(RemoveSkipped(s))
    case Failure(e) => Failure(e)
  }

  /** One token of the scan, with at least one argument left. */
  lemma ScanToken(query: string, i: nat, args: seq<Value>, next: nat, lib: Filters)
    requires i < |query| && query[i] == '?' && next < |args|
    ensures var sp := TokenSpec(query[i..]);
      var c := ConvertParam(args[next], sp, false, lib);
      i + 1 + |sp| <= |query| &&
      Substitute(query[i..], args[next..], lib) ==
        if c.Failure? then Failure(c.error) else Prepend(c.value, Substitute(query[i + 1 + |sp|..], args[next + 1..], lib))
  {
    var sp := TokenSpec(query[i..]);
    assert args[next..][1..] == args[next + 1..];
    assert query[i..][1 + |sp|..] == query[i + 1 + |sp|..];
  }

  /** One character of plain text in the scan. */
  lemma ScanPlain(query: string, i: nat, args: seq<Value>, lib: Filters)
    requires i < |query| && query[i] != '?'
    ensures Substitute(query[i..], args, lib) == Prepend([query[i]], Substitute(query[i + 1..], args, lib))
  {
    assert query[i..][1..] == query[i + 1..];
  }

  /**
   * `buildQuery`: the scan over the template, with a cursor into the
   * arguments standing for `array_shift` on the caller's list.
   */
  method BuildQuery(query: string, args: seq<Value>, lib: Filters) returns (r: Result<string>)
    ensures r == Build(query, args, lib)
  {
    var out := "";
    var i := 0;
    var next := 0;
    assert query[0..] == query && args[0..] == args;
    assert Prepend(out, Substitute(query, args, lib)) == Substitute(query, args, lib) by {
      var s := Substitute(query, args, lib);
      if s.Success? { assert "" + s.value == s.value; }
    }
    while i < |query|
      invariant 0 <= i <= |query| && 0 <= next <= |args|
      invariant Substitute(query, args, lib) == Prepend(out, Substitute(query[i..], args[next..], lib))
      decreases |query| - i
    {
      if query[i] == '?' {
        var sp := TokenSpec(query[i..]);
        if next == |args| {
          return Failure(NotEnoughParams);
        }
        var arg := args[next];
        var piece := ConvertParam(arg, sp, false, lib);
        ScanToken(query, i, args, next, lib);
        if piece.Failure? {
          return Failure(piece.error);
        }
        next := next + 1;
        PrependTwice(out, piece.value, Substitute(query[i + 1 + |sp|..], args[next..], lib));
        out := out + piece.value;
        i := i + 1 + |sp|;
      } else {
        ScanPlain(query, i, args[next..], lib);
        PrependTwice(out, [query[i]], Substitute(query[i + 1..], args[next..], lib));
        out := out + [query[i]];
        i := i + 1;
      }
    }
    assert out + "" == out;
    var cleaned := RemoveSkippedBlocks(out);
    r := Success(cleaned);
  }

  // ---------------------------------------------------------------------
  // Properties of the substitution
  // ---------------------------------------------------------------------

  /** The first `n` arguments convert under the first `n` specifiers. */
  ghost predicate ConvertsFirst(args: seq<Value>, ps: seq<string>, n: int, lib: Filters)
  {
    forall k :: 0 <= k < n && k < |args| && k < |ps| ==> ConvertParam(args[k], ps[k], false, lib).Success?
  }

  lemma ConvertsFirstShift(args: seq<Value>, ps: seq<string>, n: nat, lib: Filters)
    requires args != [] && ps != []
    ensures ConvertsFirst(args, ps, n + 1, lib) <==>
      ConvertParam(args[0], ps[0], false, lib).Success? && ConvertsFirst(args[1..], ps[1..], n, lib)
  {
    if ConvertParam(args[0], ps[0], false, lib).Success? && ConvertsFirst(args[1..], ps[1..], n, lib) {
      forall k | 0 <= k < n + 1 && k < |args| && k < |ps|
        ensures ConvertParam(args[k], ps[k], false, lib).Success?
      {
        if k > 0 { assert args[k] == args[1..][k - 1] && ps[k] == ps[1..][k - 1]; }
      }
    }
    if ConvertsFirst(args, ps, n + 1, lib) {
      forall k | 0 <= k < n && k < |args| - 1 && k < |ps| - 1
        ensures ConvertParam(args[1..][k], ps[1..][k], false, lib).Success?
      {
        assert args[1..][k] == args[k + 1] && ps[1..][k] == ps[k + 1];
      }
    }
  }

  /**
   * The substitution succeeds exactly when there are enough arguments and
   * each token's argument converts under the token's specifier.
   */
  lemma {:induction false} SubstituteSucceeds(t: string, args: seq<Value>, lib: Filters)
    ensures var ps := Placeholders(t);
      Substitute(t, args, lib).Success? <==>
        |ps| <= |args| && forall k :: 0 <= k < |ps| ==> ConvertParam(args[k], ps[k], false, lib).Success?
    decreases |t|
  {
    var ps := Placeholders(t);
    if t != [] {
      if t[0] == '?' {
        var sp := TokenSpec(t);
        var rest := t[1 + |sp|..];
        SubstituteSucceeds(rest, if args == [] then [] else args[1..], lib);
        if args != [] {
          ConvertsFirstShift(args, ps, |ps| - 1, lib);
          assert ps[1..] == Placeholders(rest);
        }
      } else {
        SubstituteSucceeds(t[1..], args, lib);
      }
    }
  }

  /**
   * "Not enough params!" is raised exactly when the tokens outnumber the
   * arguments and every argument before the missing one converted.
   */
  lemma {:induction false} NotEnoughParamsExactly(t: string, args: seq<Value>, lib: Filters)
    ensures var ps := Placeholders(t);
      Substitute(t, args, lib) == Failure(NotEnoughParams) <==>
        |ps| > |args| && forall k :: 0 <= k < |args| ==> ConvertParam(args[k], ps[k], false, lib).Success?
    decreases |t|
  {
    var ps := Placeholders(t);
    if t != [] {
      if t[0] == '?' {
        var sp := TokenSpec(t);
        var rest := t[1 + |sp|..];
        if args != [] {
          NotEnoughParamsExactly(rest, args[1..], lib);
          ConvertsFirstShift(args, ps, |args| - 1, lib);
          assert ps[1..] == Placeholders(rest);
        }
      } else {
        NotEnoughParamsExactly(t[1..], args, lib);
      }
    }
  }

  /** A first failing conversion among the later tokens, seen from the whole list. */
  lemma FirstFailureShift(args: seq<Value>, ps: seq<string>, k: nat, lib: Filters, e: Error)
    requires args != [] && ps != [] && ConvertParam(args[0], ps[0], false, lib).Success?
    requires k < |ps| - 1 && k < |args| - 1
    requires ConvertParam(args[1..][k], ps[1..][k], false, lib) == Failure(e)
    requires forall j :: 0 <= j < k ==> ConvertParam(args[1..][j], ps[1..][j], false, lib).Success?
    ensures ConvertParam(args[k + 1], ps[k + 1], false, lib) == Failure(e)
    ensures forall j :: 0 <= j < k + 1 ==> ConvertParam(args[j], ps[j], false, lib).Success?
  {
    assert args[1..][k] == args[k + 1] && ps[1..][k] == ps[k + 1];
    forall j | 0 <= j < k + 1 ensures ConvertParam(args[j], ps[j], false, lib).Success? {
      if j > 0 { assert args[j] == args[1..][j - 1] && ps[j] == ps[1..][j - 1]; }
    }
  }

  /** Any other failure is the error of the first token whose argument fails to convert. */
  lemma {:induction false} FirstConversionErrorWins(t: string, args: seq<Value>, lib: Filters)
    requires Substitute(t, args, lib).Failure? && Substitute(t, args, lib).error != NotEnoughParams
    ensures var ps := Placeholders(t);
      exists k :: 0 <= k < |ps| && k < |args|
        && ConvertParam(args[k], ps[k], false, lib) == Failure(Substitute(t, args, lib).error)
        && forall j :: 0 <= j < k ==> ConvertParam(args[j], ps[j], false, lib).Success?
    decreases |t|
  {
    var ps := Placeholders(t);
    var e := Substitute(t, args, lib).error;
    if t[0] == '?' {
      var sp := TokenSpec(t);
      var rest := t[1 + |sp|..];
      assert ps[0] == sp;
      if ConvertParam(args[0], sp, false, lib).Success? {
        FirstConversionErrorWins(rest, args[1..], lib);
        var ps' := Placeholders(rest);
        assert ps[1..] == ps';
        var k :| 0 <= k < |ps'| && k < |args| - 1
          && ConvertParam(args[1..][k], ps'[k], false, lib) == Failure(e)
          && forall j :: 0 <= j < k ==> ConvertParam(args[1..][j], ps'[j], false, lib).Success?;
        FirstFailureShift(args, ps, k, lib, e);
      }
    } else {
      FirstConversionErrorWins(t[1..], args, lib);
    }
  }

  /** Arguments beyond the last token are never looked at. */
  lemma {:induction false} ExtraArgumentsIgnored(t: string, args: seq<Value>, extra: seq<Value>, lib: Filters)
    requires |Placeholders(t)| <= |args|
    ensures Substitute(t, args + extra, lib) == Substitute(t, args, lib)
    decreases |t|
  {
    if t != [] {
      if t[0] == '?' {
        var sp := TokenSpec(t);
        assert (args + extra)[0] == args[0];
        assert (args + extra)[1..] == args[1..] + extra;
        ExtraArgumentsIgnored(t[1 + |sp|..], args[1..], extra, lib);
      } else {
        ExtraArgumentsIgnored(t[1..], args, extra, lib);
      }
    }
  }

  /** The template with its k-th token replaced by `outs[k]`; the inserted text is not rescanned. */
  function Splice(t: string, outs: seq<string>): string
    requires |outs| == |Placeholders(t)|
    decreases |t|
  {
    if t == [] then ""
    else if t[0] == '?' then outs[0] + Splice(t[1 + |TokenSpec(t)|..], outs[1..])
    else [t[0]] + Splice(t[1..], outs)
  }

  /** The text of each token: `?` and its specifier. */
  function TokenTexts(t: string): (r: seq<string>)
    ensures |r| == |Placeholders(t)|
  {
    var ps := Placeholders(t);
    seq(|ps|, k requires 0 <= k < |ps| => "?" + ps[k])
  }

  lemma TokenTextsShift(t: string)
    requires t != [] && t[0] == '?'
    ensures TokenTexts(t)[0] == "?" + TokenSpec(t)
    ensures TokenTexts(t)[1..] == TokenTexts(t[1 + |TokenSpec(t)|..])
  {
    var ps := Placeholders(t);
    assert ps[1..] == Placeholders(t[1 + |TokenSpec(t)|..]);
  }

  /** Putting every token back in its place restores the template: the text between tokens is copied. */
  lemma {:induction false} SpliceOwnTokens(t: string)
    ensures Splice(t, TokenTexts(t)) == t
    decreases |t|
  {
    if t != [] {
      if t[0] == '?' {
        var sp := TokenSpec(t);
        var rest := t[1 + |sp|..];
        TokenTextsShift(t);
        SpliceOwnTokens(rest);
        assert t == "?" + sp + rest;
      } else {
        SpliceOwnTokens(t[1..]);
        assert t == [t[0]] + t[1..];
      }
    }
  }

  /** On success the output is the template with each token replaced by its argument's conversion. */
  lemma {:induction false} SubstituteIsSplice(t: string, args: seq<Value>, lib: Filters, outs: seq<string>)
    requires |outs| == |Placeholders(t)| <= |args|
    requires forall k :: 0 <= k < |outs| ==> ConvertParam(args[k], Placeholders(t)[k], false, lib) == Success(outs[k])
    ensures Substitute(t, args, lib) == Success(Splice(t, outs))
    decreases |t|
  {
    if t != [] {
      if t[0] == '?' {
        var sp := TokenSpec(t);
        var rest := t[1 + |sp|..];
        var ps := Placeholders(t);
        assert ps[0] == sp;
        assert ConvertParam(args[0], sp, false, lib) == Success(outs[0]);
        forall k | 0 <= k < |outs| - 1
          ensures ConvertParam(args[1..][k], Placeholders(rest)[k], false, lib) == Success(outs[1..][k])
        {
          assert args[1..][k] == args[k + 1] && ps[k + 1] == Placeholders(rest)[k];
        }
        SubstituteIsSplice(rest, args[1..], lib, outs[1..]);
      } else {
        SubstituteIsSplice(t[1..], args, lib, outs);
      }
    }
  }

  /** A template without `?` comes back unchanged and consumes nothing. */
  lemma NoTokenCopiesTemplate(t: string, args: seq<Value>, lib: Filters)
    requires '?' !in t
    ensures Substitute(t, args, lib) == Success(t)
  {
    assert CountQuestionMarks(t) == 0 by { QuestionMarksCounted(t); }
    OneTokenPerQuestionMark(t);
    SubstituteIsSplice(t, args, lib, []);
    SpliceOwnTokens(t);
    assert TokenTexts(t) == [];
  }

  lemma {:induction false} QuestionMarksCounted(t: string)
    ensures CountQuestionMarks(t) == 0 <==> '?' !in t
    decreases |t|
  {
    if t != [] {
      QuestionMarksCounted(t[1..]);
      assert t == [t[0]] + t[1..];
    }
  }

  /** Text without `?` is copied to the output unchanged, and the rest is substituted after it. */
  lemma {:induction false} PlainTextCopied(a: string, b: string, args: seq<Value>, lib: Filters)
    requires '?' !in a
    ensures Substitute(a + b, args, lib) == Prepend(a, Substitute(b, args, lib))
    decreases |a|
  {
    if a == [] {
      assert a + b == b;
      var r := Substitute(b, args, lib);
      if r.Success? { assert a + r.value == r.value; }
    } else {
      assert (a + b)[0] == a[0] && (a + b)[1..] == a[1..] + b;
      PlainTextCopied(a[1..], b, args, lib);
      PrependTwice([a[0]], a[1..], Substitute(b, args, lib));
      assert [a[0]] + a[1..] == a;
    }
  }

  /** The token `?sp` followed by `b` reads as exactly that token: `sp` is its whole specifier. */
  predicate TokenFits(sp: string, b: string)
  {
    (sp == "" && (b == [] || !IsSpecChar(b[0]))) || (|sp| == 1 && IsSpecChar(sp[0]))
  }

  /**
   * One token: it takes the first argument (or fails for want of one), and
   * the rest of the template goes on with the remaining arguments.
   */
  lemma TokenStep(sp: string, b: string, args: seq<Value>, lib: Filters)
    requires TokenFits(sp, b)
    ensures Substitute("?" + sp + b, args, lib) ==
      if args == [] then Failure(NotEnoughParams)
      else match ConvertParam(args[0], sp, false, lib)
        case Failure(e) => Failure(e)
        case Success(x) => Prepend(x, Substitute(b, args[1..], lib))
  {
    var t := "?" + sp + b;
    assert t[0] == '?';
    if sp == "" {
      assert t[1..] == b;
      if b != [] { assert t[1] == b[0]; }
    } else {
      assert t[1] == sp[0];
      assert t[2..] == b;
    }
    assert TokenSpec(t) == sp;
  }
}
