/**
 * Conversion of one argument to the text that replaces its placeholder:
 * the null and skip checks, the default conversion, the specifier
 * dispatch and the array expansion, which converts its elements by
 * calling back into the default conversion.
 */
module Converter {
  import opened Values

  /** PHP's `empty()` on a specifier string: true for "" and also for "0". */
  predicate IsEmptySpec(sp: string)
  {
    sp == "" || sp == "0"
  }

  /** Booleans become the integers 0 and 1; every other value is left alone. */
  function AsIntIfBool(v: Value): (w: Value)
    ensures !w.Bool?
    ensures !v.Bool? ==> w == v
  {
    if v.Bool? then Int(if v.b then 1 else 0) else v
  }

  /** Quoting of a string by the default conversion; nothing inside is escaped. */
  function Quoted(s: string, isIdentifier: bool): (r: string)
    ensures |r| == |s| + 2 && r[1..|r| - 1] == s
    ensures r[0] == r[|r| - 1] == (if isIdentifier then '`' else '\'')
  {
    if isIdentifier then "`" + s + "`" else "'" + s + "'"
  }

  /** The text of a key in an associative expansion. */
  function KeyText(k: Key): string
  {
    match k
    case IntKey(i) => DecimalText(i)
    case StrKey(s) => s
  }

  /** `implode`: the parts in order with the separator between neighbours. */
  function Join(parts: seq<string>, sep: string): string
    decreases |parts|
  {
    if parts == [] then ""
    else if |parts| == 1 then parts[0]
    else parts[0] + sep + Join(parts[1..], sep)
  }

  /** Convert one argument under a specifier (`convertParam`). */
  function ConvertParam(v: Value, sp: string, isIdentifier: bool, lib: Filters): (r: Result<string>)
    ensures r.Failure? ==> r.error != NotEnoughParams
    ensures sp == "" && r.Failure? ==> r.error == EmptySpecifierType
    decreases if IsEmptySpec(sp) then 0 else 1, 3, 0
  {
    if v.Null? then
      if sp in NullAllowedSpecifiers() then Success("NULL") else Failure(NullNotAllowed(sp))
    else if v == Str(Skip()) then
      Success(Skip())
    else if IsEmptySpec(sp) then
      ConvertByDefault(AsIntIfBool(v), isIdentifier)
    else
      ConvertBySpecifier(AsIntIfBool(v), sp, lib)
  }

  /** Conversion when no specifier is given (`convertParamByDefault`). */
  function ConvertByDefault(v: Value, isIdentifier: bool): (r: Result<string>)
    ensures r.Success? <==> v.Str? || v.Int? || v.Float?
    ensures r.Failure? ==> r.error == EmptySpecifierType
  {
    match v
    case Str(s) => Success(Quoted(s, isIdentifier))
    case Int(i) => Success(DecimalText(i))
    case Float(t) => Success(t)
    case _ => Failure(EmptySpecifierType)
  }

  /** Conversion under a non-empty specifier (`convertParamBySpecifier`). */
  function ConvertBySpecifier(v: Value, sp: string, lib: Filters): (r: Result<string>)
    ensures r.Failure? ==> r.error != NotEnoughParams
    ensures r.Failure? && r.error.InvalidSpecifier? ==> sp !in ["d", "f", "a", "#"]
    decreases 1, 2, 0
  {
    if sp == "d" then
      if v.Arr? then Failure(SpecifierType(sp))
      else match lib.validateInt(StrVal(v))
        case Some(n) => Success(DecimalText(n))
        case None => Failure(SpecifierType(sp))
    else if sp == "f" then
      if v.Arr? then Failure(SpecifierType(sp))
      else match lib.validateFloat(StrVal(v))
        case Some(t) => Success(t)
        case None => Failure(SpecifierType(sp))
    else if sp == "a" then
      if v.Arr? then ConvertArray(v.entries, false, lib) else Failure(SpecifierType(sp))
    else if sp == "#" then
      var es := if v.Arr? then v.entries else [(IntKey(0), v)];
      if AllStrings(es) then ConvertArray(es, true, lib) else Failure(SpecifierType(sp))
    else
      Failure(InvalidSpecifier(sp))
  }

  /** How many entries hold a string (`count(array_filter($param, "is_string"))`). */
  function CountStrings(es: seq<(Key, Value)>): (n: nat)
    ensures n <= |es|
    ensures n == |es| <==> forall k :: 0 <= k < |es| ==> es[k].1.Str?
    decreases |es|
  {
    if es == [] then 0
    else (if es[0].1.Str? then 1 else 0) + CountStrings(es[1..])
  }

  /** `checkArrayOfStrings`: all entries count as strings. */
  predicate AllStrings(es: seq<(Key, Value)>)
    ensures AllStrings(es) <==> forall k :: 0 <= k < |es| ==> es[k].1.Str?
  {
    CountStrings(es) == |es|
  }

  /** The keys of an array are exactly 0, 1, ..., n-1, in that order. */
  predicate IsSequential(es: seq<(Key, Value)>)
  {
    forall k :: 0 <= k < |es| ==> es[k].0 == IntKey(k)
  }

  /** The `` `key` = value `` parts of an associative expansion. */
  function KeyValueTexts(es: seq<(Key, Value)>, vals: seq<string>): (r: seq<string>)
    requires |vals| == |es|
  {
    seq(|es|, k requires 0 <= k < |es| => "`" + KeyText(es[k].0) + "` = " + vals[k])
  }

  /** Expansion of an array argument (`convertArray`). */
  function ConvertArray(es: seq<(Key, Value)>, isIdentifiers: bool, lib: Filters): (r: Result<string>)
    ensures r.Failure? ==> r.error == EmptyArray || r.error == EmptySpecifierType
    ensures es == [] ==> r == Failure(EmptyArray)
    decreases 1, 1, 0
  {
    if es == [] then Failure(EmptyArray)
    else
      var sequential := IsSequential(es);
      var vals := ConvertEntries(es, isIdentifiers && sequential, lib);
      if vals.Failure? then Failure(vals.error)
      else if sequential then Success(Join(vals.value, ", "))
      else Success(Join(KeyValueTexts(es, vals.value), ", "))
  }

  /** The element conversions of `convertArray`, in order; the first failure aborts. */
  function ConvertEntries(es: seq<(Key, Value)>, isIdentifier: bool, lib: Filters): (r: Result<seq<string>>)
    ensures r.Success? ==> |r.value| == |es|
    ensures r.Failure? ==> r.error == EmptySpecifierType
    decreases 1, 0, |es|
  {
    if es == [] then Success([])
    else
      var head := ConvertParam(es[0].1, "", isIdentifier, lib);
      if head.Failure? then Failure(head.error)
      else
        var tail := ConvertEntries(es[1..], isIdentifier, lib);
        if tail.Failure? then tail else Success([head.value] + tail.value)
  }

  // ---------------------------------------------------------------------
  // Properties of the conversion rules
  // ---------------------------------------------------------------------

  /** Null is checked first: it becomes `NULL` exactly under "", "d" and "f". */
  lemma NullRule(sp: string, isIdentifier: bool, lib: Filters)
    ensures ConvertParam(Null, sp, isIdentifier, lib) ==
      if sp == "" || sp == "d" || sp == "f" then Success("NULL") else Failure(NullNotAllowed(sp))
  {
  }

  /** The skip marker comes back unchanged under every specifier, valid or not. */
  lemma SkipIsIdentity(sp: string, isIdentifier: bool, lib: Filters)
    ensures ConvertParam(Str(Skip()), sp, isIdentifier, lib) == Success(Skip())
  {
  }

  /** A boolean is converted exactly as the integer 0 or 1. */
  lemma BoolAsInteger(b: bool, sp: string, isIdentifier: bool, lib: Filters)
    ensures ConvertParam(Bool(b), sp, isIdentifier, lib) ==
      ConvertParam(Int(if b then 1 else 0), sp, isIdentifier, lib)
  {
  }

  /** `?0` takes the default path for every non-null value, yet null is refused under it. */
  lemma ZeroSpecifierIsDefault(v: Value, isIdentifier: bool, lib: Filters)
    ensures !v.Null? ==> ConvertParam(v, "0", isIdentifier, lib) == ConvertParam(v, "", isIdentifier, lib)
    ensures ConvertParam(Null, "0", isIdentifier, lib) == Failure(NullNotAllowed("0"))
  {
  }

  /** The default conversion: quoted strings, integer and float text, nothing else. */
  lemma DefaultConversion(v: Value, sp: string, isIdentifier: bool, lib: Filters)
    requires IsEmptySpec(sp) && !v.Null? && v != Str(Skip())
    ensures ConvertParam(v, sp, isIdentifier, lib) ==
      match v
      case Str(s) => Success(Quoted(s, isIdentifier))
      case Int(i) => Success(DecimalText(i))
      case Bool(b) => Success(if b then "1" else "0")
      case Float(t) => Success(t)
      case _ => Failure(EmptySpecifierType)
  {
    if v.Bool? {
      assert DecimalText(if v.b then 1 else 0) == (if v.b then "1" else "0");
    }
  }

  /** Only d, f, a and # are specifiers; any other non-empty one is refused by name. */
  lemma InvalidSpecifierRule(v: Value, sp: string, isIdentifier: bool, lib: Filters)
    requires !v.Null? && v != Str(Skip()) && !IsEmptySpec(sp)
    ensures ConvertParam(v, sp, isIdentifier, lib) == Failure(InvalidSpecifier(sp))
        <==> sp !in ["d", "f", "a", "#"]
  {
  }

  /** `d` and `f` hand PHP's string form of a scalar to the filter; arrays are refused. */
  lemma NumericSpecifiers(v: Value, isIdentifier: bool, lib: Filters)
    requires !v.Null? && v != Str(Skip())
    ensures var w := AsIntIfBool(v);
      ConvertParam(v, "d", isIdentifier, lib) ==
        if w.Arr? then Failure(SpecifierType("d"))
        else match lib.validateInt(StrVal(w))
          case Some(n) => Success(DecimalText(n))
          case None => Failure(SpecifierType("d"))
    ensures var w := AsIntIfBool(v);
      ConvertParam(v, "f", isIdentifier, lib) ==
        if w.Arr? then Failure(SpecifierType("f"))
        else match lib.validateFloat(StrVal(w))
          case Some(t) => Success(t)
          case None => Failure(SpecifierType("f"))
  {
  }

  /** The range of PHP's 64-bit integers, outside of which `FILTER_VALIDATE_INT` refuses integer text. */
  predicate InInt64(i: int)
  {
    -0x8000_0000_0000_0000 <= i <= 0x7fff_ffff_ffff_ffff
  }

  /**
   * `FILTER_VALIDATE_INT` returns an integer argument unchanged; a filter
   * with that property accepts the decimal text of every 64-bit integer.
   */
  ghost predicate SoundIntFilter(lib: Filters)
  {
    forall i :: InInt64(i) ==> lib.validateInt(DecimalText(i)) == Some(i)
  }

  /** Under a sound integer filter, `?d` renders 64-bit integers and booleans as their decimal text. */
  lemma IntegersUnderD(i: int, b: bool, isIdentifier: bool, lib: Filters)
    requires SoundIntFilter(lib)
    requires InInt64(i)
    ensures ConvertParam(Int(i), "d", isIdentifier, lib) == Success(DecimalText(i))
    ensures ConvertParam(Bool(b), "d", isIdentifier, lib) == Success(if b then "1" else "0")
  {
    var n := if b then 1 else 0;
    assert lib.validateInt(DecimalText(i)) == Some(i);
    assert lib.validateInt(DecimalText(n)) == Some(n);
    assert DecimalText(n) == (if b then "1" else "0");
  }

  /** `a` needs an array; an empty one is refused under `a` and `#` before anything else. */
  lemma ArraySpecifierRules(v: Value, isIdentifier: bool, lib: Filters)
    ensures !v.Null? && v != Str(Skip()) && !v.Arr? ==>
      ConvertParam(v, "a", isIdentifier, lib) == Failure(SpecifierType("a"))
    ensures ConvertParam(Arr([]), "a", isIdentifier, lib) == Failure(EmptyArray)
    ensures ConvertParam(Arr([]), "#", isIdentifier, lib) == Failure(EmptyArray)
    ensures v.Arr? ==> ConvertParam(v, "a", isIdentifier, lib) == ConvertArray(v.entries, false, lib)
  {
  }

  /** `#` on a single value: a string becomes one back-quoted identifier, anything else is refused. */
  lemma IdentifierSingleValue(v: Value, isIdentifier: bool, lib: Filters)
    requires !v.Null? && v != Str(Skip()) && !v.Arr?
    ensures ConvertParam(v, "#", isIdentifier, lib) ==
      if v.Str? then Success("`" + v.s + "`") else Failure(SpecifierType("#"))
  {
    if v.Str? {
      var es := [(IntKey(0), v)];
      assert IsSequential(es);
      assert ConvertParam(es[0].1, "", true, lib) == Success("`" + v.s + "`");
      ConvertEntriesAll(es, true, lib, ["`" + v.s + "`"]);
    }
  }

  /** `#` on an array: refused unless every element is a string, else expanded in identifier mode. */
  lemma IdentifierList(es: seq<(Key, Value)>, isIdentifier: bool, lib: Filters)
    ensures ConvertParam(Arr(es), "#", isIdentifier, lib) ==
      if forall k :: 0 <= k < |es| ==> es[k].1.Str? then ConvertArray(es, true, lib)
      else Failure(SpecifierType("#"))
  {
  }

  /** Converted elements, when each converts, form the expansion's element list. */
  lemma {:induction false} ConvertEntriesAll(es: seq<(Key, Value)>, isIdentifier: bool, lib: Filters, outs: seq<string>)
    requires |outs| == |es|
    requires forall k :: 0 <= k < |es| ==> ConvertParam(es[k].1, "", isIdentifier, lib) == Success(outs[k])
    ensures ConvertEntries(es, isIdentifier, lib) == Success(outs)
    decreases |es|
  {
    if es != [] {
      assert ConvertParam(es[0].1, "", isIdentifier, lib) == Success(outs[0]);
      forall k | 0 <= k < |es| - 1
        ensures ConvertParam(es[1..][k].1, "", isIdentifier, lib) == Success(outs[1..][k])
      {
        assert es[1..][k] == es[k + 1];
      }
      ConvertEntriesAll(es[1..], isIdentifier, lib, outs[1..]);
      assert outs == [outs[0]] + outs[1..];
    }
  }

  /** A first failure in the tail, behind a head that converts, is a first failure of the whole. */
  lemma EntriesFailureShift(es: seq<(Key, Value)>, isIdentifier: bool, lib: Filters, k: nat, e: Error)
    requires es != [] && ConvertParam(es[0].1, "", isIdentifier, lib).Success? && k < |es| - 1
    requires ConvertParam(es[1..][k].1, "", isIdentifier, lib) == Failure(e)
    requires forall j :: 0 <= j < k ==> ConvertParam(es[1..][j].1, "", isIdentifier, lib).Success?
    ensures ConvertParam(es[k + 1].1, "", isIdentifier, lib) == Failure(e)
    ensures forall j :: 0 <= j < k + 1 ==> ConvertParam(es[j].1, "", isIdentifier, lib).Success?
  {
    assert es[1..][k] == es[k + 1];
    forall j | 0 <= j < k + 1
      ensures ConvertParam(es[j].1, "", isIdentifier, lib).Success?
    {
      if j > 0 { assert es[j] == es[1..][j - 1]; }
    }
  }

  /** The element conversions fail exactly when some element fails, with the first failure's error. */
  lemma {:induction false} ConvertEntriesFailure(es: seq<(Key, Value)>, isIdentifier: bool, lib: Filters)
    ensures ConvertEntries(es, isIdentifier, lib).Failure? <==>
      exists k :: 0 <= k < |es| && ConvertParam(es[k].1, "", isIdentifier, lib).Failure?
    ensures ConvertEntries(es, isIdentifier, lib).Failure? ==>
      exists k :: 0 <= k < |es|
        && ConvertParam(es[k].1, "", isIdentifier, lib) == Failure(ConvertEntries(es, isIdentifier, lib).error)
        && forall j :: 0 <= j < k ==> ConvertParam(es[j].1, "", isIdentifier, lib).Success?
    decreases |es|
  {
    if es != [] {
      ConvertEntriesFailure(es[1..], isIdentifier, lib);
      var r := ConvertEntries(es, isIdentifier, lib);
      if ConvertParam(es[0].1, "", isIdentifier, lib).Failure? {
        assert r.Failure?;
      } else {
        if r.Failure? {
          var k :| 0 <= k < |es| - 1
            && ConvertParam(es[1..][k].1, "", isIdentifier, lib) == Failure(r.error)
            && forall j :: 0 <= j < k ==> ConvertParam(es[1..][j].1, "", isIdentifier, lib).Success?;
          EntriesFailureShift(es, isIdentifier, lib, k, r.error);
        } else {
          forall k | 0 <= k < |es|
            ensures ConvertParam(es[k].1, "", isIdentifier, lib).Success?
          {
            if k > 0 { assert es[k] == es[1..][k - 1]; }
          }
        }
      }
    }
  }

  /** A sequential array expands to its converted elements joined by ", ". */
  lemma SequentialExpansion(es: seq<(Key, Value)>, isIdentifiers: bool, lib: Filters, outs: seq<string>)
    requires es != [] && IsSequential(es) && |outs| == |es|
    requires forall k :: 0 <= k < |es| ==> ConvertParam(es[k].1, "", isIdentifiers, lib) == Success(outs[k])
    ensures ConvertArray(es, isIdentifiers, lib) == Success(Join(outs, ", "))
  {
    ConvertEntriesAll(es, isIdentifiers, lib, outs);
  }

  /**
   * An associative array expands to `` `key` = value `` parts joined by ", ";
   * its values are never identifier-quoted, whatever the caller asked for.
   */
  lemma AssociativeExpansion(es: seq<(Key, Value)>, isIdentifiers: bool, lib: Filters, outs: seq<string>)
    requires es != [] && !IsSequential(es) && |outs| == |es|
    requires forall k :: 0 <= k < |es| ==> ConvertParam(es[k].1, "", false, lib) == Success(outs[k])
    ensures ConvertArray(es, isIdentifiers, lib) == Success(Join(KeyValueTexts(es, outs), ", "))
  {
    ConvertEntriesAll(es, false, lib, outs);
  }

  /** An expansion fails exactly on an empty array or on an element that fails to convert. */
  lemma ExpansionFailure(es: seq<(Key, Value)>, isIdentifiers: bool, lib: Filters)
    ensures ConvertArray(es, isIdentifiers, lib).Failure? <==>
      es == [] ||
      exists k :: 0 <= k < |es| && ConvertParam(es[k].1, "", isIdentifiers && IsSequential(es), lib).Failure?
  {
    ConvertEntriesFailure(es, isIdentifiers && IsSequential(es), lib);
  }

  /** Elements go through the default conversion, so an array nested in an array is refused. */
  lemma NestedArrayRefused(es: seq<(Key, Value)>, isIdentifiers: bool, lib: Filters, k: nat)
    requires k < |es| && es[k].1.Arr?
    ensures ConvertArray(es, isIdentifiers, lib).Failure?
  {
    ExpansionFailure(es, isIdentifiers, lib);
    assert ConvertParam(es[k].1, "", isIdentifiers && IsSequential(es), lib).Failure?;
  }
}
