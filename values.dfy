/**
 * The dynamic values that flow through the query builder, the errors it
 * raises, and the text helpers shared by the converter and the driver.
 */
module Values {

  datatype Option<T> = None | Some(value: T)

  /** The conversion and substitution errors, one per exception message. */
  datatype Error =
    | NotEnoughParams
    | NullNotAllowed(spec: string)
    | EmptySpecifierType
    | InvalidSpecifier(spec: string)
    | SpecifierType(spec: string)
    | EmptyArray

  datatype Result<T> = Success(value: T) | Failure(error: Error)

  /** A PHP array key, already typed (key coercion is outside the model). */
  datatype Key = IntKey(i: int) | StrKey(s: string)

  /**
   * A PHP value as the builder sees it. A float is carried as the text PHP
   * renders it to; an array is its ordered list of key/value entries.
   */
  datatype Value =
    | Null
    | Bool(b: bool)
    | Int(i: int)
    | Float(text: string)
    | Str(s: string)
    | Arr(entries: seq<(Key, Value)>)

  /**
   * The two validating filters the builder calls. Both receive PHP's string
   * cast of the value; `validateInt` yields the parsed integer and
   * `validateFloat` the text of the parsed float.
   */
  datatype Filters = Filters(validateInt: string -> Option<int>, validateFloat: string -> Option<string>)

  /**
   * The marker `skip()` hands out. It holds no `?`, brace or dot, so it
   * starts no placeholder and can stand inside a skipped block's body.
   */
  function Skip(): (s: string)
    ensures |s| == 6
    ensures forall k :: 0 <= k < |s| ==> s[k] != '?' && s[k] != '{' && s[k] != '}' && s[k] != '.'
  {
    ":SKIP:"
  }

  /** Specifiers under which a null argument becomes `NULL`. */
  function NullAllowedSpecifiers(): seq<string> { ["", "d", "f"] }

  function DigitChar(d: nat): (c: char)
    requires d < 10
    ensures '0' <= c <= '9'
  {
    "0123456789"[d]
  }

  function DigitValue(c: char): nat
  {
    if '0' <= c <= '9' then (c - '0') as nat else 0
  }

  /** Decimal digits of a natural number, most significant first, no leading zeros. */
  function NatText(n: nat): (s: string)
    ensures |s| > 0 && forall k :: 0 <= k < |s| ==> '0' <= s[k] <= '9'
    ensures |s| > 1 ==> s[0] != '0'
    decreases n
  {
    if n < 10 then [DigitChar(n)] else NatText(n / 10) + [DigitChar(n % 10)]
  }

  /** Reads back a string of decimal digits. */
  function ParseNat(s: string): nat
    decreases |s|
  {
    if s == [] then 0 else 10 * ParseNat(s[..|s| - 1]) + DigitValue(s[|s| - 1])
  }

  lemma {:induction false} NatTextRoundTrip(n: nat)
    ensures ParseNat(NatText(n)) == n
    decreases n
  {
    if n >= 10 {
      var s := NatText(n);
      assert s[..|s| - 1] == NatText(n / 10);
      NatTextRoundTrip(n / 10);
      assert DigitValue(s[|s| - 1]) == n % 10;
    } else {
      assert DigitValue(DigitChar(n)) == n;
    }
  }

  /** PHP's decimal rendering of an integer. */
  function DecimalText(i: int): (s: string)
    ensures |s| > 0
    ensures i < 0 <==> s[0] == '-'
  {
    if i < 0 then "-" + NatText(-i) else NatText(i)
  }

  /** PHP's string cast (`strval`) of a value, as the filters receive it. */
  function StrVal(v: Value): string
  {
    match v
    case Null => ""
    case Bool(b) => if b then "1" else ""
    case Int(i) => DecimalText(i)
    case Float(t) => t
    case Str(s) => s
    case Arr(_) => "Array"
  }

  /** The text of the exception raised for each error. */
  function Message(e: Error): string
  {
    match e
    case NotEnoughParams => "Not enough params!"
    case NullNotAllowed(sp) => "NULL value isn't allowed for the format specifier \"" + sp + "\"."
    case EmptySpecifierType => "Invalid parameter type for empty specifier!"
    case InvalidSpecifier(sp) => "Invalid format specifier \"" + sp + "\"."
    case SpecifierType(sp) => "Invalid parameter type for format specifier \"" + sp + "\""
    case EmptyArray => "Array param shouldn't be empty!"
  }

  /** Which kind of error a message reports, read off a few of its characters. */
  function MessageKind(m: string): nat
  {
    if |m| < 28 then (if |m| > 1 && m[0] == 'N' && m[1] == 'o' then 1 else 0)
    else if m[0] == 'N' then 2
    else if m[0] == 'A' then 6
    else if m[8] == 'f' then 4
    else if m[27] == 'e' then 3
    else 5
  }

  function KindOf(e: Error): nat
  {
    match e
    case NotEnoughParams => 1
    case NullNotAllowed(_) => 2
    case EmptySpecifierType => 3
    case InvalidSpecifier(_) => 4
    case SpecifierType(_) => 5
    case EmptyArray => 6
  }

  // The kind read back from each message that names a specifier or shares a prefix.

  lemma NullMessageKind(a: string)
    ensures MessageKind(Message(NullNotAllowed(a))) == 2
  {
    var m, pre := Message(NullNotAllowed(a)), "NULL value isn't allowed ";
    assert m == pre + ("for the format specifier \"" + a + "\".") by {
      assert "NULL value isn't allowed for the format specifier \"" == pre + "for the format specifier \"";
    }
    assert pre[0] == 'N' && m[0] == pre[0];
  }

  lemma InvalidSpecifierMessageKind(a: string)
    ensures MessageKind(Message(InvalidSpecifier(a))) == 4
  {
    var m, pre := Message(InvalidSpecifier(a)), "Invalid format specifier \"";
    assert m == pre + (a + "\".");
    assert pre[0] == 'I' && pre[8] == 'f';
    assert m[0] == pre[0] && m[8] == pre[8];
  }

  lemma SpecifierTypeMessageKind(a: string)
    ensures MessageKind(Message(SpecifierType(a))) == 5
  {
    var m, pre := Message(SpecifierType(a)), "Invalid parameter type for ";
    assert m == pre + ("format specifier \"" + a + "\"") by {
      assert "Invalid parameter type for format specifier \"" == pre + "format specifier \"";
    }
    assert pre[0] == 'I' && pre[8] == 'p' && "format"[0] == 'f';
    assert m[0] == pre[0] && m[8] == pre[8] && m[27] == 'f';
  }

  lemma EmptySpecifierMessageKind()
    ensures MessageKind(Message(EmptySpecifierType)) == 3
  {
    var m, pre := Message(EmptySpecifierType), "Invalid parameter type for ";
    assert m == pre + "empty specifier!";
    assert pre[0] == 'I' && pre[8] == 'p' && "empty specifier!"[0] == 'e';
    assert m[0] == pre[0] && m[8] == pre[8] && m[27] == 'e';
  }

  /** Each message is read back as the kind of its error. */
  lemma MessageKindOf(e: Error)
    ensures MessageKind(Message(e)) == KindOf(e)
  {
    match e
    case NullNotAllowed(a) => NullMessageKind(a);
    case InvalidSpecifier(a) => InvalidSpecifierMessageKind(a);
    case SpecifierType(a) => SpecifierTypeMessageKind(a);
    case EmptySpecifierType => EmptySpecifierMessageKind();
    case NotEnoughParams =>
    case EmptyArray =>
  }

  /** Distinct errors raise distinct messages, so a message names its error. */
  lemma MessageDeterminesError(e1: Error, e2: Error)
    requires Message(e1) == Message(e2)
    ensures e1 == e2
  {
    MessageKindOf(e1);
    MessageKindOf(e2);
    var m := Message(e1);
    match e1
    case NullNotAllowed(a) =>
      var pre := "NULL value isn't allowed for the format specifier \"";
      assert m == pre + a + "\".";
      assert m == pre + e2.spec + "\".";
      assert a == m[|pre|..|m| - 2] == e2.spec;
    case InvalidSpecifier(a) =>
      var pre := "Invalid format specifier \"";
      assert m == pre + a + "\".";
      assert m == pre + e2.spec + "\".";
      assert a == m[|pre|..|m| - 2] == e2.spec;
    case SpecifierType(a) =>
      var pre := "Invalid parameter type for format specifier \"";
      assert m == pre + a + "\"";
      assert m == pre + e2.spec + "\"";
      assert a == m[|pre|..|m| - 1] == e2.spec;
    case NotEnoughParams =>
    case EmptySpecifierType =>
    case EmptyArray =>
  }
}
