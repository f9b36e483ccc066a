/**
 * The cases of the repository's test suite (DbInfTest.php), and examples
 * of skipped blocks, stated on the model. Templates are written in pieces
 * split at their tokens. The integer filter is assumed sound where a case
 * passes integers or booleans to `?d`; otherwise the filters are left open
 * except for the strings a case hands them.
 */
module QueryExamples {
  import opened Values
  import opened Converter
  import opened SkipBlocks
  import opened QueryBuilder

  // ---------------------------------------------------------------------
  // Template shapes
  // ---------------------------------------------------------------------

  /** Text the substitution copies and the remover keeps: no token and no brace. */
  predicate Plain(s: string)
  {
    '?' !in s && forall k :: 0 <= k < |s| ==> s[k] != '{' && s[k] != '}'
  }

  lemma Step(a: string, sp: string, b: string, args: seq<Value>, lib: Filters, x: string)
    requires '?' !in a && TokenFits(sp, b)
    requires args != [] && ConvertParam(args[0], sp, false, lib) == Success(x)
    ensures Substitute(a + ("?" + sp + b), args, lib) == Prepend(a + x, Substitute(b, args[1..], lib))
  {
    PlainTextCopied(a, "?" + sp + b, args, lib);
    TokenStep(sp, b, args, lib);
    PrependTwice(a, x, Substitute(b, args[1..], lib));
  }

  lemma FailingStep(a: string, sp: string, b: string, args: seq<Value>, lib: Filters, e: Error)
    requires '?' !in a && TokenFits(sp, b)
    requires args != [] && ConvertParam(args[0], sp, false, lib) == Failure(e)
    ensures Substitute(a + ("?" + sp + b), args, lib) == Failure(e)
  {
    PlainTextCopied(a, "?" + sp + b, args, lib);
    TokenStep(sp, b, args, lib);
  }

  lemma MissingStep(a: string, sp: string, b: string, lib: Filters)
    requires '?' !in a && TokenFits(sp, b)
    ensures Substitute(a + ("?" + sp + b), [], lib) == Failure(NotEnoughParams)
  {
    PlainTextCopied(a, "?" + sp + b, [], lib);
    TokenStep(sp, b, [], lib);
  }

  /** A template with one token whose argument converts. */
  lemma OneTokenBuild(a1: string, sp1: string, a2: string, v1: Value, x1: string, lib: Filters)
    requires Plain(a1) && Plain(x1) && Plain(a2) && TokenFits(sp1, a2)
    requires ConvertParam(v1, sp1, false, lib) == Success(x1)
    ensures Build(a1 + ("?" + sp1) + a2, [v1], lib) == Success(a1 + x1 + a2)
  {
    assert a1 + ("?" + sp1) + a2 == a1 + ("?" + sp1 + a2);
    Step(a1, sp1, a2, [v1], lib, x1);
    assert [v1][1..] == [];
    NoTokenCopiesTemplate(a2, [], lib);
    BraceFreeAppend(a1, x1);
    BraceFreeAppend(a1 + x1, a2);
    BraceFreeUnchanged(a1 + x1 + a2);
  }

  /** A successful step followed by a successful rest. */
  lemma StepSuccess(a: string, sp: string, b: string, args: seq<Value>, lib: Filters, x: string, rest: string)
    requires '?' !in a && TokenFits(sp, b)
    requires args != [] && ConvertParam(args[0], sp, false, lib) == Success(x)
    requires Substitute(b, args[1..], lib) == Success(rest)
    ensures Substitute(a + ("?" + sp + b), args, lib) == Success(a + (x + rest))
  {
    Step(a, sp, b, args, lib, x);
    assert a + x + rest == a + (x + rest);
  }

  /** What follows a token cannot extend it when it starts with another token. */
  lemma FitsBeforeToken(sp: string, a: string, sp2: string, rest: string)
    requires TokenFits(sp, a)
    ensures TokenFits(sp, a + ("?" + sp2 + rest))
  {
    if a == [] {
      assert (a + ("?" + sp2 + rest))[0] == '?';
    } else {
      assert (a + ("?" + sp2 + rest))[0] == a[0];
    }
  }

  lemma Regroup(a1: string, b1: string, a2: string, b2: string, a3: string, b3: string, a4: string)
    ensures a1 + b1 + a2 + b2 + a3 + b3 + a4 == a1 + (b1 + (a2 + (b2 + (a3 + (b3 + a4)))))
  {
    var r3 := a3 + (b3 + a4);
    assert a3 + b3 + a4 == r3;
    var r2 := a2 + (b2 + r3);
    assert a2 + b2 + r3 == r2;
    assert a1 + b1 + a2 + b2 + a3 + b3 + a4 == a1 + b1 + a2 + b2 + r3;
    assert a1 + b1 + r2 == a1 + (b1 + r2);
  }

  /** The last two tokens of a three-token template, right-nested. */
  lemma TwoTokenTail(a2: string, sp2: string, a3: string, sp3: string, a4: string,
                     v2: Value, v3: Value, x2: string, x3: string, lib: Filters)
    requires '?' !in a2 && '?' !in a3 && '?' !in a4
    requires TokenFits(sp2, a3) && TokenFits(sp3, a4)
    requires ConvertParam(v2, sp2, false, lib) == Success(x2)
    requires ConvertParam(v3, sp3, false, lib) == Success(x3)
    ensures Substitute(a2 + ("?" + sp2 + (a3 + ("?" + sp3 + a4))), [v2, v3], lib)
      == Success(a2 + (x2 + (a3 + (x3 + a4))))
  {
    NoTokenCopiesTemplate(a4, [], lib);
    assert [v3][1..] == [];
    StepSuccess(a3, sp3, a4, [v3], lib, x3, a4);
    FitsBeforeToken(sp2, a3, sp3, a4);
    assert [v2, v3][1..] == [v3];
    StepSuccess(a2, sp2, a3 + ("?" + sp3 + a4), [v2, v3], lib, x2, a3 + (x3 + a4));
  }

  /** A template with three tokens whose arguments convert. */
  lemma ThreeTokenSubstitute(a1: string, sp1: string, a2: string, sp2: string, a3: string, sp3: string, a4: string,
                             v1: Value, v2: Value, v3: Value, x1: string, x2: string, x3: string, lib: Filters)
    requires '?' !in a1 && '?' !in a2 && '?' !in a3 && '?' !in a4
    requires TokenFits(sp1, a2) && TokenFits(sp2, a3) && TokenFits(sp3, a4)
    requires ConvertParam(v1, sp1, false, lib) == Success(x1)
    requires ConvertParam(v2, sp2, false, lib) == Success(x2)
    requires ConvertParam(v3, sp3, false, lib) == Success(x3)
    ensures Substitute(a1 + ("?" + sp1) + a2 + ("?" + sp2) + a3 + ("?" + sp3) + a4, [v1, v2, v3], lib)
      == Success(a1 + x1 + a2 + x2 + a3 + x3 + a4)
  {
    var t2 := a2 + ("?" + sp2 + (a3 + ("?" + sp3 + a4)));
    Regroup(a1, "?" + sp1, a2, "?" + sp2, a3, "?" + sp3, a4);
    Regroup(a1, x1, a2, x2, a3, x3, a4);
    TwoTokenTail(a2, sp2, a3, sp3, a4, v2, v3, x2, x3, lib);
    FitsBeforeToken(sp1, a2, sp2, a3 + ("?" + sp3 + a4));
    assert [v1, v2, v3][1..] == [v2, v3];
    StepSuccess(a1, sp1, t2, [v1, v2, v3], lib, x1, a2 + (x2 + (a3 + (x3 + a4))));
  }

  lemma ThreeTokenBuild(a1: string, sp1: string, a2: string, sp2: string, a3: string, sp3: string, a4: string,
                        v1: Value, v2: Value, v3: Value, x1: string, x2: string, x3: string, lib: Filters)
    requires Plain(a1) && Plain(a2) && Plain(a3) && Plain(a4) && Plain(x1) && Plain(x2) && Plain(x3)
    requires TokenFits(sp1, a2) && TokenFits(sp2, a3) && TokenFits(sp3, a4)
    requires ConvertParam(v1, sp1, false, lib) == Success(x1)
    requires ConvertParam(v2, sp2, false, lib) == Success(x2)
    requires ConvertParam(v3, sp3, false, lib) == Success(x3)
    ensures Build(a1 + ("?" + sp1) + a2 + ("?" + sp2) + a3 + ("?" + sp3) + a4, [v1, v2, v3], lib)
      == Success(a1 + x1 + a2 + x2 + a3 + x3 + a4)
  {
    ThreeTokenSubstitute(a1, sp1, a2, sp2, a3, sp3, a4, v1, v2, v3, x1, x2, x3, lib);
    BraceFreeAppend(a1, x1);
    BraceFreeAppend(a1 + x1, a2);
    BraceFreeAppend(a1 + x1 + a2, x2);
    BraceFreeAppend(a1 + x1 + a2 + x2, a3);
    BraceFreeAppend(a1 + x1 + a2 + x2 + a3, x3);
    BraceFreeAppend(a1 + x1 + a2 + x2 + a3 + x3, a4);
    BraceFreeUnchanged(a1 + x1 + a2 + x2 + a3 + x3 + a4);
  }

  /** The same, for a template that ends in its third token. */
  lemma ThreeTokenBuildAtEnd(a1: string, sp1: string, a2: string, sp2: string, a3: string, sp3: string,
                             v1: Value, v2: Value, v3: Value, x1: string, x2: string, x3: string, lib: Filters)
    requires Plain(a1) && Plain(a2) && Plain(a3) && Plain(x1) && Plain(x2) && Plain(x3)
    requires TokenFits(sp1, a2) && TokenFits(sp2, a3) && TokenFits(sp3, "")
    requires ConvertParam(v1, sp1, false, lib) == Success(x1)
    requires ConvertParam(v2, sp2, false, lib) == Success(x2)
    requires ConvertParam(v3, sp3, false, lib) == Success(x3)
    ensures Build(a1 + ("?" + sp1) + a2 + ("?" + sp2) + a3 + ("?" + sp3), [v1, v2, v3], lib)
      == Success(a1 + x1 + a2 + x2 + a3 + x3)
  {
    var t := a1 + ("?" + sp1) + a2 + ("?" + sp2) + a3 + ("?" + sp3);
    var r := a1 + x1 + a2 + x2 + a3 + x3;
    assert t + "" == t && r + "" == r;
    ThreeTokenBuild(a1, sp1, a2, sp2, a3, sp3, "", v1, v2, v3, x1, x2, x3, lib);
  }

  lemma BuildAfterSubstitute(t: string, args: seq<Value>, lib: Filters, s: string)
    requires Substitute(t, args, lib) == Success(s)
    ensures Build(t, args, lib) == Success(RemoveSkipped(s))
  {
  }

  // ---------------------------------------------------------------------
  // Pieces of the test templates
  // ---------------------------------------------------------------------

  lemma PlainSelectStar()
    ensures Plain("SELECT * FROM users WHERE name = ")
  {
  }

  lemma PlainSelectName()
    ensures Plain("SELECT name FROM users WHERE ") && Plain("SELECT ")
  {
  }

  lemma PlainConditions()
    ensures Plain(" AND block = 0") && Plain(" AND block = ") && Plain("")
  {
  }

  lemma PlainWhereId()
    ensures Plain(" FROM users WHERE user_id = ") && Plain(" IN (") && Plain(")")
  {
  }

  lemma PlainUpdate()
    ensures Plain("UPDATE users SET ") && Plain(" WHERE user_id = -1")
  {
  }

  lemma PlainOutputs()
    ensures Plain("'Jack'") && Plain("`name`, `email`") && Plain("1") && Plain("2")
    ensures Plain("`user_id`") && Plain("1, 2, 3")
  {
  }

  lemma PlainAssignments()
    ensures Plain("`name` = 'Jack', `email` = NULL")
  {
  }

  // ---------------------------------------------------------------------
  // Conversions the cases use
  // ---------------------------------------------------------------------

  lemma StringQuoted(s: string, isIdentifier: bool, lib: Filters)
    requires s != Skip()
    ensures ConvertParam(Str(s), "", isIdentifier, lib) ==
      Success(if isIdentifier then "`" + s + "`" else "'" + s + "'")
  {
    DefaultConversion(Str(s), "", isIdentifier, lib);
  }

  lemma JackQuoted(lib: Filters)
    ensures ConvertParam(Str("Jack"), "", false, lib) == Success("'Jack'")
  {
    StringQuoted("Jack", false, lib);
    assert "'" + "Jack" + "'" == "'Jack'";
  }

  lemma SmallIntegers()
    ensures DecimalText(1) == "1" && DecimalText(2) == "2" && DecimalText(3) == "3"
  {
    assert DigitChar(1) == '1' && DigitChar(2) == '2' && DigitChar(3) == '3';
  }

  function NameEmail(): seq<(Key, Value)>
  {
    [(IntKey(0), Str("name")), (IntKey(1), Str("email"))]
  }

  lemma NameEmailJoined()
    ensures Join(["`name`", "`email`"], ", ") == "`name`, `email`"
  {
  }

  lemma NameEmailElements(lib: Filters)
    ensures forall k :: 0 <= k < |NameEmail()| ==>
      ConvertParam(NameEmail()[k].1, "", true, lib) == Success(["`name`", "`email`"][k])
  {
    StringQuoted("name", true, lib);
    StringQuoted("email", true, lib);
    assert "`" + "name" + "`" == "`name`" && "`" + "email" + "`" == "`email`";
  }

  lemma NameEmailIdentifiers(lib: Filters)
    ensures ConvertParam(Arr(NameEmail()), "#", false, lib) == Success("`name`, `email`")
  {
    var es := NameEmail();
    IdentifierList(es, false, lib);
    assert IsSequential(es);
    NameEmailElements(lib);
    SequentialExpansion(es, true, lib, ["`name`", "`email`"]);
    NameEmailJoined();
  }

  function NameEmailRecord(): seq<(Key, Value)>
  {
    [(StrKey("name"), Str("Jack")), (StrKey("email"), Null)]
  }

  lemma JoinTwo(a: string, b: string, sep: string)
    ensures Join([a, b], sep) == a + sep + b
  {
    assert [a, b][1..] == [b];
  }

  lemma RecordItems()
    ensures KeyValueTexts(NameEmailRecord(), ["'Jack'", "NULL"]) == ["`name` = 'Jack'", "`email` = NULL"]
  {
    var kv := KeyValueTexts(NameEmailRecord(), ["'Jack'", "NULL"]);
    assert kv[0] == "`" + "name" + "` = " + "'Jack'" == "`name` = 'Jack'";
    assert kv[1] == "`" + "email" + "` = " + "NULL" == "`email` = NULL";
  }

  lemma RecordTexts()
    ensures Join(KeyValueTexts(NameEmailRecord(), ["'Jack'", "NULL"]), ", ") == "`name` = 'Jack', `email` = NULL"
  {
    RecordItems();
    JoinTwo("`name` = 'Jack'", "`email` = NULL", ", ");
    assert "`name` = 'Jack'" + ", " + "`email` = NULL" == "`name` = 'Jack', `email` = NULL";
  }

  lemma RecordAssignments(lib: Filters)
    ensures ConvertParam(Arr(NameEmailRecord()), "a", false, lib) == Success("`name` = 'Jack', `email` = NULL")
  {
    var es := NameEmailRecord();
    ArraySpecifierRules(Arr(es), false, lib);
    assert !IsSequential(es) by { assert es[0].0 != IntKey(0); }
    JackQuoted(lib);
    NullRule("", false, lib);
    AssociativeExpansion(es, false, lib, ["'Jack'", "NULL"]);
    RecordTexts();
  }

  function OneTwoThree(): seq<(Key, Value)>
  {
    [(IntKey(0), Int(1)), (IntKey(1), Int(2)), (IntKey(2), Int(3))]
  }

  lemma OneTwoThreeJoined()
    ensures Join(["1", "2", "3"], ", ") == "1, 2, 3"
  {
  }

  lemma OneTwoThreeList(lib: Filters)
    ensures ConvertParam(Arr(OneTwoThree()), "a", false, lib) == Success("1, 2, 3")
  {
    var es := OneTwoThree();
    ArraySpecifierRules(Arr(es), false, lib);
    assert IsSequential(es);
    SmallIntegers();
    DefaultConversion(Int(1), "", false, lib);
    DefaultConversion(Int(2), "", false, lib);
    DefaultConversion(Int(3), "", false, lib);
    SequentialExpansion(es, false, lib, ["1", "2", "3"]);
    OneTwoThreeJoined();
  }

  lemma UserIdIdentifier(lib: Filters)
    ensures ConvertParam(Str("user_id"), "#", false, lib) == Success("`user_id`")
  {
    IdentifierSingleValue(Str("user_id"), false, lib);
    assert "`" + "user_id" + "`" == "`user_id`";
  }

  // ---------------------------------------------------------------------
  // testBuildQuery
  // ---------------------------------------------------------------------

  /** A template without tokens or braces comes back unchanged. */
  lemma NoPlaceholders(lib: Filters)
    ensures Build("SELECT name FROM users " + "WHERE user_id = 1", [], lib)
      == Success("SELECT name FROM users " + "WHERE user_id = 1")
  {
    var a, b := "SELECT name FROM users ", "WHERE user_id = 1";
    assert Plain(a) && Plain(b);
    BraceFreeAppend(a, b);
    NoTokenCopiesTemplate(a + b, [], lib);
    BraceFreeUnchanged(a + b);
  }

  /** A plain `?` quotes a string argument. */
  lemma QuotedString(lib: Filters)
    ensures Build("SELECT * FROM users WHERE name = " + "?" + " AND block = 0", [Str("Jack")], lib)
      == Success("SELECT * FROM users WHERE name = " + "'Jack'" + " AND block = 0")
  {
    PlainSelectStar();
    PlainConditions();
    PlainOutputs();
    JackQuoted(lib);
    assert "?" == "?" + "";
    OneTokenBuild("SELECT * FROM users WHERE name = ", "", " AND block = 0", Str("Jack"), "'Jack'", lib);
  }

  /** `?#` lists identifiers; `?d` takes an integer, and a boolean as 1. */
  lemma IdentifiersAndIntegers(lib: Filters)
    requires SoundIntFilter(lib)
    ensures Build("SELECT " + "?#" + " FROM users WHERE user_id = " + "?d" + " AND block = " + "?d",
                  [Arr(NameEmail()), Int(2), Bool(true)], lib)
      == Success("SELECT " + "`name`, `email`" + " FROM users WHERE user_id = " + "2" + " AND block = " + "1")
  {
    assert "?#" == "?" + "#" && "?d" == "?" + "d";
    PlainSelectName();
    PlainWhereId();
    PlainConditions();
    PlainOutputs();
    SmallIntegers();
    IntegersUnderD(2, true, false, lib);
    NameEmailIdentifiers(lib);
    ThreeTokenBuildAtEnd("SELECT ", "#", " FROM users WHERE user_id = ", "d", " AND block = ", "d",
                         Arr(NameEmail()), Int(2), Bool(true), "`name`, `email`", "2", "1", lib);
  }

  /** `?a` on an associative array gives a list of assignments; null becomes NULL. */
  lemma AssignmentList(lib: Filters)
    ensures Build("UPDATE users SET " + "?a" + " WHERE user_id = -1", [Arr(NameEmailRecord())], lib)
      == Success("UPDATE users SET " + "`name` = 'Jack', `email` = NULL" + " WHERE user_id = -1")
  {
    PlainUpdate();
    PlainAssignments();
    RecordAssignments(lib);
    assert "?a" == "?" + "a";
    OneTokenBuild("UPDATE users SET ", "a", " WHERE user_id = -1", Arr(NameEmailRecord()),
                  "`name` = 'Jack', `email` = NULL", lib);
  }

  /** The template with a conditional block, before removal. */
  lemma ConditionalSubstitute(lib: Filters, last: Value, x: string)
    requires ConvertParam(last, "d", false, lib) == Success(x)
    ensures Substitute("SELECT name FROM users WHERE " + "?#" + " IN (" + "?a" + "){ AND block = " + "?d" + "}",
                       [Str("user_id"), Arr(OneTwoThree()), last], lib)
      == Success("SELECT name FROM users WHERE " + "`user_id`" + " IN (" + "1, 2, 3" + "){ AND block = " + x + "}")
  {
    assert "?#" == "?" + "#" && "?a" == "?" + "a" && "?d" == "?" + "d";
    assert '?' !in "){ AND block = " && '?' !in "}";
    PlainSelectName();
    PlainWhereId();
    UserIdIdentifier(lib);
    OneTwoThreeList(lib);
    ThreeTokenSubstitute("SELECT name FROM users WHERE ", "#", " IN (", "a", "){ AND block = ", "d", "}",
                         Str("user_id"), Arr(OneTwoThree()), last, "`user_id`", "1, 2, 3", x, lib);
  }

  /** Text before the conditional block, after substitution: no braces. */
  lemma ConditionalPrefixPlain()
    ensures Plain("SELECT name FROM users WHERE " + "`user_id`" + " IN (" + "1, 2, 3" + ")")
  {
    PlainSelectName();
    PlainWhereId();
    PlainOutputs();
    var a1, x1, a2, x2, a3 := "SELECT name FROM users WHERE ", "`user_id`", " IN (", "1, 2, 3", ")";
    BraceFreeAppend(a1, x1);
    BraceFreeAppend(a1 + x1, a2);
    BraceFreeAppend(a1 + x1 + a2, x2);
    BraceFreeAppend(a1 + x1 + a2 + x2, a3);
  }

  /** The substituted text splits into the prefix and the block `{ AND block = x}`. */
  lemma ConditionalSplit(p: string, x: string)
    ensures p + "){ AND block = " + x + "}" == (p + ")") + ("{" + " AND block = " + x + "}")
  {
    assert "){ AND block = " == ")" + "{" + " AND block = ";
  }

  lemma ConditionBodies()
    ensures forall k :: 0 <= k < |" AND block = "| ==> InBody(" AND block = "[k])
    ensures forall k :: 0 <= k < |" AND block = 1"| ==>
      " AND block = 1"[k] != '{' && " AND block = 1"[k] != '}' && " AND block = 1"[k] != ':'
  {
  }

  /** With the skip marker as its argument the whole conditional block disappears. */
  lemma SkippedBlockRemoved(lib: Filters)
    ensures Build("SELECT name FROM users WHERE " + "?#" + " IN (" + "?a" + "){ AND block = " + "?d" + "}",
                  [Str("user_id"), Arr(OneTwoThree()), Str(Skip())], lib)
      == Success("SELECT name FROM users WHERE " + "`user_id`" + " IN (" + "1, 2, 3" + ")")
  {
    var p := "SELECT name FROM users WHERE " + "`user_id`" + " IN (" + "1, 2, 3";
    var m := " AND block = ";
    ConditionalSplit(p, Skip());
    assert "{" + m + Skip() + "}" == "{" + m + Closer();
    SkipIsIdentity("d", false, lib);
    ConditionalSubstitute(lib, Str(Skip()), Skip());
    BuildAfterSubstitute("SELECT name FROM users WHERE " + "?#" + " IN (" + "?a" + "){ AND block = " + "?d" + "}",
                         [Str("user_id"), Arr(OneTwoThree()), Str(Skip())], lib, p + "){ AND block = " + Skip() + "}");
    ConditionalPrefixPlain();
    ConditionBodies();
    SkippedAfterPlain(p + ")", m);
  }

  /** With a value the block stays and only its braces go. */
  lemma KeptBlockUnbraced(lib: Filters)
    requires SoundIntFilter(lib)
    ensures Build("SELECT name FROM users WHERE " + "?#" + " IN (" + "?a" + "){ AND block = " + "?d" + "}",
                  [Str("user_id"), Arr(OneTwoThree()), Bool(true)], lib)
      == Success("SELECT name FROM users WHERE " + "`user_id`" + " IN (" + "1, 2, 3" + ")" + " AND block = 1")
  {
    var p := "SELECT name FROM users WHERE " + "`user_id`" + " IN (" + "1, 2, 3";
    ConditionalSplit(p, "1");
    assert "{" + " AND block = " + "1" + "}" == "{" + " AND block = 1" + "}";
    IntegersUnderD(1, true, false, lib);
    ConditionalSubstitute(lib, Bool(true), "1");
    BuildAfterSubstitute("SELECT name FROM users WHERE " + "?#" + " IN (" + "?a" + "){ AND block = " + "?d" + "}",
                         [Str("user_id"), Arr(OneTwoThree()), Bool(true)], lib, p + "){ AND block = " + "1" + "}");
    ConditionalPrefixPlain();
    ConditionBodies();
    KeptAfterPlain(p + ")", " AND block = 1");
  }

  // ---------------------------------------------------------------------
  // The failing cases
  // ---------------------------------------------------------------------

  lemma NotEnoughParamsNone(lib: Filters)
    ensures Build("SELECT * FROM users WHERE name = " + "?" + " AND block = 0", [], lib)
      == Failure(NotEnoughParams)
  {
    var a, b := "SELECT * FROM users WHERE name = ", " AND block = 0";
    PlainSelectStar();
    assert a + "?" + b == a + ("?" + "" + b);
    MissingStep(a, "", b, lib);
  }

  lemma NotEnoughParamsOneShort(lib: Filters)
    ensures Build("SELECT * FROM users WHERE name = " + "?" + " AND block = " + "?d", [Str("Jack")], lib)
      == Failure(NotEnoughParams)
  {
    var a1, a2 := "SELECT * FROM users WHERE name = ", " AND block = ";
    PlainSelectStar();
    PlainConditions();
    var t1 := a2 + ("?" + "d" + "");
    assert a1 + "?" + a2 + "?d" == a1 + ("?" + "" + t1);
    JackQuoted(lib);
    MissingStep(a2, "d", "", lib);
    Step(a1, "", t1, [Str("Jack")], lib, "'Jack'");
    assert [Str("Jack")][1..] == [];
  }

  /** Null under `#`. */
  lemma NullUnderIdentifier(lib: Filters)
    ensures Build("SELECT " + "?#" + " FROM users WHERE user_id = " + "?d" + " AND block = " + "?d",
                  [Null, Int(2), Bool(true)], lib)
      == Failure(NullNotAllowed("#"))
  {
    PlainSelectName();
    var t2 := " FROM users WHERE user_id = " + ("?" + "d" + (" AND block = " + ("?" + "d" + "")));
    assert "SELECT " + "?#" + " FROM users WHERE user_id = " + "?d" + " AND block = " + "?d" == "SELECT " + ("?" + "#" + t2);
    NullRule("#", false, lib);
    FailingStep("SELECT ", "#", t2, [Null, Int(2), Bool(true)], lib, NullNotAllowed("#"));
  }

  /** An array under a plain `?`. */
  lemma ArrayUnderEmptySpecifier(lib: Filters)
    ensures Build("UPDATE users SET " + "?" + " WHERE user_id = -1", [Arr(NameEmailRecord())], lib)
      == Failure(EmptySpecifierType)
  {
    var a, b := "UPDATE users SET ", " WHERE user_id = -1";
    PlainUpdate();
    assert a + "?" + b == a + ("?" + "" + b);
    DefaultConversion(Arr(NameEmailRecord()), "", false, lib);
    FailingStep(a, "", b, [Arr(NameEmailRecord())], lib, EmptySpecifierType);
  }

  /** `?k` is not a specifier; the message names it. */
  lemma UnknownSpecifier(lib: Filters)
    ensures Build("SELECT * FROM users WHERE name = " + "?k" + " AND block = 0", [Str("Jack")], lib)
      == Failure(InvalidSpecifier("k"))
    ensures Message(InvalidSpecifier("k")) == "Invalid format specifier \"k\"."
  {
    var a, b := "SELECT * FROM users WHERE name = ", " AND block = 0";
    PlainSelectStar();
    assert a + "?k" + b == a + ("?" + "k" + b);
    InvalidSpecifierRule(Str("Jack"), "k", false, lib);
    FailingStep(a, "k", b, [Str("Jack")], lib, InvalidSpecifier("k"));
  }

  /** The second token's argument is refused by its filter. */
  lemma SecondRefused(v: Value, sp: string, lib: Filters)
    requires sp == "d" || sp == "f"
    requires ConvertParam(v, sp, false, lib) == Failure(SpecifierType(sp))
    ensures Build("SELECT * FROM users WHERE name = " + "?" + " AND block = " + ("?" + sp), [Str("Jack"), v], lib)
      == Failure(SpecifierType(sp))
  {
    var a1, a2 := "SELECT * FROM users WHERE name = ", " AND block = ";
    PlainSelectStar();
    PlainConditions();
    var t1 := a2 + ("?" + sp + "");
    assert a1 + "?" + a2 + ("?" + sp) == a1 + ("?" + "" + t1);
    JackQuoted(lib);
    FailingStep(a2, sp, "", [v], lib, SpecifierType(sp));
    Step(a1, "", t1, [Str("Jack"), v], lib, "'Jack'");
    assert [Str("Jack"), v][1..] == [v];
  }

  lemma NonNumericStringUnderD(lib: Filters)
    requires lib.validateInt("Peter") == None
    ensures Build("SELECT * FROM users WHERE name = " + "?" + " AND block = " + "?d", [Str("Jack"), Str("Peter")], lib)
      == Failure(SpecifierType("d"))
  {
    NumericSpecifiers(Str("Peter"), false, lib);
    SecondRefused(Str("Peter"), "d", lib);
    assert "?d" == "?" + "d";
  }

  lemma FloatUnderD(lib: Filters)
    requires lib.validateInt("2.1") == None
    ensures Build("SELECT * FROM users WHERE name = " + "?" + " AND block = " + "?d", [Str("Jack"), Float("2.1")], lib)
      == Failure(SpecifierType("d"))
  {
    NumericSpecifiers(Float("2.1"), false, lib);
    SecondRefused(Float("2.1"), "d", lib);
    assert "?d" == "?" + "d";
  }

  lemma NonNumericStringUnderF(lib: Filters)
    requires lib.validateFloat("Peter") == None
    ensures Build("SELECT * FROM users WHERE name = " + "?" + " AND block = " + "?f", [Str("Jack"), Str("Peter")], lib)
      == Failure(SpecifierType("f"))
  {
    NumericSpecifiers(Str("Peter"), false, lib);
    SecondRefused(Str("Peter"), "f", lib);
    assert "?f" == "?" + "f";
  }

  lemma EmptyArrayRefused(lib: Filters)
    ensures Build("UPDATE users SET " + "?a" + " WHERE user_id = -1", [Arr([])], lib) == Failure(EmptyArray)
  {
    var a, b := "UPDATE users SET ", " WHERE user_id = -1";
    PlainUpdate();
    assert a + "?a" + b == a + ("?" + "a" + b);
    ArraySpecifierRules(Arr([]), false, lib);
    FailingStep(a, "a", b, [Arr([])], lib, EmptyArray);
  }

  // ---------------------------------------------------------------------
  // Skipped blocks
  // ---------------------------------------------------------------------

  /**
   * The example in the remover's comment: the inner block goes in the first
   * pass; the outer one then no longer ends in the marker, so its body stays.
   */
  lemma NestedExample()
    ensures RemoveSkipped("{" + ("{" + " AND block = " + Closer()) + " AND block = 2" + "}") == " AND block = 2"
  {
    ConditionBodies();
    assert forall k :: 0 <= k < |" AND block = 2"| ==>
      " AND block = 2"[k] != '{' && " AND block = 2"[k] != '}' && " AND block = 2"[k] != ':';
    InnerBlockFirst(" AND block = ", " AND block = 2");
  }

  /** `{:SKIP:}` has an empty body, which the pattern's `+` refuses: only its braces go. */
  lemma EmptyBodyKept()
    ensures RemoveSkipped("{" + Skip() + "}") == Skip()
  {
    var s := "{" + Skip() + "}";
    forall i, e | 0 <= i < |s| ensures !IsBlock(s[i..], e) {
      if i > 0 { assert s[i..][0] == s[i]; }
    }
    StripEnclosing(Skip());
    NothingRemovableKeepsText(s);
  }

  /** A `.` inside a block keeps it from matching, marker and all. */
  lemma DotExample()
    ensures RemoveSkipped("{" + (" AND t" + "." + "id = :SKIP:") + "}") == " AND t" + "." + "id = :SKIP:"
  {
    DotKeepsBlock(" AND t", "id = :SKIP:");
  }

  /** The match is greedy: it runs to the last marker before the next `{`. */
  lemma GreedyMatch()
    ensures RemoveSkipped("{" + (" a = " + Closer() + " b = ") + Closer()) == ""
  {
    var m := " a = " + Closer() + " b = ";
    assert forall k :: 0 <= k < |m| ==> InBody(m[k]);
    MarkedBody(m);
    BlockThenPlain("{" + m + Closer(), "");
    assert "{" + m + Closer() + "" == "{" + m + Closer();
    assert StripBraces("") == "";
  }
}
