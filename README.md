# Query templating engine, modelled in Dafny

The original engine is a single PHP class, `DatabaseInterface`. Its `buildQuery` method takes an SQL template and a list of arguments and works in two stages.

1. Every token `?`, `?d`, `?f`, `?a`, `?#` (in general `?` followed by at most one character of `[\w#]`) is replaced, left to right, by the next argument. Each argument is converted under the token's specifier:
   - `NULL`;
   - the skip marker `:SKIP:`, passed through unchanged;
   - a quoted string or back-quoted identifier;
   - integer or float text;
   - or a comma-separated expansion of an array.
2. Every block `{…:SKIP:}` that the pattern `/{[^{.]+:SKIP:}/` matches is deleted, repeatedly until none is left. Then every remaining brace is removed.

Errors are PHP exceptions. Here each is an `Error` value carried by `Result`, and `Message` gives the exact exception text.

The project has five modules:

- `Values` (`values.dfy`): the argument values, array keys, errors and their messages, the skip marker, the null-admitting specifiers, and decimal rendering of integers.
- `Converter` (`converter.dfy`): `convertParam`, `convertParamByDefault`, `convertParamBySpecifier`, `checkArrayOfStrings` and `convertArray` as mutually recursive functions, with their rules proved as lemmas.
- `SkipBlocks` (`skip_blocks.dfy`): the block pattern as an explicit scanner.
  - `BlockEnd` is the greedy match at one position.
  - `Pass` is one global `preg_replace`, and `RemoveSkipped` is the whole remover.
  - The method `RemoveSkippedBlocks` is the `while ($count > 0)` loop, proved equal to `RemoveSkipped`.
- `QueryBuilder` (`query_builder.dfy`): the token scanner, the substitution `Substitute` and its meaning `Build`.
  - The method `BuildQuery` is the left-to-right scan. An argument cursor stands in for `array_shift` on the caller's array. The method is proved equal to `Build`.
- `QueryExamples` (`examples.dfy`): every case of the repository's test suite, and the behaviours of the remover pattern, stated on the model.

The filters `FILTER_VALIDATE_INT` and `FILTER_VALIDATE_FLOAT` are a parameter, `Filters`. Each receives PHP's string cast of the value. `SoundIntFilter` states the one guarantee of the integer filter the engine relies on: it accepts the decimal text of every 64-bit integer as that integer. Integer text outside the 64-bit range is left to the filter, which PHP refuses. The cases with `?d` over integers or booleans assume it. Cases with a refused `?d` or `?f` argument constrain the filters only on the string they hand them.

The remover's doc comment (DatabaseInterface.php:180) names `{{ AND block = :SKIP:} AND block = 2}` as an example of a nested block. The first pass deletes the inner block. The outer block does not end in the marker, so only its braces go and ` AND block = 2` remains; see `QueryExamples.NestedExample` and `SkipBlocks.InnerBlockFirst`.

## Model

| member | source | states |
|---|---|---|
| Values.Skip | DatabaseInterface.php:47-50 | the marker is `:SKIP:`, six characters with no `?`, brace or dot: it starts no placeholder and can stand inside a skipped block's body |
| Values.NullAllowedSpecifiers | DatabaseInterface.php:16 | the specifiers under which null is admitted: "", "d" and "f" (definition) |
| Values.Message | DatabaseInterface.php:33-165 | the exception text of each error, as thrown at lines 33, 65, 103, 135, 139 and 165 (definition) |
| Values.StrVal | DatabaseInterface.php:121-124 | PHP's string cast of a value, which the filters receive (definition) |
| Values.DecimalText | DatabaseInterface.php:106-107 | an integer's text is non-empty and starts with `-` exactly when the integer is negative |
| Values.NatText | DatabaseInterface.php:106-107 | a natural number's text is all decimal digits, with no leading zero |
| Values.NatTextRoundTrip | DatabaseInterface.php:106-107 | reading the digits back gives the number: the rendering loses nothing |
| Values.MessageDeterminesError | DatabaseInterface.php:33-165 | two errors whose exception messages are equal are the same error, including the specifier named in the message |
| Converter.IsEmptySpec | DatabaseInterface.php:78 | PHP's `empty()` on a specifier: true for "" and for "0" (definition) |
| Converter.KeyText | DatabaseInterface.php:173 | the text of a key interpolated into `` `key` = value `` (definition) |
| Converter.KeyValueTexts | DatabaseInterface.php:173 | the `` `key` = value `` part of each entry, in order (definition) |
| Converter.Join | DatabaseInterface.php:176 | `implode`: the parts in order with the separator between neighbours (definition) |
| Converter.IsSequential | DatabaseInterface.php:168 | the keys are exactly 0, 1, ..., n-1 in order (definition) |
| Converter.AsIntIfBool | DatabaseInterface.php:74-76 | the result is never a boolean, and a non-boolean is left as it is |
| Converter.Quoted | DatabaseInterface.php:94-100 | the string is wrapped, unescaped, in back quotes in identifier context and in single quotes otherwise |
| Converter.ConvertParam | DatabaseInterface.php:59-83 | a conversion never fails with "Not enough params!", and under the empty specifier it can fail only with the empty-specifier type error |
| Converter.ConvertByDefault | DatabaseInterface.php:92-108 | succeeds exactly on strings, integers and floats; any other value fails with "Invalid parameter type for empty specifier!" |
| Converter.ConvertBySpecifier | DatabaseInterface.php:117-143 | never fails for want of arguments; "Invalid format specifier" only for a specifier other than d, f, a and # |
| Converter.CountStrings | DatabaseInterface.php:150-153 | the count of string entries is at most the entry count, and equals it exactly when every entry is a string |
| Converter.AllStrings | DatabaseInterface.php:150-153 | `checkArrayOfStrings` holds exactly when every value of the array is a string |
| Converter.ConvertArray | DatabaseInterface.php:161-177 | an empty array fails with "Array param shouldn't be empty!"; the only other failure is an element's type error under the empty specifier |
| Converter.ConvertEntries | DatabaseInterface.php:170 | on success one converted text per element; a failing element can only be a type error of the default conversion |
| Converter.NullRule | DatabaseInterface.php:61-67 | null becomes `NULL` exactly under "", "d" and "f" (the null-admitting specifiers of line 16), else fails naming the specifier |
| Converter.SkipIsIdentity | DatabaseInterface.php:69-72 | the skip marker comes back unchanged under every specifier, valid or not, and in identifier context |
| Converter.BoolAsInteger | DatabaseInterface.php:74-76 | true and false convert exactly as the integers 1 and 0 under every specifier |
| Converter.ZeroSpecifierIsDefault | DatabaseInterface.php:78-82 | `?0` takes the default path for every non-null value, because `empty("0")` holds, while null under `0` is refused |
| Converter.DefaultConversion | DatabaseInterface.php:92-108 | with the empty specifier, strings are quoted, integers and booleans give decimal text, floats their text, and arrays fail |
| Converter.InvalidSpecifierRule | DatabaseInterface.php:134-135 | a non-empty specifier is refused by name exactly when it is not d, f, a or # |
| Converter.NumericSpecifiers | DatabaseInterface.php:120-125 | `d` and `f` hand the value's string form to the int or float filter; an array or a filter failure gives the type error naming the specifier |
| Converter.InInt64 | DatabaseInterface.php:121 | the 64-bit range of PHP integers that `FILTER_VALIDATE_INT` accepts (definition) |
| Converter.IntegersUnderD | DatabaseInterface.php:120-141 | with an integer filter that accepts the text of every 64-bit integer, `?d` renders every 64-bit integer as its decimal text and true and false as 1 and 0 |
| Converter.ArraySpecifierRules | DatabaseInterface.php:126-128 | `a` refuses non-arrays and expands arrays without identifier quoting; an empty array fails as empty under `a` and `#` |
| Converter.IdentifierSingleValue | DatabaseInterface.php:129-133 | `#` on a single string gives one back-quoted identifier; any other scalar is refused |
| Converter.IdentifierList | DatabaseInterface.php:129-133 | `#` on an array expands it in identifier mode when every element is a string, and otherwise fails with the type error |
| Converter.ConvertEntriesAll | DatabaseInterface.php:170 | when every element converts, the element conversions are exactly those texts, in order |
| Converter.ConvertEntriesFailure | DatabaseInterface.php:170 | the element conversions fail exactly when some element fails, and then with the first failing element's error |
| Converter.SequentialExpansion | DatabaseInterface.php:168-176 | an array with keys 0..n-1 expands to its converted elements joined by ", " |
| Converter.AssociativeExpansion | DatabaseInterface.php:172-176 | any other array expands to `` `key` = value `` parts joined by ", ", its values never identifier-quoted |
| Converter.ExpansionFailure | DatabaseInterface.php:163-170 | an expansion fails exactly when the array is empty or some element fails to convert |
| Converter.NestedArrayRefused | DatabaseInterface.php:170 | an array inside an array argument always makes the expansion fail |
| SkipBlocks.Closer | DatabaseInterface.php:191 | the text `:SKIP:}` that ends every match (definition) |
| SkipBlocks.InBody | DatabaseInterface.php:191 | the class `[^{.]`: every character except `{` and `.` (definition) |
| SkipBlocks.ClosesAt | DatabaseInterface.php:191 | the seven characters ending at a position are `:SKIP:}` (definition) |
| SkipBlocks.IsBlock | DatabaseInterface.php:191 | a match at the front ending at `e`: `{`, at least one character of `[^{.]`, then `:SKIP:}`; the reference the scanner is proved against (definition) |
| SkipBlocks.NoBlock | DatabaseInterface.php:190-192 | no position starts a match, the state in which the loop stops (definition) |
| SkipBlocks.RunEnd | DatabaseInterface.php:191 | the end of the maximal run of characters of `[^{.]`: all inside it are admitted, the one after it is not |
| SkipBlocks.LastCloser | DatabaseInterface.php:191 | the last position at or before a bound where `:SKIP:}` ends, and none later |
| SkipBlocks.BlockEnd | DatabaseInterface.php:191 | a match at the front of the text is found exactly when one exists, and it is the longest one (greedy) |
| SkipBlocks.Pass | DatabaseInterface.php:191 | one global replacement: each deletion shortens the text by at least nine characters, and with no deletion the text is unchanged |
| SkipBlocks.PassFindsEveryBlock | DatabaseInterface.php:191 | the replacement count is zero exactly when no position of the text starts a match |
| SkipBlocks.StripBraces | DatabaseInterface.php:194 | the result holds no brace, and text without braces is unchanged |
| SkipBlocks.StripKeepsOthers | DatabaseInterface.php:194 | every character other than a brace keeps its number of occurrences; with `StripIsSubsequence`, the result is the input with exactly its braces deleted |
| SkipBlocks.StripIsSubsequence | DatabaseInterface.php:194 | what the stripping keeps stays in order |
| SkipBlocks.RemoveSkipped | DatabaseInterface.php:184-195 | the remover's output never contains a brace |
| SkipBlocks.RemoveSkippedBlocks | DatabaseInterface.php:184-195 | the loop ends, and its result is the remover's meaning, with no braces |
| SkipBlocks.RemoveSkippedIdempotent | DatabaseInterface.php:184-195 | running the remover on its own output changes nothing |
| SkipBlocks.RemoveSkippedIsSubsequence | DatabaseInterface.php:184-195 | the remover only deletes characters; what it keeps stays in order |
| SkipBlocks.NothingRemovableKeepsText | DatabaseInterface.php:190-194 | when no block matches anywhere, everything but the braces is kept |
| SkipBlocks.WithoutCloserNothingRemoved | DatabaseInterface.php:191-194 | text where `:SKIP:}` never occurs loses only its braces |
| SkipBlocks.PlainPrefixKept | DatabaseInterface.php:191-194 | a brace-free prefix is kept as it is, in front of the result for the rest |
| SkipBlocks.BraceFreeUnchanged | DatabaseInterface.php:191-194 | text without braces comes out unchanged |
| SkipBlocks.MarkedBody | DatabaseInterface.php:191 | a brace, a non-empty body free of `{` and `.`, then `:SKIP:}` is a match running to its end |
| SkipBlocks.BlockThenPlain | DatabaseInterface.php:191-194 | such a block followed by text without `{` and `:` is deleted whole in one pass |
| SkipBlocks.NoColonNothingRemoved | DatabaseInterface.php:191-194 | text without `:` can hold no marker, so only its braces go |
| SkipBlocks.StripEnclosing | DatabaseInterface.php:194 | brace-free text inside one pair of braces loses exactly those two braces |
| SkipBlocks.EnclosedKept | DatabaseInterface.php:191-194 | a block without `:` is kept and loses only its braces |
| SkipBlocks.DotKeepsBlock | DatabaseInterface.php:191 | a `.` inside a block stops it from matching, marker or not: the body survives and only the braces go |
| SkipBlocks.InnerBlockFirst | DatabaseInterface.php:180-192 | in a block nested at the front of another, the inner one goes first; the outer body then stays |
| SkipBlocks.SkippedAfterPlain | DatabaseInterface.php:190-194 | a trailing skipped block disappears and the brace-free text before it stays |
| SkipBlocks.KeptAfterPlain | DatabaseInterface.php:190-194 | a trailing block without the marker keeps its body after brace-free text |
| QueryBuilder.IsSpecChar | DatabaseInterface.php:29 | the class `[\w#]`: ASCII letters, digits, `_` and `#` (definition) |
| QueryBuilder.TokenSpec | DatabaseInterface.php:29 | the specifier is the character after `?` when it is in `[\w#]`, and is empty otherwise |
| QueryBuilder.Placeholders | DatabaseInterface.php:28-29 | every token's specifier is empty or a single character of `[\w#]` |
| QueryBuilder.OneTokenPerQuestionMark | DatabaseInterface.php:29 | there are exactly as many tokens as `?` characters, since a specifier is never `?` |
| QueryBuilder.QuestionMarksCounted | DatabaseInterface.php:29 | there are no `?` characters exactly when the count is zero, so such a template has no token |
| QueryBuilder.Substitute | DatabaseInterface.php:28-39 | a successful substitution had at least one argument per token |
| QueryBuilder.Build | DatabaseInterface.php:26-42 | the result holds no brace, and fails exactly when the substitution fails |
| QueryBuilder.ScanToken | DatabaseInterface.php:30-36 | one token of the scan takes the next argument and fails with its conversion's error |
| QueryBuilder.ScanPlain | DatabaseInterface.php:28-39 | a character that is not `?` is copied to the output |
| QueryBuilder.BuildQuery | DatabaseInterface.php:26-42 | the scan with the argument cursor, then the remover, returns exactly `Build` |
| QueryBuilder.SubstituteSucceeds | DatabaseInterface.php:28-39 | substitution succeeds exactly when there are enough arguments and each token's argument converts under its specifier |
| QueryBuilder.NotEnoughParamsExactly | DatabaseInterface.php:31-34 | "Not enough params!" exactly when tokens outnumber arguments and every argument before the missing one converted |
| QueryBuilder.FirstConversionErrorWins | DatabaseInterface.php:36 | any other failure is the error of the first token whose argument fails to convert |
| QueryBuilder.ExtraArgumentsIgnored | DatabaseInterface.php:30-36 | arguments after the last token's are never looked at |
| QueryBuilder.Splice | DatabaseInterface.php:28-39 | the template with its k-th token replaced by the k-th text, inserted text not rescanned (definition) |
| QueryBuilder.SpliceOwnTokens | DatabaseInterface.php:28-39 | putting each token's own text back in its place restores the template |
| QueryBuilder.SubstituteIsSplice | DatabaseInterface.php:28-39 | on success the output is the template with each token replaced by its argument's conversion, nothing rescanned |
| QueryBuilder.NoTokenCopiesTemplate | DatabaseInterface.php:28-39 | a template without `?` is copied and consumes nothing |
| QueryBuilder.PlainTextCopied | DatabaseInterface.php:28-39 | text without `?` is copied unchanged, and the rest is substituted after it |
| QueryBuilder.TokenStep | DatabaseInterface.php:29-36 | one token takes the first argument, or fails for want of one, and the rest goes on with the remaining arguments |
| QueryExamples.OneTokenBuild | DatabaseInterface.php:26-42 | a brace-free template with one convertible token gives the template with that token's conversion |
| QueryExamples.ThreeTokenSubstitute | DatabaseInterface.php:28-39 | a template with three convertible tokens gives each conversion in its place |
| QueryExamples.ThreeTokenBuild | DatabaseInterface.php:26-42 | the same through the whole builder for brace-free text |
| QueryExamples.NoPlaceholders | DbInfTest.php:22 | a template without tokens comes back unchanged |
| QueryExamples.QuotedString | DbInfTest.php:24-27 | `?` with the string Jack gives `'Jack'` |
| QueryExamples.IdentifiersAndIntegers | DbInfTest.php:29-32 | `?#`, `?d`, `?d` with `['name','email']`, 2 and true give `` `name`, `email` ``, 2 and 1 |
| QueryExamples.AssignmentList | DbInfTest.php:35-38 | `?a` with `['name'=>'Jack','email'=>null]` gives `` `name` = 'Jack', `email` = NULL `` |
| QueryExamples.ConditionalSubstitute | DbInfTest.php:40-45 | the conditional-block template substitutes `` `user_id` ``, `1, 2, 3` and the last argument's conversion in place |
| QueryExamples.SkippedBlockRemoved | DbInfTest.php:40-45 | with the skip marker the block `{ AND block = ?d}` disappears entirely |
| QueryExamples.KeptBlockUnbraced | DbInfTest.php:40-45 | with true the block stays as ` AND block = 1` without its braces |
| QueryExamples.NotEnoughParamsNone | DbInfTest.php:59-66 | one token and no arguments fails with "Not enough params!" |
| QueryExamples.NotEnoughParamsOneShort | DbInfTest.php:68-75 | two tokens and one argument fails with "Not enough params!" |
| QueryExamples.NullUnderIdentifier | DbInfTest.php:77-84 | null under `?#` fails naming `#` |
| QueryExamples.ArrayUnderEmptySpecifier | DbInfTest.php:86-93 | an array under `?` fails with the empty-specifier type error |
| QueryExamples.UnknownSpecifier | DbInfTest.php:95-102 | `?k` fails with `Invalid format specifier "k".` |
| QueryExamples.SecondRefused | DbInfTest.php:104-129 | when the second argument is refused by its filter, the whole build fails with that specifier's type error |
| QueryExamples.NonNumericStringUnderD | DbInfTest.php:104-111 | "Peter" under `?d` fails with the type error naming `d` |
| QueryExamples.FloatUnderD | DbInfTest.php:113-120 | 2.1 under `?d` fails with the type error naming `d` |
| QueryExamples.NonNumericStringUnderF | DbInfTest.php:122-129 | "Peter" under `?f` fails with the type error naming `f` |
| QueryExamples.EmptyArrayRefused | DbInfTest.php:131-138 | an empty array under `?a` fails with "Array param shouldn't be empty!" |
| QueryExamples.NestedExample | DatabaseInterface.php:180 | `{{ AND block = :SKIP:} AND block = 2}` leaves ` AND block = 2` |
| QueryExamples.EmptyBodyKept | DatabaseInterface.php:191 | `{:SKIP:}` has an empty body, so it is not removed: the marker stays and only the braces go |
| QueryExamples.DotExample | DatabaseInterface.php:191 | `{ AND t.id = :SKIP:}` is not removed because of its `.`; only the braces go |
| QueryExamples.GreedyMatch | DatabaseInterface.php:191 | `{ a = :SKIP:} b = :SKIP:}` is one match up to the last marker, so nothing is left |

## Left out

- Floats: `FILTER_VALIDATE_FLOAT` and PHP's float-to-string formatting are floating-point numerics. A float argument is carried as the text PHP prints for it (`Float(text)`). The float filter is a parameter that returns that text.
- Converter.NumericSpecifiers: the exact rules of `FILTER_VALIDATE_INT` on strings are not modelled: whitespace, sign, leading zeros and range. The filter is a parameter applied to PHP's string cast of the value. Only its acceptance of the text of every 64-bit integer is stated, as `SoundIntFilter` (used by `Converter.IntegersUnderD`). The refused-argument cases fix it only on the strings they use.
- The float filter on an integer argument is left open. PHP renders the resulting float with 14 significant digits, which differs from the integer's text for large integers, and floats are outside the model.
- Values.DecimalText: integers are unbounded. PHP's 64-bit integers are not modelled, because the engine does no arithmetic on them.
- PHP array key coercion is not modelled: numeric-string keys becoming integers, and later duplicate keys overwriting earlier ones. Keys arrive already typed, as a list of entries in order.
- The PCRE engine is replaced by explicit scanners for the two patterns: `TokenSpec` and `Placeholders` for the token pattern, `BlockEnd` and `Pass` for the block pattern. In `[\w#]`, `\w` is taken as the ASCII letters, digits and `_`. Locale-dependent word characters are not modelled.
- `in_array` at line 62 compares loosely. That is the same as exact comparison for the specifiers the token pattern can produce, which are one character or empty, so the model compares exactly.
- Exceptions are the `Error` datatype. `Message` gives each exception's text. The PHPUnit harness around the test cases is not modelled.
- `buildQuery` receives its arguments by value, so `array_shift` empties only its own copy. The model reads the same arguments through a cursor instead.
- PHP's `mixed` return of `convertParam` is modelled as the text that `preg_replace_callback` and `implode` make of it.
