# decTest corpus parser — a verified model

The decimal package's conformance harness (`gda_test.go`) reads the General
Decimal Arithmetic test corpus. The corpus is line oriented:
- directive lines such as `precision: 9` or `rounding: half_even` set the
  arithmetic settings for the cases that follow;
- case lines `id operation operand... -> result condition...` each describe
  one operation and what it should give.

The parser turns the corpus into a list of `TestCase` records. While doing so
it:
- drops comments and blank lines;
- skips lines holding the `#` null marker;
- skips cases with infinite or NaN operands, or with a negative-zero result;
- rejects malformed lines with an error.

This project models that parser and the small predicates and conversions
around it, and proves what they promise. The model has five modules:

- `GoStrings` (`gostrings.dfy`) covers the pieces of Go's `strings`,
  `unicode` and `strconv` that the parser uses:
  - `Fields` over the `unicode.IsSpace` set;
  - ASCII `ToLower` and `ToUpper`;
  - `Contains`, `HasPrefix` and `HasSuffix`;
  - `Atoi` with the 64-bit `int` range.
- `DecTest` (`dectest.dfy`) holds the `TestCase` record and the functions
  `HasNull`, `SkipPrecision` and `CleanNumber`.
  - The line-by-line meaning of the parser is stated as pure functions:
    `ClassifyLine`, then `Advance`, then the left fold `Scan` over the
    lines, then `ParseSpec`.
  - `ParseDecTest` is written imperatively, as the source is. A loop carries
    one reused record whose settings outlive each line. It is proved equal
    to `ParseSpec` through the loop invariant
    `Scan(lines[..n]) == Scanning(SettingsOf(tc), res)`.
  - One pass of the loop is the method `ReadLine`. Its pieces are the methods
    `LineTokens` (comment cut), `SetDirective` (the directive `switch`) and
    `ReadCase`, with the operand loop in `ReadOperands`. Each is proved
    against its specification function.
- `DecTestProperties` (`dectest_props.dfy`) proves properties of the model:
  - round trips for quoted operands and for whole case lines;
  - the negative-zero regular expression, as an if-and-only-if;
  - well-formedness of every parsed case;
  - each error condition;
  - settings persisting across lines, output order, and that the first
    error is final.
- `GdaContext` (`gdacontext.dfy`) covers what a case asks of the engine:
  - the condition-name to flag translation, as a loop;
  - the rounding-name table;
  - the arithmetic context, with Go's `uint32`/`int32` truncations written
    out and the trap mask that clears Subnormal and Underflow in extended
    mode.
- `Results` (`results.dfy`) holds the `Result` and `Option` types.

The input is the sequence of lines the Go scanner yields. The text of each
line is as the scanner returns it, without its line terminator.

The parser skips every line containing `#`. `ParsedCasesWellFormed` therefore
shows that `HasNull` is false for every case the parser returns.

Besides the six setting directives, the parser accepts `version:` and
ignores it.

## Model

| member | source | states |
|---|---|---|
| DecTest.HasNull | gda_test.go:57-67 | true exactly when the result is `#` or some operand is `#` |
| DecTest.AnyNull | gda_test.go:61-66 | the operand scan finds `#` exactly when `#` is among the operands |
| DecTest.SkipPrecision | gda_test.go:69-76 | false exactly for the operations `tosci`, `toeng` and `apply` |
| DecTest.CleanNumber | gda_test.go:174-183 | never longer than its input; a token not enclosed in a matching pair of quotes is returned unchanged |
| DecTest.StoppedStays | gda_test.go:105-107 | once a line has stopped the parse with an error, the rest of the corpus does not change the outcome |
| DecTest.Unescape | gda_test.go:177-181 | un-doubling a quote never lengthens the text |
| DecTest.ApplyDirective | gda_test.go:104-134 | the arity error happens exactly when the directive line has other than two tokens; a two-token directive fails only for a value Atoi refuses or a name it does not know |
| DecTest.ParseCase | gda_test.go:136-165 | a case line never changes the settings; it fails as too short exactly when it has fewer than five tokens and otherwise fails only as a bad case line; an emitted case carries the settings in force and takes id and operation from the first two tokens |
| DecTest.ClassifyLine | gda_test.go:89-165 | a line with `#` or no tokens is skipped; only a directive line changes the settings; an emitted case carries the settings in force |
| DecTest.LineTokens | gda_test.go:94-100 | the fields of the lower-cased line, cut before the first token that begins with `--` |
| DecTest.SetDirective | gda_test.go:104-134 | succeeds exactly when the directive has two tokens, a known name and, for the numeric ones, an Atoi-readable value; the new settings and the error are those of `ApplyDirective` |
| DecTest.ReadOperands | gda_test.go:142-155 | stops early exactly when an operand before the first `->` names an infinity or a NaN; otherwise collects the cleaned operands before `->` and reports whether `->` came after at least one operand |
| DecTest.ReadCase | gda_test.go:136-165 | its effect is `ParseCase` of the line's tokens, and the settings in the record are unchanged |
| DecTest.ReadLine | gda_test.go:89-165 | its effect is `ClassifyLine` of the line; a directive sets the record's settings to the new ones and any other line leaves them as they were |
| DecTest.ParseDecTest | gda_test.go:78-172 | returns exactly `ParseSpec(lines)`: every emitted case in input order, or the first error and no cases |
| DecTestProperties.UnescapeEscape | gda_test.go:177-181 | un-doubling a quote inverts doubling it |
| DecTestProperties.CleanNumberOfQuoted | gda_test.go:174-183 | a token in single or double quotes with that quote doubled inside cleans to the original text |
| DecTestProperties.CleanNumberCharsFrom | gda_test.go:174-183 | every character of a cleaned token occurs in the token |
| DecTestProperties.CleanNumberContains | gda_test.go:174-183 | cleaning cannot create a quote-free substring such as `inf` or `nan` that the token lacked |
| DecTestProperties.NegZeroMatchesRegex | gda_test.go:84 | the negative-zero test accepts exactly `-0`, optionally `.` and one or more zeros, optionally `E` and anything without a newline |
| DecTestProperties.TokensChars | gda_test.go:91-100 | the tokens of a line without `#` are non-empty, have no upper-case letter and no `#` |
| DecTestProperties.OperandWellFormed | gda_test.go:150-154 | an operand that passed the inf/nan filter still mentions neither after cleaning, has no upper case and is not `#` |
| DecTestProperties.ParseCaseShape | gda_test.go:139-164 | an emitted case has id and operation from the first two tokens; its operands are the cleaned tokens before the first `->` and there is at least one; its result is the upper-cased cleaned token after `->`, not negative zero; its conditions are the tokens after that; its settings are the ones in force |
| DecTestProperties.ParseCaseEmits | gda_test.go:136-165 | an emitted case is well formed: named, at least one operand, no inf/nan operand, no negative-zero result, no null |
| DecTestProperties.EmittedCase | gda_test.go:88-165 | a case emitted from a line is well formed and carries the settings in force |
| DecTestProperties.SkippedLine | gda_test.go:91-103 | a line containing `#`, or with no tokens left after the comment cut, leaves the parse unchanged |
| DecTestProperties.TokensOfLine | gda_test.go:91-100 | a line whose lower-cased text is words separated by white space of any kind and length, with any leading and trailing white space, has those words as its tokens and is not skipped as a null line, provided no word holds `#` or opens a comment |
| DecTestProperties.DirectiveLine | gda_test.go:104-134 | for a line `name: value`, however spaced and capitalised: `extended` and `clamp` become `value == "1"`; `rounding` stores the value; `version` changes nothing; the three numeric names store the Atoi value or fail with the token; any other name fails |
| DecTestProperties.MaxExponentDirective | gda_test.go:104-134 | the corpus line `maxExponent: 384` sets the maximum exponent to 384 |
| DecTestProperties.DirectiveArityFails | gda_test.go:104-107 | a directive line without exactly two tokens fails with the line |
| DecTestProperties.ShortCaseLineFails | gda_test.go:136-138 | a case line of fewer than five tokens fails with the line |
| DecTestProperties.BadCaseLineFails | gda_test.go:141-158 | for a line of five or more tokens with no inf/nan operand: it fails as a bad case line exactly when it has no `->`, has `->` right after the operation, or has its only `->` last |
| DecTestProperties.SpecialOperandSkipsLine | gda_test.go:150-152 | on a line of five or more tokens, an inf/nan operand before the first `->` skips the line, even one that would otherwise be rejected as a bad case line |
| DecTestProperties.ParseCaseOfParts | gda_test.go:139-164 | tokens `id op operands -> result conditions` give exactly the case with cleaned operands, upper-cased cleaned result and the given conditions |
| DecTestProperties.CaseLineRoundTrip | gda_test.go:89-165 | a case line written from plain tokens, however spaced and capitalised, parses back to that case |
| DecTestProperties.MixedCaseLine | gda_test.go:89-165 | the line `ADDX1  add 1<tab>2 -> 3 ` gives the case `addx1`, `add`, operands `1` and `2`, result `3`, under the settings in force |
| DecTestProperties.ParsedCasesWellFormed | gda_test.go:78-172 | every case the parser returns is well formed and `HasNull` is false on it |
| DecTestProperties.StoppedIsFinal | gda_test.go:105-107 | `StoppedStays` for a corpus split in two: whatever follows the part that stopped the parse changes nothing |
| DecTestProperties.OutputGrowsInOrder | gda_test.go:165 | the cases of a prefix of the corpus are a prefix of the cases of the whole, and each line adds at most one |
| DecTestProperties.AtMostOneCasePerLine | gda_test.go:165 | no more cases than lines |
| DecTestProperties.AdvanceWithoutDirective | gda_test.go:136-165 | a line without a directive keeps the settings, only appends, emits at most one case, and every case it emits carries those settings |
| DecTestProperties.NonDirectiveLine | gda_test.go:104 | only a directive line changes the settings |
| DecTestProperties.SettingsPersist | gda_test.go:124-131 | across lines without directives the settings are unchanged and every case emitted there carries them |
| DecTestProperties.DefaultSettings | gda_test.go:80-82 | before the first directive, cases run with extended on, clamp off and the other settings zero or empty |
| GoStrings.ToLower | gda_test.go:94 | same length, each character lower-cased on its own |
| GoStrings.ToUpper | gda_test.go:159 | same length, each character upper-cased on its own |
| GoStrings.HasPrefix | gda_test.go:96 | true exactly when the prefix fits and matches the text character by character from the start |
| GoStrings.HasSuffix | gda_test.go:104 | true exactly when the suffix fits and matches the text character by character at the end |
| GoStrings.ToLowerFixes | gda_test.go:94 | lower-casing leaves no upper-case letter and is idempotent |
| GoStrings.ContainsIffOccurs | gda_test.go:91 | the substring search succeeds exactly when the text occurs at some index |
| GoStrings.FieldsAreFields | gda_test.go:94 | every field is non-empty, has no white space, and is made of the line's characters |
| GoStrings.FieldsOfLayout | gda_test.go:94 | splitting words laid out with runs of white space of any kind before, between and after them gives the words back |
| GoStrings.Atoi | gda_test.go:110-113 | a value it reads lies in the 64-bit range; an error carries the token |
| GoStrings.AtoiOfSplit | gda_test.go:110-113 | on an optional sign and a body: an error unless the body is one or more digits, otherwise the signed value when it lies in the 64-bit range and an error when it does not |
| GoStrings.AtoiAcceptsOnly | gda_test.go:110-113 | every token Atoi reads is an optional sign, then zeros, then the digits of the value's magnitude, and the value carries that sign |
| GoStrings.AtoiOfShape | gda_test.go:110-113 | every token of that shape is read as its signed value when it fits in 64 bits and rejected with the token when it does not |
| GoStrings.AtoiRejectsNonDigit | gda_test.go:110-113 | a character other than a digit anywhere after the one optional leading sign makes the token an error |
| GoStrings.AtoiRejectsEmpty | gda_test.go:110-113 | the empty token and a lone sign are errors |
| GoStrings.AtoiItoa | gda_test.go:110-113 | every 64-bit value read back from its decimal text is itself |
| GoStrings.AtoiPlusSign | gda_test.go:110-113 | on a non-empty string of digits, a leading `+` changes neither acceptance nor value |
| GdaContext.ReadCondition | gda_test.go:501-528 | a token read as a flag is that flag's name; exactly `invalid_context` is passed over |
| GdaContext.ReadConditionName | gda_test.go:502-522 | the ten flag tokens are exactly the flags' names, both ways |
| GdaContext.ExpectedFlags | gda_test.go:499-529 | succeeds exactly when no condition token is unknown, then gives the union of the named flags; otherwise reports the first unknown token |
| GdaContext.NamedFlagsAppend | gda_test.go:500-529 | the expected flags of two token lists together are the union of each, so order and repetition do not matter |
| GdaContext.ExpectedFlagsOfNames | gda_test.go:499-529 | flags written out by name read back to the same set |
| GdaContext.RoundingNamed | gda_test.go:649-658 | a name that selects a policy is that policy's name |
| GdaContext.RoundingNamedName | gda_test.go:649-658 | the rounding table is a bijection between its eight names and the policies |
| GdaContext.Uint32 | gda_test.go:353 | below 2^32, congruent to the input modulo 2^32, and the input itself when in range |
| GdaContext.Int32 | gda_test.go:354-355 | in the signed 32-bit range, congruent modulo 2^32, and the input itself when in range |
| GdaContext.Traps | gda_test.go:357-361 | a subset of the default traps that keeps every other trap and has Subnormal and Underflow exactly when they are defaults and extended mode is off |
| GdaContext.ContextOf | gda_test.go:347-363 | fails exactly for a rounding name with no policy, with that name; otherwise holds the named policy, the precision as `uint32` and the exponents as `int32` of the case's values, and exactly the default traps less Subnormal and Underflow in extended mode |

## Left out

- Reading the corpus: `bufio.Scanner` and the read error it reports (gda_test.go:168-170) are not modelled. The input is the sequence of lines, and the scanner's 64 KiB line limit is not represented.
- Text encoding: a line is a sequence of Unicode code points, while Go's strings are byte sequences. The two agree on valid UTF-8, which the corpus is. Go's byte indexing and its handling of invalid UTF-8 (`Fields` reading an invalid byte as U+FFFD) are not modelled.
- Case mapping: `strings.ToLower` and `strings.ToUpper` are modelled on ASCII letters only. Go also maps non-ASCII letters, and the corpus is ASCII.
- GoStrings.Atoi: does not tell a syntax error from a range error. Both carry the token, and the parser passes either one on unchanged.
- Error text: errors are datatype values carrying the offending line or token, not formatted messages.
- The engine: the arithmetic itself, `TestCase.Run`, the per-case comparison, the 1-ulp tolerance, `CheckPython`, `BenchmarkGDA` and the ignore tables depend on the decimal engine, which is not part of this model.
- `gdaTest` timing: its goroutine, timeout and watchdog are concurrency and timing only.
- The `tosci` result-flag merge inside `gdaTest` needs the engine's flags.
- Flag encoding: flag sets are abstract sets of conditions. The engine's bit values and the value of `DefaultTraps` are not part of this model, so `ContextOf` takes the default traps as a parameter.
- GdaContext.ContextOf: rounding policies are an enumeration of the eight names. The table's `Rounder` values belong to the engine, so the `mode == nil` check is not represented.
- The reused record: the source keeps one `TestCase` across lines, so a skipped or rejected case line leaves its id, operation and operands in that record. Only the copies appended to the result are observable. The model's record keeps the settings across lines exactly, and `ParseDecTest`'s contract speaks only of the returned cases.
- The labelled `continue Loop` that skips an inf/nan case is modelled as `ReadCase` returning the `Skip` effect, so the outer loop moves to the next line.
