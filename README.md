# vacuum-python: the decision helpers around `vacuum report`

The `vacuum` Python package lints OpenAPI documents by running the external
`vacuum report` executable. It feeds the spec on stdin and the ruleset
through an OS pipe, and turns the JSON report into `LintResult` records.
This project models the sequential, deterministic part of that binding:

- `Utf8` — Python text (`str`, code points including lone surrogates) and
  bytes, and the strict UTF-8 codec of section 3 of RFC 3629. `str.encode`
  and `bytes.decode` apply this codec. It comes with round-trip lemmas in
  both directions.
- `JsonValue` — the Python value `orjson.loads` returns, and dict lookup.
- `Exceptions` — the binding's exception hierarchy (`VacuumError`,
  `VacuumInputError`, which is also a `ValueError`, and `VacuumFatalError`).
  It also holds the library errors raised on the modelled paths.
- `Results` — the pydantic schema (`TextPoint`, `TextRange`, `LintOrigin`,
  `LintResult`) as datatypes, together with `parse_result` as a validator
  from JSON to a record or a `ValidationError`. The schema is also stated
  declaratively (`IsLintResult`), and lemmas tie the validator to it. The
  pydantic-version switch is modelled as Python's string-tuple comparison.
- `Lint` — the input gate, the argument builder, the exit-code classifier
  and the report extractor. It also has `lint` composed from them, with the
  subprocess and `orjson.loads` passed in as function parameters.

## Model

| member | source | states |
|---|---|---|
| `Utf8.EncodeScalar` | vacuum/lint.py:72 | one scalar value becomes 1 to 4 bytes, the count set by its range; every byte after the first is a continuation byte |
| `Utf8.Encode` | vacuum/lint.py:71-74 | `str.encode('utf-8')` succeeds exactly when the text has no surrogate; otherwise it fails at the first surrogate; on success it gives between one and four bytes per code point, so non-empty text gives non-empty bytes |
| `Utf8.DecodeScalar` | vacuum/lint.py:85 | a well-formed sequence at the front decodes to one scalar value of 1 to 4 bytes; overlong forms, surrogates, values above U+10FFFF and truncated sequences are rejected |
| `Utf8.Decode` | vacuum/lint.py:85 | `bytes.decode('utf-8')` gives text without surrogates and no longer than the input, or fails at an offset inside the input such that the bytes before it decode and no well-formed sequence starts there |
| `Utf8.DecodeEncodeScalar` | vacuum/lint.py:72 | decoding the encoding of a scalar value gives it back, whatever bytes follow |
| `Utf8.EncodeDecodeScalar` | vacuum/lint.py:85 | a well-formed leading sequence is exactly the encoding of the value it decodes to |
| `Utf8.DecodeEncode` | vacuum/lint.py:71-74 | decoding the UTF-8 encoding of any surrogate-free text gives the text back |
| `Utf8.EncodeDecode` | vacuum/lint.py:88 | re-encoding decoded bytes gives back exactly those bytes |
| `JsonValue.Get` | vacuum/lint.py:96 | dict subscript: None exactly when no member has the key; otherwise the value of the last member with that key |
| `Exceptions.Hierarchy` | vacuum/exceptions.py:1-10 | of the errors, exactly `VacuumInputError` is both a `VacuumError` and a `ValueError`; `VacuumFatalError` is a `VacuumError` and not a `ValueError` |
| `Results.CheckInt` | vacuum/results.py:10-11 | an int field validates exactly when present as an integer, and keeps its value; otherwise one error at the field's location |
| `Results.CheckStr` | vacuum/results.py:26 | a str field validates exactly when present as a string, and keeps its value; otherwise one error at the field's location |
| `Results.CheckTextPoint` | vacuum/results.py:9-11 | a TextPoint validates exactly when it is an object with integer `line` and `character`, and carries those values |
| `Results.CheckTextRange` | vacuum/results.py:14-16 | a TextRange validates exactly when it is an object whose `start` and `end` are valid TextPoints, and carries them |
| `Results.CheckOrigin` | vacuum/results.py:19-22 | `origin` is accepted when absent or null, giving None, or when it is an object with integer `line`, `column` and string `absolute_location`, giving that origin; otherwise at least one error |
| `Results.ValidateLintResult` | vacuum/results.py:25-31 | a value that is not an object fails with one error at the top level; a failure always lists at least one field error; which values succeed is stated by `Results.ValidateIffSchema`; the record it then gives, field by field including a present `origin`, by `Results.ValidatedFields` |
| `Results.ParseResult` | vacuum/results.py:34-39 | a failure is a ValidationError with at least one field error; when it succeeds, and with what, is stated by `Results.ParseResultOutcome` |
| `Results.ValidateIffSchema` | vacuum/results.py:25-31 | a raw result validates if and only if it has the schema's shape |
| `Results.ValidatedFields` | vacuum/results.py:25-31 | a validated record holds the JSON's values: `rule_id` from `ruleId`, `rule_severity` from `ruleSeverity`, positions from the nested members; `origin` is None exactly when absent or null, and otherwise holds the `line`, `column` and `absolute_location` of its object |
| `Results.ParseResultOutcome` | vacuum/results.py:34-39 | `parse_result` succeeds exactly on values of the schema's shape; otherwise it raises a ValidationError with at least one field error |
| `Results.MissingRequiredField` | vacuum/results.py:26-30 | if `message`, `range`, `path`, `ruleId` or `ruleSeverity` is absent, validation fails with a Missing error for that key |
| `Results.GetSkipsOtherKey` | vacuum/results.py:29-30 | a member appended under a different key does not change a lookup |
| `Results.GetSkipsInserted` | vacuum/results.py:29-30 | a member inserted anywhere under a different key does not change a lookup |
| `Results.RuleFieldsByAliasOnly` | vacuum/results.py:29-30 | a member named `rule_id` or `rule_severity`, inserted at any position of any object, changes no validation outcome: the rule fields are read only by their aliases |
| `Results.Split` | vacuum/results.py:6 | `str.split` gives at least one piece; no piece holds the separator; joining the pieces with it gives the string back |
| `Results.TextLess` | vacuum/results.py:34 | `<` on str: a text is never less than itself |
| `Results.TextLessTotal` | vacuum/results.py:34 | `<` on str is asymmetric, and of two distinct texts one is less than the other |
| `Results.TupleLess` | vacuum/results.py:34 | `<` on tuples of str: a tuple is never less than itself |
| `Results.TupleLessTotal` | vacuum/results.py:34 | `<` on tuples of str is asymmetric, and of two distinct tuples one is less than the other |
| `Results.UsesParseObj` | vacuum/results.py:34 | the version selects the pydantic 1 API exactly when its first dot-separated component orders below the string "2" |
| `Results.OneDigitMajorVersion` | vacuum/results.py:34 | with a one-digit major version, the pydantic 1 API is chosen exactly when the major version is below 2 |
| `Results.TwoDigitMajorVersion` | vacuum/results.py:34 | the version test compares strings: a major version "10" would choose the pydantic 1 API |
| `Lint.ToBytes` | vacuum/lint.py:71-74 | bytes pass through unchanged; a str becomes bytes that decode back to it, failing only at a surrogate; the output is empty exactly when the input is falsy (`Lint.IsEmpty`, Python truthiness of `''` and `b''`) |
| `Lint.HandleSpecRulesetInput` | vacuum/lint.py:67-76 | an empty spec or ruleset gives `VacuumInputError` before any encoding; non-empty inputs pass exactly when both encode; the output is the pair of their bytes in (spec, ruleset) order, both non-empty; every failure is a `ValueError` |
| `Lint.FormatReportArgs` | vacuum/lint.py:55-64 | the binary, then `report --no-pretty --no-style --stdin --stdout`, then the extras in order; the length is six plus the number of extras |
| `Lint.Subscript` | vacuum/lint.py:96-98 | subscripting a dict gives the member or None (the KeyError); subscripting anything else raises TypeError |
| `Lint.Iterate` | vacuum/lint.py:100 | a list yields its items; a dict yields its keys, as str values, in order; a str yields its characters, each a one-character str, in order; other values raise TypeError |
| `Lint.Collect` | vacuum/lint.py:100 | a list of outcomes succeeds exactly when every one does, keeping order and length; otherwise it carries the first failure |
| `Lint.ParseAll` | vacuum/lint.py:100 | the comprehension succeeds exactly when every item parses; then element i is `parse_result(items[i])`; otherwise its error is that of the first failing item |
| `Lint.ParseAllFailure` | vacuum/lint.py:100 | the list parses exactly when every item has the schema's shape; otherwise it fails with the ValidationError of the first item that does not |
| `Lint.ParseVacuumReport` | vacuum/lint.py:93-100 | no `resultSet`, or no `results` in it, gives `[]`; a non-dict report or `resultSet` raises TypeError; otherwise the outcome is that of iterating `results` (TypeError when it is not iterable) and parsing every item in order; every failure is a TypeError or a ValidationError |
| `Lint.FinalizeReportProc` | vacuum/lint.py:79-90 | exit code 2 raises `VacuumFatalError` with decoded stderr; any other non-zero code raises `VacuumError` with decoded stdout; only exit code 0 reaches `loads` and the report parser |
| `Lint.FatalCarriesStderr` | vacuum/lint.py:84-85 | exit code 2 raises `VacuumFatalError` whose message is exactly the text the process wrote to stderr |
| `Lint.FailureCarriesStdout` | vacuum/lint.py:87-88 | every other non-zero exit raises `VacuumError` whose message is exactly the text written to stdout |
| `Lint.EmptyReport` | vacuum/lint.py:93-100 | a clean exit whose report (any dict) has a dict `resultSet` whose `results` is the empty list yields `[]`, whatever the other members |
| `Lint.Lint` | vacuum/lint.py:14-30 | an empty spec or ruleset raises `VacuumInputError` whatever the process would do |
| `Lint.LintInputErrorIsValueError` | vacuum/lint.py:15 | when the input gate rejects, `lint` raises a `ValueError` |

## Left out

- Process spawning, `communicate` and the event loop in `lint` and `lint_async` (vacuum/lint.py:17-30, 36-52) are operating-system I/O. The process is the parameter `run` of `Lint.Lint`. `lint_async` calls the same helpers in the same order as `lint`, so `Lint.Lint` stands for both.
- `StaticContentNamedPipe` (vacuum/util.py) is a writer thread over `os.pipe`. Its path `/dev/fd/N` is the parameter `pipe`, and the ruleset bytes it carries are the third argument of `run`.
- The path of the installed binary (`vacuum.lib.vacuum_bin`) is the parameter `bin`.
- `vacuum_downloader.py` and `build_wheels.py` do HTTP downloads, tar extraction, file writes and packaging. None of that is modelled.
- `orjson.loads` is a foreign parser. It is the parameter `loads`, and None stands for its `JSONDecodeError`. Floating-point numbers are kept as an uninterpreted `JFloat` kind.
- `JsonValue.Get` keeps the last of several members with the same key, which is how a dict is filled. `Lint.Iterate` yields one element per member of a dict, even for duplicate keys. The outcome is the same either way, because any element of a dict fails validation in the same manner.
- Pydantic's lax coercions (numeric strings, floats or booleans accepted as integers, and so on) are library behaviour outside the source. The model checks kinds strictly. Extra keys are ignored, as pydantic does by default.
- `parse_result` is defined with `LintResult.parse_obj` under pydantic 1 and with `LintResult.model_validate` under pydantic 2 (vacuum/results.py:34-39). Both are modelled by the one validator `Results.ValidateLintResult`; only the switch between them, `Results.UsesParseObj`, is modelled. The APIs differ in ways the model does not capture: pydantic 1's `parse_obj` first coerces a non-dict argument with `dict(obj)`, and the two versions report different error locations and messages.
- `Results.ValidateLintResult` reports field errors by location and kind only. Pydantic's message texts and its exact error-type names differ between its major versions and are not modelled.
- `Lint.Lint`: its own contract states only the input-error case. On accepted inputs its result is given by its body, which composes `Lint.HandleSpecRulesetInput`, `Lint.FormatReportArgs` with `--ruleset <pipe>`, the process `run` and `Lint.FinalizeReportProc`; no further property of that path is stated.
- The linting itself, its rules and its ruleset semantics live in the external binary. The expectations in tests/vacuum/test_lint.py:135-147 depend on that binary.
