/**
 * The decision helpers around the `vacuum report` subprocess: the input
 * gate, the argument list, the exit-code classifier and the report
 * extractor, and `lint` composed from them with the process abstracted.
 */
module Lint {
  import opened Wrappers
  import opened Utf8
  import opened JsonValue
  import opened Exceptions
  import opened Results

  /** A `str | bytes` argument. */
  datatype Input = Str(text: Text) | Bin(bytes: Bytes)

  /** Python truthiness of the argument: `''` and `b''` are false. */
  predicate IsEmpty(x: Input) {
    match x
    case Str(t) => |t| == 0
    case Bin(b) => |b| == 0
  }

  /** The bytes an argument stands for: a str is UTF-8 encoded, bytes pass unchanged. */
  function ToBytes(x: Input): (r: Result<Bytes, Error>)
    ensures x.Bin? ==> r == Success(x.bytes)
    ensures x.Str? ==> (r.Success? <==> AllScalars(x.text))
    ensures x.Str? && r.Success? ==> Decode(r.value) == Success(x.text)
    ensures r.Failure? ==>
      x.Str? && r.error.UnicodeEncodeError? && r.error.start < |x.text| &&
      IsSurrogate(x.text[r.error.start])
    ensures r.Success? ==> (|r.value| == 0 <==> IsEmpty(x))
  {
    match x
    case Bin(b) => Success(b)
    case Str(t) =>
      match Encode(t)
      case Failure(p) => Failure(UnicodeEncodeError(p))
      case Success(b) => DecodeEncode(t); Success(b)
  }

  const EmptyInputMessage: Text := Lit("spec and ruleset must be non-empty")

  /**
   * `_handle_spec_ruleset_input`: an empty spec or ruleset is an input error;
   * otherwise both are turned into bytes, spec first, and kept in
   * (spec, ruleset) order.
   */
  function HandleSpecRulesetInput(spec: Input, ruleset: Input): (r: Result<(Bytes, Bytes), Error>)
    ensures IsEmpty(spec) || IsEmpty(ruleset) ==> r == Failure(VacuumInputError(EmptyInputMessage))
    ensures r.Success? <==>
      !IsEmpty(spec) && !IsEmpty(ruleset) && ToBytes(spec).Success? && ToBytes(ruleset).Success?
    ensures r.Success? ==>
      r.value == (ToBytes(spec).value, ToBytes(ruleset).value) && |r.value.0| > 0 && |r.value.1| > 0
    ensures r.Failure? && !IsEmpty(spec) && !IsEmpty(ruleset) ==>
      r.error == if ToBytes(spec).Failure? then ToBytes(spec).error else ToBytes(ruleset).error
    ensures r.Failure? ==> IsValueError(r.error)
  {
    if IsEmpty(spec) || IsEmpty(ruleset) then Failure(VacuumInputError(EmptyInputMessage))
    else
      match ToBytes(spec)
      case Failure(e) => Failure(e)
      case Success(s) =>
        match ToBytes(ruleset)
        case Failure(e) => Failure(e)
        case Success(r) => Success((s, r))
  }

  /** The options that make `vacuum report` read the spec from stdin and print compact JSON. */
  const ReportFlags: seq<Text> :=
    [Lit("report"), Lit("--no-pretty"), Lit("--no-style"), Lit("--stdin"), Lit("--stdout")]

  /** `_format_report_args`: the binary, the five report options, then the extras in order. */
  function FormatReportArgs(bin: Text, extra: seq<Text>): (args: seq<Text>)
    ensures |args| == 6 + |extra|
    ensures args[0] == bin && args[1..6] == ReportFlags
    ensures forall i :: 0 <= i < |extra| ==> args[6 + i] == extra[i]
  {
    [bin] + ReportFlags + extra
  }

  /** A finished `vacuum report` process. */
  datatype Completed = Completed(returncode: int, stdout: Bytes, stderr: Bytes)

  /** `report[key]`: Some value, None for a KeyError, or a TypeError when `report` is no dict. */
  function Subscript(report: Json, key: string): (r: Result<Option<Json>, Error>)
    ensures r.Failure? <==> !report.JObject?
    ensures r.Failure? ==> r.error == TypeError
    ensures r.Success? ==> r.value == Field(report.members, key)
  {
    match report
    case JObject(m) => Success(Field(m, key))
    case _ => Failure(TypeError)
  }

  /**
   * The values `for raw_result in raw_results` visits: a list's items, a
   * dict's keys and a str's characters (each a str), and a TypeError for
   * anything that is not iterable.
   */
  function Iterate(raw: Json): (r: Result<seq<Json>, Error>)
    ensures r.Failure? <==> !(raw.JArray? || raw.JObject? || raw.JString?)
    ensures r.Failure? ==> r.error == TypeError
    ensures raw.JArray? ==> r == Success(raw.items)
    ensures raw.JObject? ==>
      r.Success? && |r.value| == |raw.members| &&
      forall i :: 0 <= i < |raw.members| ==> r.value[i] == JString(raw.members[i].0)
    ensures raw.JString? ==>
      r.Success? && |r.value| == |raw.s| &&
      forall i :: 0 <= i < |raw.s| ==> r.value[i] == JString([raw.s[i]])
  {
    match raw
    case JArray(items) => Success(items)
    case JObject(m) => Success(seq(|m|, i requires 0 <= i < |m| => JString(m[i].0)))
    case JString(s) => Success(seq(|s|, i requires 0 <= i < |s| => JString([s[i]])))
    case _ => Failure(TypeError)
  }

  /** The values of a list of outcomes, in order, or the first error among them. */
  function Collect<T, E>(rs: seq<Result<T, E>>): (r: Result<seq<T>, E>)
    ensures r.Success? <==> forall i :: 0 <= i < |rs| ==> rs[i].Success?
    ensures r.Success? ==> |r.value| == |rs| && forall i :: 0 <= i < |rs| ==> r.value[i] == rs[i].value
    ensures r.Failure? ==>
      exists k :: 0 <= k < |rs| && rs[k] == Failure(r.error) && forall i :: 0 <= i < k ==> rs[i].Success?
  {
    if |rs| == 0 then Success([])
    else
      match rs[0]
      case Failure(e) => Failure(e)
      case Success(x) =>
        match Collect(rs[1..])
        case Failure(e) => Failure(e)
        case Success(rest) => Success([x] + rest)
  }

  /**
   * `[parse_result(raw_result) for raw_result in raw_results]`: every item
   * parsed, in order, or the error of the first item that fails.
   */
  function ParseAll(items: seq<Json>): (r: Result<seq<LintResult>, Error>)
    ensures r.Success? <==> forall i :: 0 <= i < |items| ==> ParseResult(items[i]).Success?
    ensures r.Success? ==>
      |r.value| == |items| &&
      forall i :: 0 <= i < |items| ==> r.value[i] == ParseResult(items[i]).value
    ensures r.Failure? ==>
      exists k :: 0 <= k < |items| && ParseResult(items[k]) == Failure(r.error) &&
        forall i :: 0 <= i < k ==> ParseResult(items[i]).Success?
  {
    var rs := seq(|items|, i requires 0 <= i < |items| => ParseResult(items[i]));
    assert forall i :: 0 <= i < |items| ==> rs[i] == ParseResult(items[i]);
    Collect(rs)
  }

  /**
   * `parse_vacuum_report` on the loaded report: no `resultSet` or no
   * `results` gives no results; otherwise each raw result is parsed in order.
   */
  function ParseVacuumReport(report: Json): (r: Result<seq<LintResult>, Error>)
    ensures !report.JObject? ==> r == Failure(TypeError)
    ensures report.JObject? && Field(report.members, "resultSet").None? ==> r == Success([])
    ensures report.JObject? && Field(report.members, "resultSet").Some? ==>
      var resultSet := Field(report.members, "resultSet").value;
      && (!resultSet.JObject? ==> r == Failure(TypeError))
      && (resultSet.JObject? && Field(resultSet.members, "results").None? ==> r == Success([]))
      && (resultSet.JObject? && Field(resultSet.members, "results").Some? ==>
            r == match Iterate(Field(resultSet.members, "results").value)
                 case Failure(e) => Failure(e)
                 case Success(items) => ParseAll(items))
    ensures r.Failure? ==> r.error.TypeError? || r.error.ValidationError?
  {
    match Subscript(report, "resultSet")
    case Failure(e) => Failure(e)
    case Success(None) => Success([])
    case Success(Some(resultSet)) =>
      match Subscript(resultSet, "results")
      case Failure(e) => Failure(e)
      case Success(None) => Success([])
      case Success(Some(raw)) =>
        match Iterate(raw)
        case Failure(e) => Failure(e)
        case Success(items) => ParseAllFailure(items); ParseAll(items)
  }

  /** The first raw result that does not fit the schema makes the whole list fail with its ValidationError. */
  lemma ParseAllFailure(items: seq<Json>)
    ensures ParseAll(items).Success? <==> forall i :: 0 <= i < |items| ==> IsLintResult(items[i])
    ensures ParseAll(items).Failure? ==>
      exists k :: 0 <= k < |items| && !IsLintResult(items[k]) &&
        ParseAll(items).error == ValidationError(ValidateLintResult(items[k]).error) &&
        forall i :: 0 <= i < k ==> IsLintResult(items[i])
  {
    forall i | 0 <= i < |items| {
      ParseResultOutcome(items[i]);
    }
  }

  /**
   * `_finalize_report_proc`: exit code 2 is fatal and carries stderr, any
   * other non-zero code is a plain VacuumError carrying stdout, and exit code
   * 0 hands stdout to `orjson.loads` (the parameter `loads`, None when the
   * bytes are not JSON) and then to the report parser. The messages are
   * decoded as UTF-8, which can itself fail.
   */
  function FinalizeReportProc(p: Completed, loads: Bytes -> Option<Json>): (r: Result<seq<LintResult>, Error>)
    ensures p.returncode == 2 ==>
      r == match Decode(p.stderr)
           case Success(t) => Failure(VacuumFatalError(t))
           case Failure(at) => Failure(UnicodeDecodeError(at))
    ensures p.returncode != 2 && p.returncode != 0 ==>
      r == match Decode(p.stdout)
           case Success(t) => Failure(VacuumError(t))
           case Failure(at) => Failure(UnicodeDecodeError(at))
    ensures p.returncode == 0 ==>
      r == match loads(p.stdout)
           case None => Failure(JsonDecodeError)
           case Some(report) => ParseVacuumReport(report)
    ensures r.Success? ==> p.returncode == 0
    ensures r.Failure? && IsVacuumError(r.error) ==> (r.error.VacuumFatalError? <==> p.returncode == 2)
  {
    if p.returncode == 2 then
      match Decode(p.stderr)
      case Success(t) => Failure(VacuumFatalError(t))
      case Failure(at) => Failure(UnicodeDecodeError(at))
    else if p.returncode != 0 then
      match Decode(p.stdout)
      case Success(t) => Failure(VacuumError(t))
      case Failure(at) => Failure(UnicodeDecodeError(at))
    else
      match loads(p.stdout)
      case None => Failure(JsonDecodeError)
      case Some(report) => ParseVacuumReport(report)
  }

  /**
   * `lint` (and `lint_async`, which runs the same steps): gate the inputs,
   * build the arguments with the ruleset pipe's path, run the process (the
   * parameter `run`, given the arguments, the spec on stdin and the ruleset
   * written to the pipe) and classify its outcome.
   */
  function Lint(spec: Input, ruleset: Input, bin: Text, pipe: Text,
                run: (seq<Text>, Bytes, Bytes) -> Completed,
                loads: Bytes -> Option<Json>): (r: Result<seq<LintResult>, Error>)
    ensures IsEmpty(spec) || IsEmpty(ruleset) ==> r == Failure(VacuumInputError(EmptyInputMessage))
  {
    match HandleSpecRulesetInput(spec, ruleset)
    case Failure(e) => Failure(e)
    case Success((s, rs)) =>
      FinalizeReportProc(run(FormatReportArgs(bin, [Lit("--ruleset"), pipe]), s, rs), loads)
  }

  /** A fatal exit carries the text the process wrote to stderr. */
  lemma {:induction false} FatalCarriesStderr(message: Text, stdout: Bytes, loads: Bytes -> Option<Json>)
    requires AllScalars(message)
    ensures Encode(message).Success?
    ensures FinalizeReportProc(Completed(2, stdout, Encode(message).value), loads) ==
            Failure(VacuumFatalError(message))
  {
    DecodeEncode(message);
  }

  /** Any other failing exit carries the text the process wrote to stdout. */
  lemma {:induction false} FailureCarriesStdout(code: int, message: Text, stderr: Bytes, loads: Bytes -> Option<Json>)
    requires code != 0 && code != 2 && AllScalars(message)
    ensures Encode(message).Success?
    ensures FinalizeReportProc(Completed(code, Encode(message).value, stderr), loads) ==
            Failure(VacuumError(message))
  {
    DecodeEncode(message);
  }

  /** A clean exit whose report has an empty `results` list yields no results. */
  lemma EmptyReport(p: Completed, loads: Bytes -> Option<Json>, report: Json, resultSet: Json)
    requires p.returncode == 0 && loads(p.stdout) == Some(report)
    requires report.JObject? && Field(report.members, "resultSet") == Some(resultSet)
    requires resultSet.JObject? && Field(resultSet.members, "results") == Some(JArray([]))
    ensures FinalizeReportProc(p, loads) == Success([])
  {
  }

  /** Rejected inputs raise a ValueError whatever the process would have done. */
  lemma LintInputErrorIsValueError(spec: Input, ruleset: Input, bin: Text, pipe: Text,
                                   run: (seq<Text>, Bytes, Bytes) -> Completed, loads: Bytes -> Option<Json>)
    requires HandleSpecRulesetInput(spec, ruleset).Failure?
    ensures Lint(spec, ruleset, bin, pipe, run, loads).Failure?
    ensures IsValueError(Lint(spec, ruleset, bin, pipe, run, loads).error)
  {
  }
}
