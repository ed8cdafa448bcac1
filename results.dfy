/**
 * The record schema that the report's results are validated against
 * (pydantic models TextPoint, TextRange, LintOrigin and LintResult), and
 * the validator `parse_result`.
 */
module Results {
  import opened Wrappers
  import opened Utf8
  import opened JsonValue
  import opened Exceptions

  datatype TextPoint = TextPoint(line: int, character: int)

  datatype TextRange = TextRange(start: TextPoint, end: TextPoint)

  datatype LintOrigin = LintOrigin(line: int, column: int, absoluteLocation: Text)

  /** `rule_id` and `rule_severity` are read from the JSON keys `ruleId` and `ruleSeverity`. */
  datatype LintResult = LintResult(
    message: Text,
    range: TextRange,
    path: Text,
    ruleId: Text,
    ruleSeverity: Text,
    origin: Option<LintOrigin>)

  /** A validated value, or the field errors found (all of them, in field order). */
  type Checked<T> = Result<T, seq<FieldError>>

  function Errors<T>(r: Checked<T>): (errors: seq<FieldError>) {
    if r.Failure? then r.error else []
  }

  /** The value of member `key` of an object, if present. */
  function Field(members: seq<(Text, Json)>, key: string): (value: Option<Json>) {
    Get(members, Lit(key))
  }

  // ---------------------------------------------------------------------------
  // The schema, stated as predicates on the JSON value.

  predicate HasInt(members: seq<(Text, Json)>, key: string) {
    Field(members, key).Some? && Field(members, key).value.JInt?
  }

  predicate HasStr(members: seq<(Text, Json)>, key: string) {
    Field(members, key).Some? && Field(members, key).value.JString?
  }

  predicate IsTextPoint(j: Json) {
    j.JObject? && HasInt(j.members, "line") && HasInt(j.members, "character")
  }

  predicate IsTextRange(j: Json) {
    && j.JObject?
    && Field(j.members, "start").Some? && IsTextPoint(Field(j.members, "start").value)
    && Field(j.members, "end").Some? && IsTextPoint(Field(j.members, "end").value)
  }

  predicate IsLintOrigin(j: Json) {
    && j.JObject?
    && HasInt(j.members, "line")
    && HasInt(j.members, "column")
    && HasStr(j.members, "absolute_location")
  }

  /** `origin: LintOrigin | None = None`: absent, null, or a LintOrigin. */
  predicate OriginAcceptable(o: Option<Json>) {
    o.None? || o.value.JNull? || IsLintOrigin(o.value)
  }

  predicate IsLintResult(j: Json) {
    && j.JObject?
    && HasStr(j.members, "message")
    && Field(j.members, "range").Some? && IsTextRange(Field(j.members, "range").value)
    && HasStr(j.members, "path")
    && HasStr(j.members, "ruleId")
    && HasStr(j.members, "ruleSeverity")
    && OriginAcceptable(Field(j.members, "origin"))
  }

  // ---------------------------------------------------------------------------
  // The validator. Each Check function takes the looked-up value (None when
  // the key is absent) and the location of the field.

  function CheckInt(v: Option<Json>, loc: seq<Text>): (r: Checked<int>)
    ensures r.Success? <==> v.Some? && v.value.JInt?
    ensures r.Success? ==> r.value == v.value.i
    ensures r.Failure? ==> |r.error| == 1 && r.error[0].loc == loc
  {
    match v
    case None => Failure([FieldError(loc, Missing)])
    case Some(JInt(i)) => Success(i)
    case Some(_) => Failure([FieldError(loc, NotAnInt)])
  }

  function CheckStr(v: Option<Json>, loc: seq<Text>): (r: Checked<Text>)
    ensures r.Success? <==> v.Some? && v.value.JString?
    ensures r.Success? ==> r.value == v.value.s
    ensures r.Failure? ==> |r.error| == 1 && r.error[0].loc == loc
  {
    match v
    case None => Failure([FieldError(loc, Missing)])
    case Some(JString(s)) => Success(s)
    case Some(_) => Failure([FieldError(loc, NotAString)])
  }

  function CheckTextPoint(v: Option<Json>, loc: seq<Text>): (r: Checked<TextPoint>)
    ensures r.Success? <==> v.Some? && IsTextPoint(v.value)
    ensures r.Success? ==>
      r.value == TextPoint(Field(v.value.members, "line").value.i, Field(v.value.members, "character").value.i)
    ensures r.Failure? ==> |r.error| > 0
  {
    match v
    case None => Failure([FieldError(loc, Missing)])
    case Some(JObject(m)) =>
      var line := CheckInt(Field(m, "line"), loc + [Lit("line")]);
      var character := CheckInt(Field(m, "character"), loc + [Lit("character")]);
      if line.Success? && character.Success? then Success(TextPoint(line.value, character.value))
      else Failure(Errors(line) + Errors(character))
    case Some(_) => Failure([FieldError(loc, NotAnObject)])
  }

  function CheckTextRange(v: Option<Json>, loc: seq<Text>): (r: Checked<TextRange>)
    ensures r.Success? <==> v.Some? && IsTextRange(v.value)
    ensures r.Success? ==>
      && r.value.start == CheckTextPoint(Field(v.value.members, "start"), loc + [Lit("start")]).value
      && r.value.end == CheckTextPoint(Field(v.value.members, "end"), loc + [Lit("end")]).value
    ensures r.Failure? ==> |r.error| > 0
  {
    match v
    case None => Failure([FieldError(loc, Missing)])
    case Some(JObject(m)) =>
      var start := CheckTextPoint(Field(m, "start"), loc + [Lit("start")]);
      var end := CheckTextPoint(Field(m, "end"), loc + [Lit("end")]);
      if start.Success? && end.Success? then Success(TextRange(start.value, end.value))
      else Failure(Errors(start) + Errors(end))
    case Some(_) => Failure([FieldError(loc, NotAnObject)])
  }

  function CheckOrigin(v: Option<Json>, loc: seq<Text>): (r: Checked<Option<LintOrigin>>)
    ensures r.Success? <==> OriginAcceptable(v)
    ensures r.Success? && (v.None? || v.value.JNull?) ==> r.value.None?
    ensures r.Success? && v.Some? && v.value.JObject? ==>
      r.value == Some(LintOrigin(
        Field(v.value.members, "line").value.i,
        Field(v.value.members, "column").value.i,
        Field(v.value.members, "absolute_location").value.s))
    ensures r.Failure? ==> |r.error| > 0
  {
    match v
    case None => Success(None)
    case Some(JNull) => Success(None)
    case Some(JObject(m)) =>
      var line := CheckInt(Field(m, "line"), loc + [Lit("line")]);
      var column := CheckInt(Field(m, "column"), loc + [Lit("column")]);
      var location := CheckStr(Field(m, "absolute_location"), loc + [Lit("absolute_location")]);
      if line.Success? && column.Success? && location.Success? then
        Success(Some(LintOrigin(line.value, column.value, location.value)))
      else Failure(Errors(line) + Errors(column) + Errors(location))
    case Some(_) => Failure([FieldError(loc, NotAnObject)])
  }

  /**
   * `LintResult` validation of one raw result: the record when every field is
   * present with its declared kind (aliases for the two rule fields, `origin`
   * optional), otherwise every field error found, in field order.
   */
  function ValidateLintResult(raw: Json): (r: Checked<LintResult>)
    ensures !raw.JObject? ==> r == Failure([FieldError([], NotAnObject)])
    ensures r.Failure? ==> |r.error| > 0
  {
    match raw
    case JObject(m) =>
      var message := CheckStr(Field(m, "message"), [Lit("message")]);
      var range := CheckTextRange(Field(m, "range"), [Lit("range")]);
      var path := CheckStr(Field(m, "path"), [Lit("path")]);
      var ruleId := CheckStr(Field(m, "ruleId"), [Lit("ruleId")]);
      var ruleSeverity := CheckStr(Field(m, "ruleSeverity"), [Lit("ruleSeverity")]);
      var origin := CheckOrigin(Field(m, "origin"), [Lit("origin")]);
      if message.Success? && range.Success? && path.Success? && ruleId.Success? &&
         ruleSeverity.Success? && origin.Success?
      then Success(LintResult(message.value, range.value, path.value, ruleId.value,
                              ruleSeverity.value, origin.value))
      else Failure(Errors(message) + Errors(range) + Errors(path) + Errors(ruleId) +
                   Errors(ruleSeverity) + Errors(origin))
    case _ => Failure([FieldError([], NotAnObject)])
  }

  /** `parse_result`: validation, with its failure raised as a ValidationError. */
  function ParseResult(raw: Json): (r: Result<LintResult, Error>)
    ensures r.Failure? ==> r.error.ValidationError? && |r.error.errors| > 0
  {
    match ValidateLintResult(raw)
    case Success(r) => Success(r)
    case Failure(es) => Failure(ValidationError(es))
  }

  // ---------------------------------------------------------------------------
  // What validation promises.

  /** A raw result validates exactly when it has the schema's shape. */
  lemma ValidateIffSchema(raw: Json)
    ensures ValidateLintResult(raw).Success? <==> IsLintResult(raw)
  {
  }

  /**
   * A validated record carries the values found in the JSON: `rule_id` and
   * `rule_severity` come from `ruleId` and `ruleSeverity`, positions from the
   * nested `line`/`character` members, and `origin` is None when it is absent
   * or null and otherwise holds its object's `line`, `column` and
   * `absolute_location`.
   */
  lemma ValidatedFields(raw: Json)
    requires ValidateLintResult(raw).Success?
    ensures var r := ValidateLintResult(raw).value;
      var m := raw.members;
      var range := Field(m, "range").value.members;
      var start := Field(range, "start").value.members;
      var end := Field(range, "end").value.members;
      var o := Field(m, "origin");
      && r.message == Field(m, "message").value.s
      && r.path == Field(m, "path").value.s
      && r.ruleId == Field(m, "ruleId").value.s
      && r.ruleSeverity == Field(m, "ruleSeverity").value.s
      && r.range.start == TextPoint(Field(start, "line").value.i, Field(start, "character").value.i)
      && r.range.end == TextPoint(Field(end, "line").value.i, Field(end, "character").value.i)
      && (r.origin.None? <==> o.None? || o.value.JNull?)
      && (r.origin.Some? ==>
            o.Some? && o.value.JObject? &&
            r.origin.value == LintOrigin(Field(o.value.members, "line").value.i,
                                         Field(o.value.members, "column").value.i,
                                         Field(o.value.members, "absolute_location").value.s))
  {
  }

  /**
   * `parse_result` succeeds exactly on values of the schema's shape and
   * otherwise raises a ValidationError listing at least one field error.
   */
  lemma ParseResultOutcome(raw: Json)
    ensures ParseResult(raw).Success? <==> IsLintResult(raw)
    ensures ParseResult(raw).Success? ==> ParseResult(raw).value == ValidateLintResult(raw).value
    ensures ParseResult(raw).Failure? ==>
      ParseResult(raw).error == ValidationError(ValidateLintResult(raw).error) &&
      |ParseResult(raw).error.errors| > 0
  {
  }

  /** Each required top-level field that is absent gets its own Missing entry. */
  lemma MissingRequiredField(raw: Json, key: string)
    requires raw.JObject? && key in ["message", "range", "path", "ruleId", "ruleSeverity"]
    requires Field(raw.members, key).None?
    ensures ValidateLintResult(raw).Failure?
    ensures FieldError([Lit(key)], Missing) in ValidateLintResult(raw).error
  {
  }

  /** Appending a member under another key does not change a lookup. */
  lemma GetSkipsOtherKey(m: seq<(Text, Json)>, k: Text, v: Json, key: Text)
    requires k != key
    ensures Get(m + [(k, v)], key) == Get(m, key)
  {
    assert (m + [(k, v)])[..|m|] == m;
  }

  /** A member inserted anywhere under another key does not change a lookup. */
  lemma {:induction false} GetSkipsInserted(m1: seq<(Text, Json)>, k: Text, v: Json, m2: seq<(Text, Json)>, key: Text)
    requires k != key
    ensures Get(m1 + [(k, v)] + m2, key) == Get(m1 + m2, key)
    decreases |m2|
  {
    if |m2| == 0 {
      assert m1 + [(k, v)] + m2 == m1 + [(k, v)];
      assert m1 + m2 == m1;
      GetSkipsOtherKey(m1, k, v, key);
    } else {
      var init := m2[..|m2| - 1];
      var last := m2[|m2| - 1];
      assert m1 + [(k, v)] + m2 == (m1 + [(k, v)] + init) + [last];
      assert m1 + m2 == (m1 + init) + [last];
      assert (m1 + [(k, v)] + m2)[..|m1 + [(k, v)] + m2| - 1] == m1 + [(k, v)] + init;
      assert (m1 + m2)[..|m1 + m2| - 1] == m1 + init;
      if last.0 != key {
        GetSkipsInserted(m1, k, v, init, key);
      }
    }
  }

  /**
   * The rule fields are read by alias only: a member under the Python name
   * `rule_id` or `rule_severity`, wherever it stands, neither supplies nor
   * disturbs any field.
   */
  lemma RuleFieldsByAliasOnly(m1: seq<(Text, Json)>, key: string, v: Json, m2: seq<(Text, Json)>)
    requires key == "rule_id" || key == "rule_severity"
    ensures ValidateLintResult(JObject(m1 + [(Lit(key), v)] + m2)) == ValidateLintResult(JObject(m1 + m2))
  {
    var m := m1 + [(Lit(key), v)] + m2;
    assert Lit("message")[0] != Lit(key)[0];
    var keys := ["message", "range", "path", "ruleId", "ruleSeverity", "origin"];
    forall i | 0 <= i < |keys|
      ensures Field(m, keys[i]) == Field(m1 + m2, keys[i])
    {
      assert Lit(keys[i]) != Lit(key) by {
        assert |Lit(keys[i])| != |Lit(key)| || Lit(keys[i])[1] != Lit(key)[1] || Lit(keys[i])[0] != Lit(key)[0];
      }
      GetSkipsInserted(m1, Lit(key), v, m2, Lit(keys[i]));
    }
    assert Field(m, "message") == Field(m1 + m2, "message") by { assert keys[0] == "message"; }
    assert Field(m, "range") == Field(m1 + m2, "range") by { assert keys[1] == "range"; }
    assert Field(m, "path") == Field(m1 + m2, "path") by { assert keys[2] == "path"; }
    assert Field(m, "ruleId") == Field(m1 + m2, "ruleId") by { assert keys[3] == "ruleId"; }
    assert Field(m, "ruleSeverity") == Field(m1 + m2, "ruleSeverity") by { assert keys[4] == "ruleSeverity"; }
    assert Field(m, "origin") == Field(m1 + m2, "origin") by { assert keys[5] == "origin"; }
  }

  // ---------------------------------------------------------------------------
  // The two definitions of `parse_result`, chosen by the installed pydantic's
  // version string.

  /** Python's `a < b` on str: code point by code point, a proper prefix first. */
  predicate TextLess(a: Text, b: Text): (less: bool)
    ensures less ==> a != b
  {
    if |a| == 0 then |b| > 0
    else if |b| == 0 then false
    else if a[0] != b[0] then a[0] < b[0]
    else TextLess(a[1..], b[1..])
  }

  /** The order on str is a strict total order: of two distinct texts exactly one is less. */
  lemma {:induction false} TextLessTotal(a: Text, b: Text)
    ensures TextLess(a, b) ==> !TextLess(b, a)
    ensures a != b ==> TextLess(a, b) || TextLess(b, a)
    decreases |a|
  {
    if |a| > 0 && |b| > 0 && a[0] == b[0] {
      TextLessTotal(a[1..], b[1..]);
      if a != b {
        assert a == [a[0]] + a[1..] && b == [b[0]] + b[1..];
      }
    }
  }

  /** Python's `a < b` on tuples of str. */
  predicate TupleLess(a: seq<Text>, b: seq<Text>): (less: bool)
    ensures less ==> a != b
  {
    if |a| == 0 then |b| > 0
    else if |b| == 0 then false
    else if a[0] != b[0] then TextLess(a[0], b[0])
    else TupleLess(a[1..], b[1..])
  }

  /** The order on tuples of str is a strict total order too. */
  lemma {:induction false} TupleLessTotal(a: seq<Text>, b: seq<Text>)
    ensures TupleLess(a, b) ==> !TupleLess(b, a)
    ensures a != b ==> TupleLess(a, b) || TupleLess(b, a)
    decreases |a|
  {
    if |a| > 0 && |b| > 0 {
      if a[0] == b[0] {
        TupleLessTotal(a[1..], b[1..]);
        if a != b {
          assert a == [a[0]] + a[1..] && b == [b[0]] + b[1..];
        }
      } else {
        TextLessTotal(a[0], b[0]);
      }
    }
  }

  /** The pieces joined back together with the separator between them. */
  function Join(pieces: seq<Text>, sep: CodePoint): (s: Text)
    requires |pieces| > 0
  {
    if |pieces| == 1 then pieces[0] else pieces[0] + [sep] + Join(pieces[1..], sep)
  }

  /**
   * `s.split(sep)`: the pieces between separators, empty ones included; they
   * hold no separator and joining them with it gives `s` back.
   */
  function Split(s: Text, sep: CodePoint): (pieces: seq<Text>)
    ensures |pieces| > 0
    ensures Join(pieces, sep) == s
    ensures forall i :: 0 <= i < |pieces| ==> sep !in pieces[i]
  {
    if |s| == 0 then [[]]
    else if s[0] == sep then
      var rest := Split(s[1..], sep);
      assert ([[]] + rest)[1..] == rest;
      [[]] + rest
    else
      var rest := Split(s[1..], sep);
      var pieces := [[s[0]] + rest[0]] + rest[1..];
      assert pieces[1..] == rest[1..];
      assert s == [s[0]] + s[1..];
      pieces
  }

  /**
   * `PYDANTIC_VERSION < ('2',)`, which selects the pydantic 1 API: the
   * version's major component orders below the string "2".
   */
  predicate UsesParseObj(version: Text): (v1: bool)
    ensures v1 <==> TextLess(Split(version, '.' as int)[0], Lit("2"))
  {
    var parts := Split(version, '.' as int);
    assert parts[0] == Lit("2") ==> !TupleLess(parts[1..], []);
    TupleLess(parts, [Lit("2")])
  }

  /**
   * For a one-digit major version, the pydantic 1 API is selected exactly
   * when the major version is 0 or 1.
   */
  lemma {:induction false} OneDigitMajorVersion(d: CodePoint, rest: Text)
    requires '0' as int <= d <= '9' as int
    ensures UsesParseObj([d, '.' as int] + rest) <==> d < '2' as int
  {
    var s: Text := [d, '.' as int] + rest;
    assert s[1..] == ['.' as int] + rest;
    assert s[1..][1..] == rest;
    var tail := Split(s[1..], '.' as int);
    assert tail == [[]] + Split(rest, '.' as int);
    assert tail[0] == [] && tail[1..] == Split(rest, '.' as int);
    assert Split(s, '.' as int) == [[d] + tail[0]] + tail[1..];
    assert [d] + tail[0] == [d];
    if d != '2' as int {
      assert [d] != Lit("2") && [d][0] != Lit("2")[0];
    } else {
      assert Split(s, '.' as int)[0] == Lit("2");
      assert Split(s, '.' as int)[1..] == Split(rest, '.' as int);
      assert [Lit("2")][1..] == [];
      assert !TupleLess(Split(rest, '.' as int), []);
      assert TupleLess(Split(s, '.' as int), [Lit("2")]) == TupleLess(Split(rest, '.' as int), []);
    }
  }

  /**
   * The comparison is on strings, not numbers: the major version "10"
   * orders before "2", so it would select the pydantic 1 API.
   */
  lemma {:induction false} TwoDigitMajorVersion(rest: Text)
    ensures UsesParseObj(['1' as int, '0' as int, '.' as int] + rest)
  {
    var s: Text := ['1' as int, '0' as int, '.' as int] + rest;
    assert s[1..] == ['0' as int, '.' as int] + rest;
    assert s[1..][1..] == ['.' as int] + rest;
    assert s[1..][1..][1..] == rest;
    var tail2 := Split(s[1..][1..], '.' as int);
    assert tail2 == [[]] + Split(rest, '.' as int);
    assert tail2[0] == [] && tail2[1..] == Split(rest, '.' as int);
    var tail1 := Split(s[1..], '.' as int);
    assert tail1 == [['0' as int] + tail2[0]] + tail2[1..];
    assert tail1[0] == ['0' as int];
    var major := Split(s, '.' as int)[0];
    assert major == ['1' as int] + tail1[0] == ['1' as int, '0' as int];
    assert major != Lit("2") && major[0] != Lit("2")[0];
  }
}
