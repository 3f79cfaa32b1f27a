/**
 * The request schemas of src/lib/validations.ts. Each schema is a zod object
 * schema: a list of named fields, each a string schema with its chain of
 * checks, a number schema, an enum schema or an optional wrapper. Parsing
 * collects every issue in field order and, within a string, in check order.
 */
module Validations {
  import opened Wrappers
  import opened Json

  /** One link of a `z.string()` chain, with the custom message the source gives (None: zod's default text). */
  datatype StringCheck =
    | MinLength(min: nat, message: Option<string>)
    | MaxLength(max: nat, message: Option<string>)
    | WordPattern(message: Option<string>)   // the regex /^[a-zA-Z0-9_]+$/

  datatype Schema =
    | StringSchema(checks: seq<StringCheck>)
    | NumberSchema
    | EnumSchema(options: seq<string>)
    | OptionalSchema(inner: Schema)

  datatype Field = Field(name: string, schema: Schema)

  datatype IssueCode = InvalidType | TooSmall | TooBig | InvalidString | InvalidEnumValue

  datatype Issue = Issue(path: seq<string>, code: IssueCode, message: Option<string>)

  datatype ParseResult = Valid | Invalid(issues: seq<Issue>)

  predicate IsWordChar(c: char)
  {
    ('a' <= c <= 'z') || ('A' <= c <= 'Z') || ('0' <= c <= '9') || c == '_'
  }

  /** `/^[a-zA-Z0-9_]+$/.test(s)`, scanning one character at a time. */
  function MatchesWordPattern(s: string): (r: bool)
    ensures r <==> |s| >= 1 && forall i :: 0 <= i < |s| ==> IsWordChar(s[i])
  {
    |s| >= 1 && IsWordChar(s[0]) && (|s| == 1 || MatchesWordPattern(s[1..]))
  }

  predicate Holds(check: StringCheck, s: string)
  {
    match check
    case MinLength(n, _) => |s| >= n
    case MaxLength(n, _) => |s| <= n
    case WordPattern(_) => MatchesWordPattern(s)
  }

  function CheckIssue(check: StringCheck, path: seq<string>): Issue
  {
    match check
    case MinLength(_, m) => Issue(path, TooSmall, m)
    case MaxLength(_, m) => Issue(path, TooBig, m)
    case WordPattern(m) => Issue(path, InvalidString, m)
  }

  /** Every check of the chain runs; each failing one contributes its issue, in order. */
  function StringIssues(checks: seq<StringCheck>, s: string, path: seq<string>): (issues: seq<Issue>)
    ensures issues == [] <==> forall k :: 0 <= k < |checks| ==> Holds(checks[k], s)
    ensures |issues| <= |checks|
    ensures forall i :: 0 <= i < |issues| ==> issues[i].path == path
  {
    if checks == [] then []
    else
      (if Holds(checks[0], s) then [] else [CheckIssue(checks[0], path)])
      + StringIssues(checks[1..], s, path)
  }

  /** What a value must be to satisfy a schema, stated without issues. */
  predicate Conforms(schema: Schema, v: Value)
  {
    match schema
    case StringSchema(checks) => v.Str? && forall k :: 0 <= k < |checks| ==> Holds(checks[k], v.s)
    case NumberSchema => v.Num?
    case EnumSchema(options) => v.Str? && v.s in options
    case OptionalSchema(inner) => v.Undefined? || Conforms(inner, v)
  }

  /** The issues of one value against one schema. */
  function ValueIssues(schema: Schema, v: Value, path: seq<string>): (issues: seq<Issue>)
    ensures issues == [] <==> Conforms(schema, v)
    ensures forall i :: 0 <= i < |issues| ==> issues[i].path == path
  {
    match schema
    case StringSchema(checks) =>
      if v.Str? then StringIssues(checks, v.s, path) else [Issue(path, InvalidType, None)]
    case NumberSchema =>
      if v.Num? then [] else [Issue(path, InvalidType, None)]
    case EnumSchema(options) =>
      if !v.Str? then [Issue(path, InvalidType, None)]
      else if v.s in options then []
      else [Issue(path, InvalidEnumValue, None)]
    case OptionalSchema(inner) =>
      if v.Undefined? then [] else ValueIssues(inner, v, path)
  }

  /** The issues of the fields of an object, field by field. */
  function FieldIssues(fields: seq<Field>, v: Value): (issues: seq<Issue>)
    ensures issues == [] <==> forall k :: 0 <= k < |fields| ==> Conforms(fields[k].schema, Get(v, fields[k].name))
  {
    if fields == [] then []
    else ValueIssues(fields[0].schema, Get(v, fields[0].name), [fields[0].name]) + FieldIssues(fields[1..], v)
  }

  /** An object conforms to an object schema when each field does. */
  predicate ObjectConforms(fields: seq<Field>, v: Value)
  {
    v.Obj? && forall k :: 0 <= k < |fields| ==> Conforms(fields[k].schema, Get(v, fields[k].name))
  }

  /** `schema.safeParse(v)`: a non-object fails with one type issue; otherwise the field issues. */
  function SafeParse(fields: seq<Field>, v: Value): (r: ParseResult)
    ensures r.Valid? <==> ObjectConforms(fields, v)
    ensures r.Invalid? ==> |r.issues| > 0
    ensures !v.Obj? ==> r == Invalid([Issue([], InvalidType, None)])
  {
    if !v.Obj? then Invalid([Issue([], InvalidType, None)])
    else
      var issues := FieldIssues(fields, v);
      if issues == [] then Valid else Invalid(issues)
  }

  // ---------------------------------------------------------------------
  // The schemas
  // ---------------------------------------------------------------------

  const LoginSchema: seq<Field> := [
    Field("username", StringSchema([MinLength(1, Some("Username wajib diisi"))])),
    Field("password", StringSchema([MinLength(1, Some("Password wajib diisi"))]))
  ]

  const RegisterSchema: seq<Field> := [
    Field("username", StringSchema([
      MinLength(3, Some("Username minimal 3 karakter")),
      MaxLength(50, Some("Username maksimal 50 karakter")),
      WordPattern(Some("Username hanya boleh huruf, angka, dan underscore"))])),
    Field("password", StringSchema([MinLength(6, Some("Password minimal 6 karakter"))]))
  ]

  const AnswerLabels: seq<string> := ["a", "b", "c", "d"]

  const SubmitAnswerSchema: seq<Field> := [
    Field("questionId", NumberSchema),
    Field("answer", EnumSchema(AnswerLabels))
  ]

  const BuyItemSchema: seq<Field> := [
    Field("itemId", NumberSchema)
  ]

  const UseContexts: seq<string> := ["quest", "challenge", "boss"]

  const UseItemSchema: seq<Field> := [
    Field("itemId", NumberSchema),
    Field("context", OptionalSchema(EnumSchema(UseContexts)))
  ]

  const AvatarNames: seq<string> := ["Ellipse_1", "Ellipse_2", "Ellipse_3", "Ellipse_4", "Ellipse_5"]

  const UpdateProfileSchema: seq<Field> := [
    Field("bio", OptionalSchema(StringSchema([MaxLength(500, None)]))),
    Field("avatar", OptionalSchema(EnumSchema(AvatarNames)))
  ]

  /** A string value of at least n characters. */
  predicate StrAtLeast(v: Value, n: nat) { v.Str? && |v.s| >= n }

  /** An object schema of two fields conforms exactly when both fields do. */
  lemma TwoFieldObject(f0: Field, f1: Field, v: Value)
    ensures ObjectConforms([f0, f1], v) <==>
      v.Obj? && Conforms(f0.schema, Get(v, f0.name)) && Conforms(f1.schema, Get(v, f1.name))
  {
    var fs := [f0, f1];
    assert fs[0] == f0 && fs[1] == f1;
  }

  /** A string schema with a single check conforms exactly when the check holds. */
  lemma OneCheckString(c: StringCheck, v: Value)
    ensures Conforms(StringSchema([c]), v) <==> v.Str? && Holds(c, v.s)
  {
    assert [c][0] == c;
  }

  // ---------------------------------------------------------------------
  // What each schema accepts
  // ---------------------------------------------------------------------

  /** Login needs a non-empty username and a non-empty password. */
  lemma LoginAccepts(body: Value)
    ensures SafeParse(LoginSchema, body).Valid? <==>
      body.Obj? && StrAtLeast(Get(body, "username"), 1) && StrAtLeast(Get(body, "password"), 1)
  {
    assert LoginSchema == [LoginSchema[0], LoginSchema[1]];
    TwoFieldObject(LoginSchema[0], LoginSchema[1], body);
    OneCheckString(LoginSchema[0].schema.checks[0], Get(body, "username"));
    OneCheckString(LoginSchema[1].schema.checks[0], Get(body, "password"));
  }

  /**
   * Registration needs a username of 3 to 50 characters drawn from
   * letters, digits and underscore, and a password of at least 6 characters.
   */
  lemma RegisterAccepts(body: Value)
    ensures SafeParse(RegisterSchema, body).Valid? <==>
      var u, p := Get(body, "username"), Get(body, "password");
      && body.Obj?
      && u.Str? && 3 <= |u.s| <= 50 && (forall i :: 0 <= i < |u.s| ==> IsWordChar(u.s[i]))
      && StrAtLeast(p, 6)
  {
    assert RegisterSchema == [RegisterSchema[0], RegisterSchema[1]];
    TwoFieldObject(RegisterSchema[0], RegisterSchema[1], body);
    OneCheckString(RegisterSchema[1].schema.checks[0], Get(body, "password"));
    var u := Get(body, "username");
    if u.Str? {
      var checks := RegisterSchema[0].schema.checks;
      assert (forall k :: 0 <= k < |checks| ==> Holds(checks[k], u.s))
         <==> Holds(checks[0], u.s) && Holds(checks[1], u.s) && Holds(checks[2], u.s);
    }
  }

  /** A submitted answer needs a numeric questionId and one of the labels a, b, c, d. */
  lemma SubmitAnswerAccepts(body: Value)
    ensures SafeParse(SubmitAnswerSchema, body).Valid? <==>
      var a := Get(body, "answer");
      body.Obj? && Get(body, "questionId").Num? && a.Str? && a.s in {"a", "b", "c", "d"}
  {
    assert SubmitAnswerSchema == [SubmitAnswerSchema[0], SubmitAnswerSchema[1]];
    TwoFieldObject(SubmitAnswerSchema[0], SubmitAnswerSchema[1], body);
  }

  /** Buying needs a numeric itemId and nothing else. */
  lemma BuyItemAccepts(body: Value)
    ensures SafeParse(BuyItemSchema, body).Valid? <==> body.Obj? && Get(body, "itemId").Num?
  {
    var fs := BuyItemSchema;
    assert fs[0].name == "itemId";
    assert ObjectConforms(fs, body) <==> body.Obj? && Conforms(fs[0].schema, Get(body, fs[0].name));
  }

  /** Using an item needs a numeric itemId; a context, when present, is quest, challenge or boss. */
  lemma UseItemAccepts(body: Value)
    ensures SafeParse(UseItemSchema, body).Valid? <==>
      var c := Get(body, "context");
      body.Obj? && Get(body, "itemId").Num? &&
      (c.Undefined? || (c.Str? && c.s in {"quest", "challenge", "boss"}))
  {
    assert UseItemSchema == [UseItemSchema[0], UseItemSchema[1]];
    TwoFieldObject(UseItemSchema[0], UseItemSchema[1], body);
  }

  /** A profile update may carry a bio of at most 500 characters and an avatar Ellipse_1 .. Ellipse_5. */
  lemma UpdateProfileAccepts(body: Value)
    ensures SafeParse(UpdateProfileSchema, body).Valid? <==>
      var b, a := Get(body, "bio"), Get(body, "avatar");
      && body.Obj?
      && (b.Undefined? || (b.Str? && |b.s| <= 500))
      && (a.Undefined? || (a.Str? && a.s in {"Ellipse_1", "Ellipse_2", "Ellipse_3", "Ellipse_4", "Ellipse_5"}))
  {
    assert UpdateProfileSchema == [UpdateProfileSchema[0], UpdateProfileSchema[1]];
    TwoFieldObject(UpdateProfileSchema[0], UpdateProfileSchema[1], body);
    var b := Get(body, "bio");
    if b.Str? {
      var checks := UpdateProfileSchema[0].schema.inner.checks;
      assert (forall k :: 0 <= k < |checks| ==> Holds(checks[k], b.s)) <==> Holds(checks[0], b.s);
    }
  }

  /** The username "a-" fails the minimum length and the pattern, but not the maximum length. */
  lemma ShortDashedUsernameIssues()
    ensures StringIssues(RegisterSchema[0].schema.checks, "a-", ["username"]) == [
      Issue(["username"], TooSmall, Some("Username minimal 3 karakter")),
      Issue(["username"], InvalidString, Some("Username hanya boleh huruf, angka, dan underscore"))]
  {
    var checks := RegisterSchema[0].schema.checks;
    assert !IsWordChar('-');
    assert !MatchesWordPattern("a-");
    assert StringIssues(checks[2..], "a-", ["username"]) == [CheckIssue(checks[2], ["username"])];
    assert StringIssues(checks[1..], "a-", ["username"]) == [CheckIssue(checks[2], ["username"])];
  }

  /** Every failing check is reported, in order: a two-letter username with a dash fails length and pattern. */
  lemma RegisterIssuesExample()
    ensures SafeParse(RegisterSchema, Obj(map["username" := Str("a-"), "password" := Str("12345")]))
      == Invalid([
           Issue(["username"], TooSmall, Some("Username minimal 3 karakter")),
           Issue(["username"], InvalidString, Some("Username hanya boleh huruf, angka, dan underscore")),
           Issue(["password"], TooSmall, Some("Password minimal 6 karakter"))])
  {
    var body := Obj(map["username" := Str("a-"), "password" := Str("12345")]);
    ShortDashedUsernameIssues();
    var uIssues := StringIssues(RegisterSchema[0].schema.checks, "a-", ["username"]);
    var pChecks := RegisterSchema[1].schema.checks;
    var pIssues := StringIssues(pChecks, "12345", ["password"]);
    assert pIssues == [CheckIssue(pChecks[0], ["password"])];
    assert Get(body, "username") == Str("a-") && Get(body, "password") == Str("12345");
    assert FieldIssues(RegisterSchema[1..], body) == pIssues;
    assert FieldIssues(RegisterSchema, body) == uIssues + pIssues;
  }
}
