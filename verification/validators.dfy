/** The request validators: a rule per body field, and the `validate`
    combinator that passes control on, with the sanitised body, exactly when
    no rule failed.
    The format checks of the validator library (e-mail address, ISO 8601
    date, database id) are not modelled: they are the function values of a
    `Formats` record. */
module Validators {
  import opened Wrappers
  import Text
  import TaskOrder

  /** A JSON request body, field name to string value. A field that is not
      in the map is undefined. */
  type RequestBody = map<string, string>

  datatype Formats = Formats(isEmail: string -> bool, isISO8601: string -> bool, isMongoId: string -> bool)

  datatype Check =
    | Exists
    | NotEmpty
    | MinLength(min: nat)
    | MaxLength(max: nat)
    | IsIn(allowed: seq<string>)
    | IsString
    | IsEmail
    | IsISO8601
    | IsMongoId

  /** One validator of a chain and the message it reports. */
  datatype Step = Step(check: Check, message: string)

  /** One `body(field)` chain: `optional()` skips it for an undefined field,
      `trim()` sanitises the value before the checks that follow it. */
  datatype Rule = Rule(field: string, optional: bool, trim: bool, steps: seq<Step>)

  /** A validation error, as the error list reports it. */
  datatype FieldError = FieldError(param: string, msg: string)

  /** What `validate` does: `next()`, with the body as the sanitisers left
      it, or `next(errors)`. */
  datatype Next = Continue(body: RequestBody) | Reject(errors: seq<FieldError>)

  /** The message of a validator without `withMessage`. */
  const DefaultMessage: string := "Invalid value"

  /** A body field read the way the checks read it. */
  function Field(body: RequestBody, name: string): string
  {
    if name in body then body[name] else ""
  }

  /** The value the checks see: an undefined field reads as "". */
  function ValueOf(rule: Rule, body: RequestBody): string
  {
    var raw := Field(body, rule.field);
    if rule.trim then Text.Trim(raw) else raw
  }

  /** The length `isLength` measures: code points, except that the
      variation selectors U+FE0E and U+FE0F are not counted. */
  function LengthCount(v: string): (n: nat)
    ensures n <= |v|
    ensures (forall i :: 0 <= i < |v| ==> v[i] != '\U{FE0E}' && v[i] != '\U{FE0F}') ==> n == |v|
  {
    if v == [] then 0
    else (if v[0] == '\U{FE0E}' || v[0] == '\U{FE0F}' then 0 else 1) + LengthCount(v[1..])
  }

  predicate Passes(c: Check, present: bool, v: string, fm: Formats)
  {
    match c
    case Exists => present
    case NotEmpty => v != ""
    case MinLength(n) => LengthCount(v) >= n
    case MaxLength(n) => LengthCount(v) <= n
    case IsIn(allowed) => v in allowed
    case IsString => present
    case IsEmail => fm.isEmail(v)
    case IsISO8601 => fm.isISO8601(v)
    case IsMongoId => fm.isMongoId(v)
  }

  /** The errors of the failing steps, in chain order. */
  function StepErrors(field: string, steps: seq<Step>, present: bool, v: string, fm: Formats): (r: seq<FieldError>)
    ensures |r| <= |steps|
    ensures r == [] <==> forall k :: 0 <= k < |steps| ==> Passes(steps[k].check, present, v, fm)
    ensures forall e :: e in r ==> e.param == field
  {
    if steps == [] then []
    else
      var rest := StepErrors(field, steps[1..], present, v, fm);
      if Passes(steps[0].check, present, v, fm) then rest
      else [FieldError(field, steps[0].message)] + rest
  }

  function RuleErrors(rule: Rule, body: RequestBody, fm: Formats): (r: seq<FieldError>)
    ensures rule.optional && rule.field !in body ==> r == []
    ensures forall e :: e in r ==> e.param == rule.field
  {
    if rule.optional && rule.field !in body then []
    else StepErrors(rule.field, rule.steps, rule.field in body, ValueOf(rule, body), fm)
  }

  /** Runs every rule and gathers the errors, chain after chain. The chains
      run concurrently in the source, so only the order within a field is
      fixed (ErrorsPerField); this list takes them in rule order. */
  function Errors(rules: seq<Rule>, body: RequestBody, fm: Formats): (r: seq<FieldError>)
    ensures r == [] <==> forall k :: 0 <= k < |rules| ==> RuleErrors(rules[k], body, fm) == []
  {
    if rules == [] then [] else RuleErrors(rules[0], body, fm) + Errors(rules[1..], body, fm)
  }

  /** Whether a chain writes its trimmed value back: a `trim()` chain that
      runs, which a non-optional chain does even for an undefined field. */
  predicate Trims(rule: Rule, body: RequestBody)
  {
    rule.trim && (!rule.optional || rule.field in body)
  }

  /** The fields some chain trims. */
  function TrimmedFields(rules: seq<Rule>): set<string>
  {
    if rules == [] then {} else (if rules[0].trim then {rules[0].field} else {}) + TrimmedFields(rules[1..])
  }

  /** The fields a non-optional chain trims, which are written even when
      undefined. */
  function RequiredTrims(rules: seq<Rule>): set<string>
  {
    if rules == [] then {}
    else (if rules[0].trim && !rules[0].optional then {rules[0].field} else {}) + RequiredTrims(rules[1..])
  }

  function SanitizeOne(rule: Rule, body: RequestBody): RequestBody
  {
    if Trims(rule, body) then body[rule.field := Text.Trim(Field(body, rule.field))] else body
  }

  /** The body after the chains' sanitisers have written to it: every
      trimmed field holds its trimmed value, an undefined field a
      non-optional chain trims now holds "", and nothing else changes. */
  function Sanitize(rules: seq<Rule>, body: RequestBody): (r: RequestBody)
    ensures r.Keys == body.Keys + RequiredTrims(rules)
    ensures forall f :: f in r ==> r[f] == if f in TrimmedFields(rules) then Text.Trim(Field(body, f)) else Field(body, f)
  {
    if rules == [] then body
    else
      var b1 := SanitizeOne(rules[0], body);
      var r := Sanitize(rules[1..], b1);
      SanitizeStep(rules, body, r);
      r
  }

  /** One chain's write-back followed by the rest's gives the fields the
      whole list trims. */
  lemma SanitizeStep(rules: seq<Rule>, body: RequestBody, r: RequestBody)
    requires rules != []
    requires var b1 := SanitizeOne(rules[0], body);
      forall f :: f in r ==> r[f] == if f in TrimmedFields(rules[1..]) then Text.Trim(Field(b1, f)) else Field(b1, f)
    ensures forall f :: f in r ==> r[f] == if f in TrimmedFields(rules) then Text.Trim(Field(body, f)) else Field(body, f)
  {
    forall f | f in r
      ensures r[f] == if f in TrimmedFields(rules) then Text.Trim(Field(body, f)) else Field(body, f)
    {
      SanitizeOneAt(rules[0], body, f);
      if rules[0].trim && f == rules[0].field {
        Text.TrimIdempotent(Field(body, f));
      }
    }
  }

  /** What one chain's write-back leaves in a field. */
  lemma SanitizeOneAt(rule: Rule, body: RequestBody, f: string)
    ensures Field(SanitizeOne(rule, body), f) ==
      if rule.trim && f == rule.field then Text.Trim(Field(body, f)) else Field(body, f)
  {
    if rule.trim && f == rule.field && !Trims(rule, body) {
      assert Text.AllSpace(Field(body, f));
    }
  }

  /** `validate(validations)`: `next()` with the sanitised body exactly when
      every rule passes, otherwise `next(errors)` with all errors. */
  function Validate(rules: seq<Rule>, body: RequestBody, fm: Formats): (r: Next)
    ensures r.Continue? <==> forall k :: 0 <= k < |rules| ==> RuleErrors(rules[k], body, fm) == []
    ensures r.Continue? <==> Errors(rules, body, fm) == []
    ensures r.Continue? ==> r.body == Sanitize(rules, body)
    ensures r.Reject? ==> r.errors == Errors(rules, body, fm) && r.errors != []
  {
    var errors := Errors(rules, body, fm);
    if errors == [] then Continue(Sanitize(rules, body)) else Reject(errors)
  }

  /** Sanitising a sanitised body changes nothing more. */
  lemma SanitizeIdempotent(rules: seq<Rule>, body: RequestBody)
    ensures Sanitize(rules, Sanitize(rules, body)) == Sanitize(rules, body)
  {
    var r := Sanitize(rules, body);
    var rr := Sanitize(rules, r);
    forall f | f in rr
      ensures rr[f] == r[f]
    {
      if f in TrimmedFields(rules) {
        Text.TrimIdempotent(Field(body, f));
      }
    }
  }

  /** The errors that name a field, in their order. */
  function WithParam(errors: seq<FieldError>, f: string): (r: seq<FieldError>)
    ensures forall e :: e in r <==> e in errors && e.param == f
  {
    if errors == [] then []
    else (if errors[0].param == f then [errors[0]] else []) + WithParam(errors[1..], f)
  }

  /** The chains on a field, in their order. */
  function RulesFor(rules: seq<Rule>, f: string): (r: seq<Rule>)
    ensures forall rule :: rule in r <==> rule in rules && rule.field == f
  {
    if rules == [] then []
    else (if rules[0].field == f then [rules[0]] else []) + RulesFor(rules[1..], f)
  }

  lemma {:induction false} WithParamAppend(a: seq<FieldError>, b: seq<FieldError>, f: string)
    ensures WithParam(a + b, f) == WithParam(a, f) + WithParam(b, f)
  {
    if a != [] {
      var head := if a[0].param == f then [a[0]] else [];
      assert (a + b)[0] == a[0] && (a + b)[1..] == a[1..] + b;
      assert WithParam(a + b, f) == head + WithParam(a[1..] + b, f);
      WithParamAppend(a[1..], b, f);
      assert head + (WithParam(a[1..], f) + WithParam(b, f)) == (head + WithParam(a[1..], f)) + WithParam(b, f);
    } else {
      assert a + b == b;
    }
  }

  lemma {:induction false} WithParamAll(errors: seq<FieldError>, f: string)
    requires forall e :: e in errors ==> e.param == f
    ensures WithParam(errors, f) == errors
  {
    if errors != [] {
      WithParamAll(errors[1..], f);
    }
  }

  lemma {:induction false} WithParamNone(errors: seq<FieldError>, f: string)
    requires forall e :: e in errors ==> e.param != f
    ensures WithParam(errors, f) == []
  {
    if errors != [] {
      WithParamNone(errors[1..], f);
    }
  }

  /** The errors naming a field are exactly the errors of the chains on that
      field, each chain's in chain order. This does not depend on the order
      in which the chains finish running. */
  lemma {:induction false} ErrorsPerField(rules: seq<Rule>, body: RequestBody, fm: Formats, f: string)
    ensures WithParam(Errors(rules, body, fm), f) == Errors(RulesFor(rules, f), body, fm)
  {
    if rules != [] {
      var first := RuleErrors(rules[0], body, fm);
      var rest := RulesFor(rules[1..], f);
      assert Errors(rules, body, fm) == first + Errors(rules[1..], body, fm);
      WithParamAppend(first, Errors(rules[1..], body, fm), f);
      ErrorsPerField(rules[1..], body, fm, f);
      if rules[0].field == f {
        WithParamAll(first, f);
        assert RulesFor(rules, f) == [rules[0]] + rest;
        assert ([rules[0]] + rest)[1..] == rest;
        assert Errors([rules[0]] + rest, body, fm) == first + Errors(rest, body, fm);
      } else {
        WithParamNone(first, f);
        assert RulesFor(rules, f) == [] + rest == rest;
      }
    }
  }

  // ---------------------------------------------------------------------
  // The rule sets
  // ---------------------------------------------------------------------

  // Each chain once, by what it demands; the rule sets below share them.
  const NameRequired := Rule("name", false, true, [Step(NotEmpty, "Name is required")])
  const EmailRequired := Rule("email", false, false, [Step(IsEmail, "Valid email is required")])
  const PasswordLength := Rule("password", false, false, [Step(MinLength(6), "Password must be at least 6 characters")])
  const PasswordRequired := Rule("password", false, false, [Step(NotEmpty, "Password is required")])
  const TitleRequired := Rule("title", false, true, [Step(NotEmpty, "Title is required")])
  const TitleNotBlank := Rule("title", true, true, [Step(NotEmpty, "Title cannot be empty")])
  const DescriptionLength := Rule("description", true, false, [Step(IsString, DefaultMessage), Step(MaxLength(5000), "Description too long")])
  const CategoryText := Rule("category", true, true, [Step(IsString, "Invalid category")])
  const DueDateFormat := Rule("dueDate", true, false, [Step(IsISO8601, "Invalid due date")])
  const UserIdFormat := Rule("userId", true, false, [Step(IsMongoId, "Invalid userId")])
  const StatusAllowed := Rule("status", true, false, [Step(IsIn(TaskOrder.Statuses), "Invalid status")])
  const StatusRequired := Rule("status", false, false, [Step(Exists, DefaultMessage), Step(IsIn(TaskOrder.Statuses), "Invalid status")])
  const NameNotBlank := Rule("name", true, true, [Step(NotEmpty, "Name cannot be empty")])
  const EmailValid := Rule("email", true, false, [Step(IsEmail, "Invalid email")])
  const CurrentPasswordRequired := Rule("currentPassword", false, false, [Step(NotEmpty, "Current password is required")])
  const NewPasswordLength := Rule("newPassword", false, false, [Step(MinLength(6), "New password must be at least 6 characters")])

  const RegisterRules: seq<Rule> := [NameRequired, EmailRequired, PasswordLength]
  const LoginRules: seq<Rule> := [EmailRequired, PasswordRequired]
  const TaskCreateRules: seq<Rule> := [TitleRequired, DescriptionLength, CategoryText, DueDateFormat, UserIdFormat]
  const TaskUpdateRules: seq<Rule> := [TitleNotBlank, DescriptionLength, CategoryText, DueDateFormat, StatusAllowed]
  const StatusOnlyRules: seq<Rule> := [StatusRequired]
  const ProfileUpdateRules: seq<Rule> := [NameNotBlank, EmailValid]
  const PasswordChangeRules: seq<Rule> := [CurrentPasswordRequired, NewPasswordLength]


  // ---------------------------------------------------------------------
  // What each rule set accepts
  // ---------------------------------------------------------------------

  /** A rule passes when it is skipped or every step passes on the value. */
  lemma RulePasses(rule: Rule, body: RequestBody, fm: Formats)
    ensures RuleErrors(rule, body, fm) == [] <==>
      (rule.optional && rule.field !in body) ||
      forall k :: 0 <= k < |rule.steps| ==> Passes(rule.steps[k].check, rule.field in body, ValueOf(rule, body), fm)
  {
  }

  /** A chain of one check passes exactly when the rule is skipped or the
      check passes on the value. */
  lemma SingleStep(rule: Rule, body: RequestBody, fm: Formats)
    requires |rule.steps| == 1
    ensures RuleErrors(rule, body, fm) == [] <==>
      (rule.optional && rule.field !in body) || Passes(rule.steps[0].check, rule.field in body, ValueOf(rule, body), fm)
  {
    RulePasses(rule, body, fm);
  }

  /** An optional, untrimmed chain of one check passes exactly when the
      field is undefined or the check passes on its value. */
  lemma OptionalCheck(rule: Rule, body: RequestBody, fm: Formats)
    requires rule.optional && !rule.trim && |rule.steps| == 1
    ensures RuleErrors(rule, body, fm) == [] <==>
      (rule.field in body ==> Passes(rule.steps[0].check, true, body[rule.field], fm))
  {
    SingleStep(rule, body, fm);
  }

  /** An optional, untrimmed `isString().isLength({ max })` chain passes
      exactly when the field is undefined or no longer than the bound. */
  lemma BoundedText(rule: Rule, body: RequestBody, fm: Formats)
    requires rule.optional && !rule.trim && |rule.steps| == 2
    requires rule.steps[0].check == IsString && rule.steps[1].check.MaxLength?
    ensures RuleErrors(rule, body, fm) == [] <==>
      (rule.field in body ==> LengthCount(body[rule.field]) <= rule.steps[1].check.max)
  {
    RulePasses(rule, body, fm);
    if rule.field in body {
      var v := ValueOf(rule, body);
      if RuleErrors(rule, body, fm) == [] {
        assert Passes(rule.steps[1].check, true, v, fm);
      }
      if LengthCount(v) <= rule.steps[1].check.max {
        forall k | 0 <= k < |rule.steps| ensures Passes(rule.steps[k].check, true, v, fm) {
          if k == 0 {} else {}
        }
      }
    }
  }

  // What each task chain accepts.

  lemma TitleRequiredPasses(body: RequestBody, fm: Formats)
    ensures RuleErrors(TitleRequired, body, fm) == [] <==> Text.Trim(Field(body, "title")) != ""
  {
    SingleStep(TitleRequired, body, fm);
  }

  lemma DescriptionPasses(body: RequestBody, fm: Formats)
    ensures RuleErrors(DescriptionLength, body, fm) == [] <==> ("description" in body ==> LengthCount(body["description"]) <= 5000)
  {
    BoundedText(DescriptionLength, body, fm);
  }

  lemma CategoryPasses(body: RequestBody, fm: Formats)
    ensures RuleErrors(CategoryText, body, fm) == []
  {
    if "category" in body {
      var steps := CategoryText.steps;
      assert steps[1..] == [];
      assert Passes(steps[0].check, true, ValueOf(CategoryText, body), fm);
    }
  }

  lemma DueDatePasses(body: RequestBody, fm: Formats)
    ensures RuleErrors(DueDateFormat, body, fm) == [] <==> ("dueDate" in body ==> fm.isISO8601(body["dueDate"]))
  {
    OptionalCheck(DueDateFormat, body, fm);
  }

  lemma UserIdPasses(body: RequestBody, fm: Formats)
    ensures RuleErrors(UserIdFormat, body, fm) == [] <==> ("userId" in body ==> fm.isMongoId(body["userId"]))
  {
    OptionalCheck(UserIdFormat, body, fm);
  }

  lemma TitleNotBlankPasses(body: RequestBody, fm: Formats)
    ensures RuleErrors(TitleNotBlank, body, fm) == [] <==> ("title" in body ==> Text.Trim(body["title"]) != "")
  {
    SingleStep(TitleNotBlank, body, fm);
  }

  lemma StatusAllowedPasses(body: RequestBody, fm: Formats)
    ensures RuleErrors(StatusAllowed, body, fm) == [] <==> ("status" in body ==> body["status"] in TaskOrder.Statuses)
  {
    OptionalCheck(StatusAllowed, body, fm);
  }

  /** Registration needs a name that is not blank once trimmed, a valid
      e-mail address and a password of six characters or more. */
  lemma RegisterAccepts(body: RequestBody, fm: Formats)
    ensures Validate(RegisterRules, body, fm) .Continue? <==>
      && Text.Trim(Field(body, "name")) != ""
      && fm.isEmail(Field(body, "email"))
      && LengthCount(Field(body, "password")) >= 6
  {
    RegisterErrors(body, fm);
  }

  lemma RegisterErrors(body: RequestBody, fm: Formats)
    ensures Errors(RegisterRules, body, fm) == [] <==>
      && Text.Trim(Field(body, "name")) != ""
      && fm.isEmail(Field(body, "email"))
      && LengthCount(Field(body, "password")) >= 6
  {
    SingleStep(NameRequired, body, fm);
    SingleStep(EmailRequired, body, fm);
    SingleStep(PasswordLength, body, fm);
    var rs := RegisterRules;
    assert Errors(rs, body, fm) == [] <==>
      && RuleErrors(rs[0], body, fm) == [] && RuleErrors(rs[1], body, fm) == []
      && RuleErrors(rs[2], body, fm) == [];
  }


  /** Login needs a valid e-mail address and a non-empty password. */
  lemma LoginAccepts(body: RequestBody, fm: Formats)
    ensures Validate(LoginRules, body, fm) .Continue? <==>
      fm.isEmail(Field(body, "email")) && Field(body, "password") != ""
  {
    LoginErrors(body, fm);
  }

  lemma LoginErrors(body: RequestBody, fm: Formats)
    ensures Errors(LoginRules, body, fm) == [] <==>
      fm.isEmail(Field(body, "email")) && Field(body, "password") != ""
  {
    SingleStep(EmailRequired, body, fm);
    SingleStep(PasswordRequired, body, fm);
    var rs := LoginRules;
    assert Errors(rs, body, fm) == [] <==>
      && RuleErrors(rs[0], body, fm) == [] && RuleErrors(rs[1], body, fm) == [];
  }

  /** Creating a task needs a title that is not blank once trimmed; a given
      description has at most 5000 characters, a given due date is an ISO
      8601 date and a given user id is a database id. The category chain
      never fails on a string. */
  lemma TaskCreateAccepts(body: RequestBody, fm: Formats)
    ensures Validate(TaskCreateRules, body, fm) .Continue? <==>
      && Text.Trim(Field(body, "title")) != ""
      && ("description" in body ==> LengthCount(body["description"]) <= 5000)
      && ("dueDate" in body ==> fm.isISO8601(body["dueDate"]))
      && ("userId" in body ==> fm.isMongoId(body["userId"]))
  {
    TaskCreateErrors(body, fm);
  }

  lemma TaskCreateErrors(body: RequestBody, fm: Formats)
    ensures Errors(TaskCreateRules, body, fm) == [] <==>
      && Text.Trim(Field(body, "title")) != ""
      && ("description" in body ==> LengthCount(body["description"]) <= 5000)
      && ("dueDate" in body ==> fm.isISO8601(body["dueDate"]))
      && ("userId" in body ==> fm.isMongoId(body["userId"]))
  {
    TitleRequiredPasses(body, fm);
    DescriptionPasses(body, fm);
    CategoryPasses(body, fm);
    DueDatePasses(body, fm);
    UserIdPasses(body, fm);
    var rs := TaskCreateRules;
    assert Errors(rs, body, fm) == [] <==>
      && RuleErrors(rs[0], body, fm) == [] && RuleErrors(rs[1], body, fm) == []
      && RuleErrors(rs[2], body, fm) == [] && RuleErrors(rs[3], body, fm) == []
      && RuleErrors(rs[4], body, fm) == [];
  }

  /** A created task reaches the controller with its title, and its
      category when given, trimmed; every other field is as sent. */
  lemma TaskCreateSanitizes(body: RequestBody, fm: Formats)
    ensures var r := Validate(TaskCreateRules, body, fm);
      r.Continue? ==>
        && "title" in body && Text.Trim(body["title"]) != ""
        && r.body == SanitizedTask(body)
  {
    if Validate(TaskCreateRules, body, fm).Continue? {
      assert RuleErrors(TaskCreateRules[0], body, fm) == [];
      TitleRequiredPasses(body, fm);
      SanitizeTaskBody(body);
    }
  }

  /** The task body as sent, with its title and category trimmed. */
  function SanitizedTask(body: RequestBody): (r: RequestBody)
    ensures r.Keys == body.Keys
  {
    map f | f in body :: if f == "title" || f == "category" then Text.Trim(body[f]) else body[f]
  }

  lemma SanitizeTaskBody(body: RequestBody)
    requires "title" in body
    ensures Sanitize(TaskCreateRules, body) == SanitizedTask(body)
  {
    SanitizeTaskKeys(body);
    SanitizeTaskValues(body);
    SameBody(Sanitize(TaskCreateRules, body), SanitizedTask(body));
  }

  /** Two bodies with the same fields and the same values are equal. */
  lemma SameBody(r: RequestBody, t: RequestBody)
    requires r.Keys == t.Keys
    requires forall f :: f in t ==> f in r && r[f] == t[f]
    ensures r == t
  {
  }

  lemma SanitizeTaskValues(body: RequestBody)
    requires "title" in body
    ensures forall f :: f in SanitizedTask(body) ==> f in Sanitize(TaskCreateRules, body) && Sanitize(TaskCreateRules, body)[f] == SanitizedTask(body)[f]
  {
    forall f | f in SanitizedTask(body)
      ensures f in Sanitize(TaskCreateRules, body) && Sanitize(TaskCreateRules, body)[f] == SanitizedTask(body)[f]
    {
      SanitizeTaskValue(body, f);
    }
  }

  lemma SanitizeTaskKeys(body: RequestBody)
    requires "title" in body
    ensures Sanitize(TaskCreateRules, body).Keys == body.Keys
  {
    TaskCreateTrims();
  }

  lemma SanitizeTaskValue(body: RequestBody, f: string)
    requires "title" in body && f in body
    ensures f in Sanitize(TaskCreateRules, body)
    ensures Sanitize(TaskCreateRules, body)[f] == SanitizedTask(body)[f]
  {
    TaskCreateTrims();
  }

  /** The create rules trim the title and the category, and only the title
      chain is required. */
  lemma TaskCreateTrims()
    ensures TrimmedFields(TaskCreateRules) == {"title", "category"}
    ensures RequiredTrims(TaskCreateRules) == {"title"}
  {
    var rest := TaskCreateRules[1..];
    assert rest[3..][1..] == [];
    assert TrimmedFields(rest[3..]) == {} && RequiredTrims(rest[3..]) == {};
    assert TrimmedFields(rest[2..]) == {} && RequiredTrims(rest[2..]) == {};
    assert TrimmedFields(rest[1..]) == {"category"} && RequiredTrims(rest[1..]) == {};
    assert TrimmedFields(rest) == {"category"} && RequiredTrims(rest) == {};
  }

  /** On update every field is optional; a given title must not be blank and
      a given status must be one of the three. */
  lemma TaskUpdateAccepts(body: RequestBody, fm: Formats)
    ensures Validate(TaskUpdateRules, body, fm) .Continue? <==>
      && ("title" in body ==> Text.Trim(body["title"]) != "")
      && ("description" in body ==> LengthCount(body["description"]) <= 5000)
      && ("dueDate" in body ==> fm.isISO8601(body["dueDate"]))
      && ("status" in body ==> body["status"] in TaskOrder.Statuses)
  {
    TaskUpdateErrors(body, fm);
  }

  lemma TaskUpdateErrors(body: RequestBody, fm: Formats)
    ensures Errors(TaskUpdateRules, body, fm) == [] <==>
      && ("title" in body ==> Text.Trim(body["title"]) != "")
      && ("description" in body ==> LengthCount(body["description"]) <= 5000)
      && ("dueDate" in body ==> fm.isISO8601(body["dueDate"]))
      && ("status" in body ==> body["status"] in TaskOrder.Statuses)
  {
    TitleNotBlankPasses(body, fm);
    DescriptionPasses(body, fm);
    CategoryPasses(body, fm);
    DueDatePasses(body, fm);
    StatusAllowedPasses(body, fm);
    var rs := TaskUpdateRules;
    assert Errors(rs, body, fm) == [] <==>
      && RuleErrors(rs[0], body, fm) == [] && RuleErrors(rs[1], body, fm) == []
      && RuleErrors(rs[2], body, fm) == [] && RuleErrors(rs[3], body, fm) == []
      && RuleErrors(rs[4], body, fm) == [];
  }

  /** The status-only rule needs the field and one of the three values; a
      missing status fails both of its checks. */
  lemma StatusOnlyAccepts(body: RequestBody, fm: Formats)
    ensures Validate(StatusOnlyRules, body, fm) .Continue? <==>
      "status" in body && body["status"] in TaskOrder.Statuses
    ensures "status" !in body ==>
      Validate(StatusOnlyRules, body, fm) ==
        Reject([FieldError("status", DefaultMessage), FieldError("status", "Invalid status")])
  {
    var rs := StatusOnlyRules;
    RulePasses(StatusRequired, body, fm);
    assert Errors(rs, body, fm) == RuleErrors(rs[0], body, fm) + [];
    if "status" !in body {
      assert "" !in TaskOrder.Statuses;
      var steps := StatusRequired.steps;
      assert StepErrors("status", steps[1..], false, "", fm) == [FieldError("status", "Invalid status")];
    }
  }

  /** A profile update may leave out either field; a given name must not be
      blank and a given e-mail address must be valid. */
  lemma ProfileUpdateAccepts(body: RequestBody, fm: Formats)
    ensures Validate(ProfileUpdateRules, body, fm) .Continue? <==>
      && ("name" in body ==> Text.Trim(body["name"]) != "")
      && ("email" in body ==> fm.isEmail(body["email"]))
  {
    ProfileUpdateErrors(body, fm);
  }

  lemma ProfileUpdateErrors(body: RequestBody, fm: Formats)
    ensures Errors(ProfileUpdateRules, body, fm) == [] <==>
      && ("name" in body ==> Text.Trim(body["name"]) != "")
      && ("email" in body ==> fm.isEmail(body["email"]))
  {
    SingleStep(NameNotBlank, body, fm);
    SingleStep(EmailValid, body, fm);
    var rs := ProfileUpdateRules;
    assert Errors(rs, body, fm) == [] <==>
      && RuleErrors(rs[0], body, fm) == [] && RuleErrors(rs[1], body, fm) == [];
  }

  /** A password change needs the current password and a new one of six
      characters or more. */
  lemma PasswordChangeAccepts(body: RequestBody, fm: Formats)
    ensures Validate(PasswordChangeRules, body, fm) .Continue? <==>
      Field(body, "currentPassword") != "" && LengthCount(Field(body, "newPassword")) >= 6
  {
    PasswordChangeErrors(body, fm);
  }

  lemma PasswordChangeErrors(body: RequestBody, fm: Formats)
    ensures Errors(PasswordChangeRules, body, fm) == [] <==>
      Field(body, "currentPassword") != "" && LengthCount(Field(body, "newPassword")) >= 6
  {
    SingleStep(CurrentPasswordRequired, body, fm);
    SingleStep(NewPasswordLength, body, fm);
    var rs := PasswordChangeRules;
    assert Errors(rs, body, fm) == [] <==>
      && RuleErrors(rs[0], body, fm) == [] && RuleErrors(rs[1], body, fm) == [];
  }
}
