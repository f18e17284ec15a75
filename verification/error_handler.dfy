/** The error-handling middleware: it turns whatever a handler passed to
    `next(err)` into a JSON reply, or hands it on when the reply has
    already started. The server as written never installs it, so this
    module states what it would answer once installed. */
module ErrorHandler {
  import opened Wrappers
  import Validators

  /** The error object a handler passes on. A validation result answers
      `array()` with its errors; other errors may carry an HTTP status and a
      message (the empty message is the falsy one). */
  datatype Failure = Failure(errors: Option<seq<Validators.FieldError>>, status: Option<int>, message: string)

  /** One entry of the `errors` list of a 400 reply. */
  datatype Entry = Entry(field: string, msg: string)

  datatype Payload = ValidationErrors(errors: seq<Entry>) | ErrorText(error: string)

  /** `next(err)` when the headers are out, otherwise a status and a body. */
  datatype Handled = Delegated | Respond(status: int, body: Payload)

  const FallbackMessage: string := "Error"
  const InternalError: string := "Internal Server Error"

  /** The validation errors as the reply lists them, one entry per error in
      the same order. */
  function Entries(errors: seq<Validators.FieldError>): (r: seq<Entry>)
    ensures |r| == |errors|
    ensures forall k :: 0 <= k < |r| ==> r[k].field == errors[k].param && r[k].msg == errors[k].msg
  {
    if errors == [] then [] else [Entry(errors[0].param, errors[0].msg)] + Entries(errors[1..])
  }

  /** A status is truthy when it is given and not zero. */
  predicate HasStatus(f: Failure)
  {
    f.status.Some? && f.status.value != 0
  }

  function Handle(err: Option<Failure>, headersSent: bool): (r: Handled)
    ensures r.Delegated? <==> headersSent
    ensures !headersSent && err.Some? && err.value.errors.Some? ==>
      r == Respond(400, ValidationErrors(Entries(err.value.errors.value)))
    ensures !headersSent && err.Some? && err.value.errors.None? && HasStatus(err.value) ==>
      r.Respond? && r.status == err.value.status.value && r.body.ErrorText? &&
      r.body.error == (if err.value.message == "" then FallbackMessage else err.value.message)
    ensures !headersSent && (err.None? || (err.value.errors.None? && !HasStatus(err.value))) ==>
      r == Respond(500, ErrorText(InternalError))
    ensures r.Respond? && r.body.ErrorText? ==> r.body.error != ""
  {
    if headersSent then Delegated
    else if err.Some? && err.value.errors.Some? then
      Respond(400, ValidationErrors(Entries(err.value.errors.value)))
    else if err.Some? && HasStatus(err.value) then
      Respond(err.value.status.value, ErrorText(if err.value.message == "" then FallbackMessage else err.value.message))
    else
      Respond(500, ErrorText(InternalError))
  }

  /** The fields a rule set checks. */
  function RuleFields(rules: seq<Validators.Rule>): set<string>
  {
    set k | 0 <= k < |rules| :: rules[k].field
  }

  /** Were the handler installed, a request the validators reject would
      reach it as a validation result and be answered 400 with a non-empty
      list that names only fields the rules check, one entry per error. */
  lemma RejectedRequestIs400(rules: seq<Validators.Rule>, body: Validators.RequestBody, fm: Validators.Formats)
    requires Validators.Validate(rules, body, fm).Reject?
    ensures
      var es := Validators.Validate(rules, body, fm).errors;
      var r := Handle(Some(Failure(Some(es), None, "")), false);
      && r.Respond? && r.status == 400 && r.body.ValidationErrors?
      && |r.body.errors| == |es| > 0
      && forall k :: 0 <= k < |r.body.errors| ==>
           r.body.errors[k] == Entry(es[k].param, es[k].msg) && r.body.errors[k].field in RuleFields(rules)
  {
    var es := Validators.Validate(rules, body, fm).errors;
    ErrorsNameRuleFields(rules, body, fm);
    assert forall k :: 0 <= k < |es| ==> es[k] in es;
  }

  /** Every error the rules report names the field of one of the rules. */
  lemma {:induction false} ErrorsNameRuleFields(rules: seq<Validators.Rule>, body: Validators.RequestBody, fm: Validators.Formats)
    ensures forall e :: e in Validators.Errors(rules, body, fm) ==> e.param in RuleFields(rules)
  {
    if rules != [] {
      ErrorsNameRuleFields(rules[1..], body, fm);
      forall e | e in Validators.Errors(rules, body, fm) ensures e.param in RuleFields(rules) {
        if e in Validators.RuleErrors(rules[0], body, fm) {
          assert e.param == rules[0].field;
        } else {
          assert e in Validators.Errors(rules[1..], body, fm);
          var j :| 0 <= j < |rules[1..]| && rules[1..][j].field == e.param;
          assert rules[1 + j].field == e.param;
        }
      }
    }
  }
}
