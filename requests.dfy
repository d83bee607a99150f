/** Reading the four form fields out of the JSON body of a `mark_attendance`
    request, with Python's truthiness and `str.strip()`. */
module Requests {
  import opened Text
  import opened Wrappers

  /** A parsed JSON value. Numbers are integers here; for truthiness a float
      behaves the same way (zero is falsy). */
  datatype Json =
    | JNull
    | JBool(b: bool)
    | JNumber(n: int)
    | JString(s: string)
    | JArray(items: seq<Json>)
    | JObject(members: map<string, Json>)

  /** Python's truth value of the decoded object. */
  predicate Truthy(v: Json) {
    match v
    case JNull => false
    case JBool(b) => b
    case JNumber(n) => n != 0
    case JString(s) => s != ""
    case JArray(items) => items != []
    case JObject(members) => members != map[]
  }

  /** The exception Python raises when `.get` or `.strip` is called on a value
      that has no such method; Flask answers it with a 500 page. */
  datatype Fault = AttributeError

  /** `request.get_json(silent=True) or {}`, followed by `.get` on it: None
      stands for a body that is not JSON. Only a dict supports `.get`. */
  function RequestData(body: Option<Json>): (r: Result<map<string, Json>, Fault>)
    ensures r.Failure? <==> body.Some? && Truthy(body.value) && !body.value.JObject?
    ensures r.Success? && body.Some? && body.value.JObject? ==> r.value == body.value.members
    ensures r.Success? && (body.None? || !Truthy(body.value)) ==> r.value == map[]
  {
    var data := if body.Some? && Truthy(body.value) then body.value else JObject(map[]);
    if data.JObject? then Success(data.members) else Failure(AttributeError)
  }

  /** A field counts as missing when it is absent, falsy, or a string of
      whitespace only. */
  predicate Blank(data: map<string, Json>, key: string) {
    key !in data || !Truthy(data[key]) || (data[key].JString? && AllSpace(data[key].s))
  }

  /** `(data.get(key) or "").strip()`. */
  function FieldText(data: map<string, Json>, key: string): (r: Result<string, Fault>)
    ensures r.Failure? <==> key in data && Truthy(data[key]) && !data[key].JString?
    ensures r.Success? ==> (r.value == "" <==> Blank(data, key))
    ensures r.Success? && key in data && data[key].JString? ==> r.value == Strip(data[key].s)
  {
    var v := if key in data then data[key] else JNull;
    if !Truthy(v) then Success("")
    else if v.JString? then Success(Strip(v.s))
    else Failure(AttributeError)
  }

  /** The four trimmed fields of a submission. */
  datatype Form = Form(firstName: string, lastName: string, studentId: string, token: string)

  /** Lines 102-106 of the handler: fetch the body, then read first_name,
      last_name, student_id and token in that order; the first fault aborts. */
  function ReadForm(body: Option<Json>): Result<Form, Fault>
  {
    match RequestData(body)
    case Failure(e) => Failure(e)
    case Success(data) =>
      match FieldText(data, "first_name")
      case Failure(e) => Failure(e)
      case Success(first) =>
        match FieldText(data, "last_name")
        case Failure(e) => Failure(e)
        case Success(last) =>
          match FieldText(data, "student_id")
          case Failure(e) => Failure(e)
          case Success(id) =>
            match FieldText(data, "token")
            case Failure(e) => Failure(e)
            case Success(token) => Success(Form(first, last, id, token))
  }

  /** `all([first_name, last_name, student_id, token])`. */
  predicate Complete(f: Form) {
    f.firstName != "" && f.lastName != "" && f.studentId != "" && f.token != ""
  }

  /** A body reads without a fault exactly when it is a dict (or falsy) whose
      four fields are each a string or falsy; the form then holds the four
      trimmed values. */
  lemma ReadFormFields(body: Option<Json>)
    ensures ReadForm(body).Success? <==>
      && RequestData(body).Success?
      && FieldText(RequestData(body).value, "first_name").Success?
      && FieldText(RequestData(body).value, "last_name").Success?
      && FieldText(RequestData(body).value, "student_id").Success?
      && FieldText(RequestData(body).value, "token").Success?
    ensures ReadForm(body).Success? ==>
      var data := RequestData(body).value;
      ReadForm(body).value == Form(FieldText(data, "first_name").value, FieldText(data, "last_name").value,
                                   FieldText(data, "student_id").value, FieldText(data, "token").value)
  {
  }

  /** A field value read out of the body carries no surrounding whitespace. */
  lemma FieldTextTrimmed(data: map<string, Json>, key: string)
    requires FieldText(data, key).Success?
    ensures Strip(FieldText(data, key).value) == FieldText(data, key).value
  {
    if key in data && data[key].JString? && Truthy(data[key]) {
      StripIdempotent(data[key].s);
    }
  }

  /** A submission read without a fault is incomplete exactly when one of its
      four fields is missing, falsy or whitespace only. */
  lemma ReadFormBlankIff(body: Option<Json>)
    requires ReadForm(body).Success?
    ensures var data := RequestData(body).value;
      !Complete(ReadForm(body).value) <==>
        Blank(data, "first_name") || Blank(data, "last_name") || Blank(data, "student_id") || Blank(data, "token")
  {
    ReadFormFields(body);
  }
}
