/** The two state-changing endpoints, `generate_qr` and `mark_attendance`,
    over the token registry and the attendance ledger. */
module Checkpoint {
  import opened Wrappers
  import opened Clock
  import opened Tokens
  import opened Ledger
  import opened Requests
  import opened Text

  /** What an endpoint answers. `QrCode` stands for the PNG of the submission
      URL, which embeds the issued token; `InternalServerError` is Flask's
      page for an uncaught exception. */
  datatype Response =
    | QrCode(token: string)
    | Reply(code: int, status: string, message: string)
    | InternalServerError
  {
    function Code(): int {
      match this
      case QrCode(_) => 200
      case Reply(code, _, _) => code
      case InternalServerError => 500
    }
  }

  const MissingFields: Response := Reply(400, "error", "Missing required fields")
  const InvalidToken: Response := Reply(400, "error", "Invalid or expired token")
  const AlreadyRecorded: Response := Reply(409, "error", "Attendance already recorded today")

  function Marked(firstName: string, lastName: string): Response {
    Reply(200, "success", "Attendance marked for " + firstName + " " + lastName)
  }

  /** Both stores together. */
  datatype State = State(tokens: Registry, rows: seq<Row>)

  datatype Outcome = Outcome(state: State, response: Response)

  /** `generate_qr`: evict, then map the new token to `now` plus two minutes.
      Nothing but that one key is added, and no other expiry changes. */
  function Issue(s: State, token: string, now: int): (r: State)
    ensures token in r.tokens && r.tokens[token] == now + TokenTtl
    ensures forall u :: u != token ==> (u in r.tokens <==> Live(s.tokens, u, now))
    ensures forall u :: u in r.tokens && u != token ==> u in s.tokens && r.tokens[u] == s.tokens[u]
    ensures r.rows == s.rows
  {
    State(Unexpired(s.tokens, now)[token := now + TokenTtl], s.rows)
  }

  /** The decision procedure of `mark_attendance` once the body has been
      read into `form`, in the source's order: a read fault is a 500; the
      blank check (400); check-and-consume of the token (400); the same-day
      check against the ledger (409, with the token already burned); the
      append (200). Every outcome starts from the eviction pass at `now`.
      The one clock reading `now` stands for the request's time in seconds
      and `wall` for the same instant as a civil date and time. */
  function Decide(s: State, form: Result<Form, Fault>, now: int, wall: DateTime): Outcome {
    var live := Unexpired(s.tokens, now);
    match form
    case Failure(_) => Outcome(State(live, s.rows), InternalServerError)
    case Success(f) =>
      if !Complete(f) then Outcome(State(live, s.rows), MissingFields)
      else
        var redemption := Redeem(live, f.token, now);
        if !redemption.accepted then Outcome(State(redemption.after, s.rows), InvalidToken)
        else if HasToday(s.rows, f.studentId, wall.date) then Outcome(State(redemption.after, s.rows), AlreadyRecorded)
        else
          var row := NewRow(f.firstName, f.lastName, f.studentId, wall, f.token);
          Outcome(State(redemption.after, s.rows + [row]), Marked(f.firstName, f.lastName))
  }

  /** `mark_attendance` as one atomic step: evict, read the body, decide. */
  function Mark(s: State, body: Option<Json>, now: int, wall: DateTime): Outcome {
    Decide(s, ReadForm(body), now, wall)
  }

  /** A body that cannot be read (not a dict, or a field that is neither a
      string nor falsy) fails with a 500 after the eviction pass. */
  lemma UnreadableBodyFails(s: State, body: Option<Json>, now: int, wall: DateTime)
    requires ReadForm(body).Failure?
    ensures Mark(s, body, now, wall) == Outcome(State(Unexpired(s.tokens, now), s.rows), InternalServerError)
  {
  }

  /** Any missing, falsy or whitespace-only field is a 400: no token is
      consumed and no row is written; only the eviction pass has run. */
  lemma BlankFieldRejected(s: State, body: Option<Json>, now: int, wall: DateTime, key: string)
    requires ReadForm(body).Success?
    requires key in {"first_name", "last_name", "student_id", "token"}
    requires Blank(RequestData(body).value, key)
    ensures Mark(s, body, now, wall) == Outcome(State(Unexpired(s.tokens, now), s.rows), MissingFields)
  {
    ReadFormBlankIff(body);
  }

  /** A complete submission whose token is unknown, consumed or past its
      expiry is a 400; the registry is only evicted and the ledger untouched. */
  lemma InvalidTokenRejected(s: State, f: Form, now: int, wall: DateTime)
    requires Complete(f) && !Live(s.tokens, f.token, now)
    ensures Decide(s, Success(f), now, wall) == Outcome(State(Unexpired(s.tokens, now), s.rows), InvalidToken)
  {
    EvictionKeepsLive(s.tokens, f.token, now);
  }

  /** A same-day resubmission with a live token is a 409 that leaves the ledger
      as it was, yet the token is gone from the registry. */
  lemma DuplicateBurnsToken(s: State, f: Form, now: int, wall: DateTime)
    requires Complete(f) && Live(s.tokens, f.token, now)
    requires HasToday(s.rows, f.studentId, wall.date)
    ensures Decide(s, Success(f), now, wall)
            == Outcome(State(Unexpired(s.tokens, now) - {f.token}, s.rows), AlreadyRecorded)
  {
    EvictionKeepsLive(s.tokens, f.token, now);
  }

  /** A complete submission with a live token and no row for the student
      today is a 200 that consumes the token and appends exactly one row
      holding the trimmed fields, after which the student has a row today. */
  lemma SubmissionRecorded(s: State, f: Form, now: int, wall: DateTime)
    requires Complete(f) && Live(s.tokens, f.token, now)
    requires !HasToday(s.rows, f.studentId, wall.date)
    ensures var o := Decide(s, Success(f), now, wall);
      && o.response == Marked(f.firstName, f.lastName)
      && o.state.tokens == Unexpired(s.tokens, now) - {f.token}
      && o.state.rows == s.rows + [Row(f.firstName, f.lastName, f.studentId, FormatDateTime(wall), f.token)]
      && HasToday(o.state.rows, f.studentId, wall.date)
  {
    EvictionKeepsLive(s.tokens, f.token, now);
    var rows' := Decide(s, Success(f), now, wall).state.rows;
    assert rows'[|s.rows|].studentId == f.studentId && OnDay(rows'[|s.rows|], wall.date);
  }

  /** The only change to the registry is the eviction pass and, when the
      token was accepted (a 200 or a 409), the removal of that one token. */
  lemma DecideTokens(s: State, form: Result<Form, Fault>, now: int, wall: DateTime)
    ensures var o := Decide(s, form, now, wall);
      if Accepted(o.response)
      then form.Success? && Live(s.tokens, form.value.token, now)
           && o.state.tokens == Unexpired(s.tokens, now) - {form.value.token}
      else o.state.tokens == Unexpired(s.tokens, now)
  {
    if form.Success? && Complete(form.value) {
      EvictionKeepsLive(s.tokens, form.value.token, now);
    }
  }

  /** The ledger either stays as it was or, exactly on a 200, grows by one
      row at its end; every response is a 200, 400, 409 or 500. */
  lemma DecideRows(s: State, form: Result<Form, Fault>, now: int, wall: DateTime)
    ensures var o := Decide(s, form, now, wall);
      && o.response.Code() in {200, 400, 409, 500}
      && (o.response.Code() == 500 <==> form.Failure?)
      && (o.response.Code() == 200 ==> |o.state.rows| == |s.rows| + 1 && o.state.rows[..|s.rows|] == s.rows)
      && (o.response.Code() != 200 ==> o.state.rows == s.rows)
  {
    if form.Success? && Complete(form.value) {
      var o := Decide(s, form, now, wall);
      if o.response.Code() == 200 {
        assert o.state.rows[..|s.rows|] == s.rows;
      }
    }
  }

  /** `mark_attendance` keeps the ledger free of same-day duplicates. */
  lemma MarkKeepsNoDuplicates(s: State, body: Option<Json>, now: int, wall: DateTime)
    requires NoSameDayDuplicates(s.rows)
    ensures NoSameDayDuplicates(Mark(s, body, now, wall).state.rows)
  {
    match ReadForm(body)
    case Failure(_) =>
    case Success(f) =>
      if Complete(f) && Redeem(Unexpired(s.tokens, now), f.token, now).accepted
         && !HasToday(s.rows, f.studentId, wall.date) {
        AppendKeepsNoDuplicates(s.rows, f.firstName, f.lastName, f.studentId, wall, f.token);
      }
  }

  /** A request to one of the two endpoints, with its clock readings. */
  datatype Request =
    | GenerateQrRequest(token: string, now: int)
    | MarkRequest(body: Option<Json>, now: int, wall: DateTime)

  function Step(s: State, req: Request): Outcome {
    match req
    case GenerateQrRequest(token, now) => Outcome(Issue(s, token, now), QrCode(token))
    case MarkRequest(body, now, wall) => Mark(s, body, now, wall)
  }

  /** The responses to a sequence of requests served one at a time. */
  function Run(s: State, reqs: seq<Request>): (rs: seq<Response>)
    ensures |rs| == |reqs|
    decreases |reqs|
  {
    if reqs == [] then [] else [Step(s, reqs[0]).response] + Run(Step(s, reqs[0]).state, reqs[1..])
  }

  /** The token a `mark_attendance` request presents, once read and trimmed. */
  function Presented(req: Request): Option<string> {
    if req.MarkRequest? && ReadForm(req.body).Success? then Some(ReadForm(req.body).value.token) else None
  }

  predicate Reissues(req: Request, t: string) {
    req.GenerateQrRequest? && req.token == t
  }

  /** The registry's entry for `t`, if any, expires no later than `deadline`. */
  predicate ExpiresBy(m: Registry, t: string, deadline: int) {
    t in m ==> m[t] <= deadline
  }

  /** Redemption `accepted` a token: the request burned it (200 or 409). */
  predicate Accepted(r: Response) {
    r.Reply? && (r.code == 200 || r.code == 409)
  }

  lemma StepKeepsDeadline(s: State, req: Request, t: string, deadline: int)
    requires ExpiresBy(s.tokens, t, deadline)
    requires !Reissues(req, t)
    ensures ExpiresBy(Step(s, req).state.tokens, t, deadline)
    ensures req.MarkRequest? && req.now > deadline && Presented(req) == Some(t)
            ==> Step(s, req).response.Code() == 400
  {
    if req.MarkRequest? {
      DecideTokens(s, ReadForm(req.body), req.now, req.wall);
      DecideRows(s, ReadForm(req.body), req.now, req.wall);
    }
  }

  /** Until `t` is issued again, every request that presents it at a time
      strictly after its deadline is refused with a 400. */
  lemma {:induction false} LateRedemptionsFail(s: State, reqs: seq<Request>, t: string, deadline: int)
    requires ExpiresBy(s.tokens, t, deadline)
    requires forall i :: 0 <= i < |reqs| ==> !Reissues(reqs[i], t)
    ensures forall i :: 0 <= i < |reqs| && reqs[i].MarkRequest? && reqs[i].now > deadline && Presented(reqs[i]) == Some(t)
                        ==> Run(s, reqs)[i].Code() == 400
    decreases |reqs|
  {
    if reqs != [] {
      StepKeepsDeadline(s, reqs[0], t, deadline);
      LateRedemptionsFail(Step(s, reqs[0]).state, reqs[1..], t, deadline);
      forall i | 1 <= i < |reqs|
        ensures Run(s, reqs)[i] == Run(Step(s, reqs[0]).state, reqs[1..])[i - 1]
      {
      }
    }
  }

  /** A token issued at `issued` and not issued again fails every redemption
      attempted after `issued` plus two minutes. */
  lemma IssuedTokenExpires(s: State, t: string, issued: int, reqs: seq<Request>)
    requires forall i :: 0 <= i < |reqs| ==> !Reissues(reqs[i], t)
    ensures var all := [GenerateQrRequest(t, issued)] + reqs;
      forall i :: 0 <= i < |all| && all[i].MarkRequest? && all[i].now > issued + TokenTtl && Presented(all[i]) == Some(t)
                  ==> Run(s, all)[i].Code() == 400
  {
    var all := [GenerateQrRequest(t, issued)] + reqs;
    assert all[1..] == reqs;
    LateRedemptionsFail(Issue(s, t, issued), reqs, t, issued + TokenTtl);
  }

  /** How many of the requests had token `t` accepted. */
  function AcceptedCount(s: State, reqs: seq<Request>, t: string): nat
    decreases |reqs|
  {
    if reqs == [] then 0
    else
      var o := Step(s, reqs[0]);
      (if Presented(reqs[0]) == Some(t) && Accepted(o.response) then 1 else 0)
      + AcceptedCount(o.state, reqs[1..], t)
  }

  lemma StepConsumes(s: State, req: Request, t: string)
    requires !Reissues(req, t)
    ensures t in Step(s, req).state.tokens ==> t in s.tokens
    ensures Presented(req) == Some(t) && Accepted(Step(s, req).response)
            ==> t in s.tokens && t !in Step(s, req).state.tokens
  {
    if req.MarkRequest? {
      DecideTokens(s, ReadForm(req.body), req.now, req.wall);
    }
  }

  /** A token is accepted at most once until it is issued again, and not at
      all when it is not in the registry to begin with. */
  lemma {:induction false} AcceptedAtMostOnce(s: State, reqs: seq<Request>, t: string)
    requires forall i :: 0 <= i < |reqs| ==> !Reissues(reqs[i], t)
    ensures AcceptedCount(s, reqs, t) <= if t in s.tokens then 1 else 0
    decreases |reqs|
  {
    if reqs != [] {
      StepConsumes(s, reqs[0], t);
      AcceptedAtMostOnce(Step(s, reqs[0]).state, reqs[1..], t);
    }
  }

  /** The running server: the two process-wide stores. */
  class Server {
    const registry: TokenRegistry
    const ledger: AttendanceLedger

    ghost function Snapshot(): State
      reads registry, ledger
    {
      State(registry.tokens, ledger.rows)
    }

    constructor ()
      ensures fresh(registry) && fresh(ledger)
      ensures Snapshot() == State(map[], [])
    {
      registry := new TokenRegistry();
      ledger := new AttendanceLedger();
    }

    /** `generate_qr` with the random token passed in; answers the token's QR code. */
    method GenerateQr(token: string, now: int) returns (response: Response)
      modifies registry
      ensures Snapshot() == Issue(old(Snapshot()), token, now)
      ensures response == QrCode(token)
    {
      registry.CleanupExpired(now);
      registry.Store(token, now + TokenTtl);
      response := QrCode(token);
    }

    /** `mark_attendance`. */
    method MarkAttendance(body: Option<Json>, now: int, wall: DateTime) returns (response: Response)
      modifies registry, ledger
      ensures Outcome(Snapshot(), response) == Mark(old(Snapshot()), body, now, wall)
    {
      ghost var s := Snapshot();
      ghost var live := Unexpired(s.tokens, now);
      registry.CleanupExpired(now);
      var form := ReadForm(body);
      if form.Failure? {
        return InternalServerError;
      }
      var f := form.value;
      if !Complete(f) {
        return MissingFields;
      }
      var accepted := registry.Consume(f.token, now);
      assert Redeem(live, f.token, now) == Redemption(accepted, registry.tokens);
      if !accepted {
        return InvalidToken;
      }
      var duplicate := ledger.HasTodayAttendance(f.studentId, wall.date);
      if duplicate {
        return AlreadyRecorded;
      }
      ledger.SaveAttendance(f.firstName, f.lastName, f.studentId, wall, f.token);
      return Marked(f.firstName, f.lastName);
    }
  }

  /** A submission body for the scenario below. */
  function Submission(first: string, last: string, id: string, token: string): Option<Json> {
    Some(JObject(map["first_name" := JString(first), "last_name" := JString(last),
                "student_id" := JString(id), "token" := JString(token)]))
  }

  /** A field value that `strip()` leaves alone and that is not blank. */
  predicate Trimmed(x: string) {
    x != [] && !IsSpace(x[0]) && !IsSpace(x[|x| - 1])
  }

  lemma SubmissionRead(first: string, last: string, id: string, token: string)
    requires Trimmed(first) && Trimmed(last) && Trimmed(id) && Trimmed(token)
    ensures ReadForm(Submission(first, last, id, token)) == Success(Form(first, last, id, token))
  {
    var data := RequestData(Submission(first, last, id, token)).value;
    assert data["first_name"] == JString(first);
    assert data["last_name"] == JString(last);
    assert data["student_id"] == JString(id);
    assert data["token"] == JString(token);
    StripOfTrimmed(first);
    StripOfTrimmed(last);
    StripOfTrimmed(id);
    StripOfTrimmed(token);
  }

  /** Issue token `b`, redeem it for a student, then redeem a second, fresh
      token `c` for the same student on the same day: the first is a 200,
      the second a 409 that burns `c`, and the ledger holds one row. A replay
      of `b` is refused. */
  method SameDayScenario(first: string, last: string, id: string, b: string, c: string, now: int, wall: DateTime)
    requires Trimmed(first) && Trimmed(last) && Trimmed(id) && Trimmed(b) && Trimmed(c) && b != c
  {
    SubmissionRead(first, last, id, b);
    SubmissionRead(first, last, id, c);
    var body := Submission(first, last, id, b);
    var body2 := Submission(first, last, id, c);

    var server := new Server();
    var qr := server.GenerateQr(b, now);
    assert Live(server.registry.tokens, b, now + 30);
    SubmissionRecorded(server.Snapshot(), Form(first, last, id, b), now + 30, wall);
    var accepted := server.MarkAttendance(body, now + 30, wall);
    assert accepted == Marked(first, last);
    assert |server.ledger.rows| == 1;

    InvalidTokenRejected(server.Snapshot(), Form(first, last, id, b), now + 31, wall);
    var replay := server.MarkAttendance(body, now + 31, wall);
    assert replay == InvalidToken;

    var qr2 := server.GenerateQr(c, now + 40);
    assert Live(server.registry.tokens, c, now + 50);
    assert HasToday(server.ledger.rows, id, wall.date) by {
      assert server.ledger.rows[0].studentId == id && OnDay(server.ledger.rows[0], wall.date);
    }
    DuplicateBurnsToken(server.Snapshot(), Form(first, last, id, c), now + 50, wall);
    var conflict := server.MarkAttendance(body2, now + 50, wall);
    assert conflict == AlreadyRecorded;
    assert |server.ledger.rows| == 1;
    assert c !in server.registry.tokens;
  }
}
