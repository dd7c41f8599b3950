/** The one-time-password handlers (server/src/controllers/otp.controller.ts) as transitions
    of the OTP collection. The six-digit code, the clock and the delivery by e-mail or SMS
    are outside the model: the code and the time are parameters and delivery always
    succeeds. Query values pass through the same setters as stored values, and an absent
    value is taken to match exactly the documents whose field is absent, an assumption
    about how mongoose sends `undefined`. */
module OtpController {
  import opened Common
  import OtpModel
  import UserModel
  import Db

  type Otp = OtpModel.Otp

  datatype Request = Request(email: Option<string>, phone: Option<string>, kind: Option<string>)

  /** The key filter `type === 'email' ? { email } : { phone }` on the OTP collection. */
  predicate OtpKeyMatch(o: Otp, req: Request) {
    if req.kind == Some("email") then o.email == OtpModel.NormaliseOpt(req.email, OtpModel.NormaliseEmail)
    else o.phone == OtpModel.NormaliseOpt(req.phone, OtpModel.NormalisePhone)
  }

  /** The same key filter on the user collection. */
  predicate UserKeyMatch(u: UserModel.User, req: Request) {
    if req.kind == Some("email") then OtpModel.NormaliseOpt(req.email, OtpModel.NormaliseEmail) == Some(u.email)
    else u.phone == OtpModel.NormaliseOpt(req.phone, OtpModel.NormalisePhone)
  }

  function ExistingUser(users: seq<UserModel.User>, req: Request): (r: Option<nat>)
    ensures r.Some? ==> r.value < |users| && UserKeyMatch(users[r.value], req)
    ensures r.None? <==> forall j :: 0 <= j < |users| ==> !UserKeyMatch(users[j], req)
  {
    FindFirst(users, (u: UserModel.User) => UserKeyMatch(u, req))
  }

  /** `OTP.deleteMany` with the key filter: every record for the key goes, the others stay
      in order. */
  function DropKey(otps: seq<Otp>, req: Request): (r: seq<Otp>)
    ensures forall i :: 0 <= i < |r| ==> !OtpKeyMatch(r[i], req) && r[i] in otps
    ensures forall i :: 0 <= i < |otps| && !OtpKeyMatch(otps[i], req) ==> otps[i] in r
  {
    Filter(otps, (o: Otp) => !OtpKeyMatch(o, req))
  }

  /** The record the handlers create for the key: only the field the type names is passed. */
  function NewRecord(req: Request, code: string, now: Time): OtpModel.Result {
    OtpModel.Create(if req.kind == Some("email") then req.email else None,
                    if req.kind == Some("phone") then req.phone else None,
                    code, req.kind, now)
  }

  /** The delete-then-create step `sendOTP` and `resendOTP` share. The deletion has already
      happened when creation fails, so a failed creation still loses the old records. */
  function Replace(db: Db.Store, req: Request, code: string, now: Time, sentWord: string): (r: (Db.Store, Response<string>))
    ensures r.0.users == db.users && r.0.chats == db.chats && r.0.messages == db.messages
    ensures r.1.Ok? <==> NewRecord(req, code, now).Created?
    ensures r.1.Err? ==> r == (db.(otps := DropKey(db.otps, req)), Err(500, NewRecord(req, code, now).error))
    ensures r.1.Ok? ==> r == (db.(otps := DropKey(db.otps, req) + [NewRecord(req, code, now).otp]),
                              Ok(200, "OTP " + sentWord + " to your " + req.kind.value))
  {
    var kept := DropKey(db.otps, req);
    match NewRecord(req, code, now)
    case Failed(e) => (db.(otps := kept), Err(500, e))
    case Created(o) => (db.(otps := kept + [o]), Ok(200, "OTP " + sentWord + " to your " + req.kind.value))
  }

  /** A created record matches the key it was created for. */
  lemma NewRecordHasKey(req: Request, code: string, now: Time)
    requires NewRecord(req, code, now).Created?
    ensures OtpKeyMatch(NewRecord(req, code, now).otp, req)
  {
  }

  /** After a successful replacement the key has exactly one record, the new one. */
  lemma {:induction false} ReplaceLeavesOneRecord(db: Db.Store, req: Request, code: string, now: Time, w: string)
    requires Replace(db, req, code, now, w).1.Ok?
    ensures Filter(Replace(db, req, code, now, w).0.otps, (o: Otp) => OtpKeyMatch(o, req))
            == [NewRecord(req, code, now).otp]
  {
    var kept := DropKey(db.otps, req);
    var o := NewRecord(req, code, now).otp;
    NewRecordHasKey(req, code, now);
    FilterNoneMatch(kept, req);
    FilterAppendOne(kept, o, req);
  }

  lemma {:induction false} FilterNoneMatch(s: seq<Otp>, req: Request)
    requires forall i :: 0 <= i < |s| ==> !OtpKeyMatch(s[i], req)
    ensures Filter(s, (o: Otp) => OtpKeyMatch(o, req)) == []
  {
    if |s| > 0 {
      FilterNoneMatch(s[1..], req);
    }
  }

  lemma {:induction false} FilterAppendOne(s: seq<Otp>, o: Otp, req: Request)
    requires Filter(s, (x: Otp) => OtpKeyMatch(x, req)) == []
    requires OtpKeyMatch(o, req)
    ensures Filter(s + [o], (x: Otp) => OtpKeyMatch(x, req)) == [o]
  {
    if |s| == 0 {
      assert s + [o] == [o];
    } else {
      assert (s + [o])[1..] == s[1..] + [o];
      assert !OtpKeyMatch(s[0], req);
      FilterAppendOne(s[1..], o, req);
    }
  }

  /** `POST /api/auth/send-otp`. */
  function SendOtp(db: Db.Store, req: Request, code: string, now: Time): (r: (Db.Store, Response<string>))
    ensures req.kind == Some("email") && !Truthy(req.email) ==> r == (db, Err(400, "Email is required"))
    ensures req.kind == Some("phone") && !Truthy(req.phone) ==> r == (db, Err(400, "Phone number is required"))
    ensures var u := ExistingUser(db.users, req);
            u.Some? && req.kind == Some("email") && Truthy(req.email) && db.users[u.value].emailVerified ==>
              r == (db, Err(400, "This email is already registered and verified"))
    ensures var u := ExistingUser(db.users, req);
            u.Some? && req.kind == Some("phone") && Truthy(req.phone) && db.users[u.value].phoneVerified ==>
              r == (db, Err(400, "This phone number is already registered and verified"))
    ensures r.1.Ok? ==> r == Replace(db, req, code, now, "sent")
    ensures var u := ExistingUser(db.users, req);
            && !(req.kind == Some("email") && !Truthy(req.email))
            && !(req.kind == Some("phone") && !Truthy(req.phone))
            && !(u.Some? && req.kind == Some("email") && db.users[u.value].emailVerified)
            && !(u.Some? && req.kind == Some("phone") && db.users[u.value].phoneVerified)
            ==> r == Replace(db, req, code, now, "sent")
    ensures r.1.Ok? ==> req.kind.Some? && req.kind.value in {"email", "phone"}
    ensures r.0.users == db.users && r.0.chats == db.chats && r.0.messages == db.messages
  {
    if req.kind == Some("email") && !Truthy(req.email) then (db, Err(400, "Email is required"))
    else if req.kind == Some("phone") && !Truthy(req.phone) then (db, Err(400, "Phone number is required"))
    else
      var u := ExistingUser(db.users, req);
      if u.Some? && req.kind == Some("email") && db.users[u.value].emailVerified then
        (db, Err(400, "This email is already registered and verified"))
      else if u.Some? && req.kind == Some("phone") && db.users[u.value].phoneVerified then
        (db, Err(400, "This phone number is already registered and verified"))
      else Replace(db, req, code, now, "sent")
  }

  /** `POST /api/auth/resend-otp`: the same replacement with no checks before it. */
  function ResendOtp(db: Db.Store, req: Request, code: string, now: Time): (r: (Db.Store, Response<string>))
    ensures r == Replace(db, req, code, now, "resent")
    ensures r.1.Ok? ==> Filter(r.0.otps, (o: Otp) => OtpKeyMatch(o, req)) == [NewRecord(req, code, now).otp]
  {
    var r := Replace(db, req, code, now, "resent");
    if r.1.Ok? then ReplaceLeavesOneRecord(db, req, code, now, "resent"); r else r
  }

  /** A resend for the e-mail channel without an e-mail matches every record that has no
      e-mail (the phone records), deletes them all, and then fails to create its own. */
  lemma ResendWithoutEmailWipesPhoneRecords(db: Db.Store, code: string, now: Time)
    requires code != ""
    ensures var r := ResendOtp(db, Request(None, None, Some("email")), code, now);
            && r.1 == Err(500, "Either email or phone must be provided")
            && forall i :: 0 <= i < |r.0.otps| ==> r.0.otps[i].email.Some?
  {
  }

  /** A record `verifyOTP` accepts: the key, the code and the type match, and the record is
      neither verified nor expired. */
  predicate Candidate(o: Otp, email: Option<string>, phone: Option<string>, code: string, kind: Option<string>, now: Time) {
    && (if kind == Some("email") then o.email == OtpModel.NormaliseOpt(email, OtpModel.NormaliseEmail)
        else o.phone == OtpModel.NormaliseOpt(phone, OtpModel.NormalisePhone))
    && o.code == code
    && kind == Some(OtpModel.ChannelName(o.channel))
    && !o.verified
    && OtpModel.Live(o, now)
  }

  function CandidateIndex(otps: seq<Otp>, email: Option<string>, phone: Option<string>, code: string,
                          kind: Option<string>, now: Time): (r: Option<nat>)
    ensures r.Some? ==> r.value < |otps| && Candidate(otps[r.value], email, phone, code, kind, now)
    ensures r.None? <==> forall j :: 0 <= j < |otps| ==> !Candidate(otps[j], email, phone, code, kind, now)
  {
    FindFirst(otps, (o: Otp) => Candidate(o, email, phone, code, kind, now))
  }

  /** `POST /api/auth/verify-otp`: a missing code is refused before any lookup; otherwise the
      first matching live unverified record becomes verified. */
  function VerifyOtp(db: Db.Store, email: Option<string>, phone: Option<string>, code: Option<string>,
                     kind: Option<string>, now: Time): (r: (Db.Store, Response<()>))
    ensures !Truthy(code) ==> r == (db, Err(400, "OTP is required"))
    ensures Truthy(code) ==>
              (r.1.Ok? <==> exists j :: 0 <= j < |db.otps| && Candidate(db.otps[j], email, phone, code.value, kind, now))
    ensures r.1.Err? ==> r.0 == db
    ensures r.1.Ok? ==>
              var i := CandidateIndex(db.otps, email, phone, code.value, kind, now).value;
              r.0 == db.(otps := db.otps[i := db.otps[i].(verified := true)])
    ensures Truthy(code) && r.1.Err? ==> r.1 == Err(400, "Invalid or expired OTP")
  {
    if !Truthy(code) then (db, Err(400, "OTP is required"))
    else match CandidateIndex(db.otps, email, phone, code.value, kind, now)
      case None => (db, Err(400, "Invalid or expired OTP"))
      case Some(i) => (db.(otps := db.otps[i := db.otps[i].(verified := true)]), Ok(200, ()))
  }

  /** A verified record cannot be verified again: a second identical request succeeds only
      when some other record was also a candidate. */
  lemma VerifyConsumesRecord(db: Db.Store, email: Option<string>, phone: Option<string>, code: Option<string>,
                             kind: Option<string>, now: Time, later: Time)
    requires VerifyOtp(db, email, phone, code, kind, now).1.Ok?
    requires later >= now
    ensures var i := CandidateIndex(db.otps, email, phone, code.value, kind, now).value;
            VerifyOtp(VerifyOtp(db, email, phone, code, kind, now).0, email, phone, code, kind, later).1.Ok? ==>
              exists j :: 0 <= j < |db.otps| && j != i && Candidate(db.otps[j], email, phone, code.value, kind, later)
  {
    var i := CandidateIndex(db.otps, email, phone, code.value, kind, now).value;
    var db1 := VerifyOtp(db, email, phone, code, kind, now).0;
    if VerifyOtp(db1, email, phone, code, kind, later).1.Ok? {
      var j := CandidateIndex(db1.otps, email, phone, code.value, kind, later).value;
      assert db1.otps[i].verified;
      assert j != i;
      assert db1.otps[j] == db.otps[j];
    }
  }
}
