/** The one-time-password document (server/src/models/OTP.ts): email and phone setters, the
    `type` enumeration, the ten-minute default expiry and the pre-save check that an email
    or a phone is present. */
module OtpModel {
  import opened Common
  import Text

  datatype Channel = EmailChannel | PhoneChannel

  function ChannelName(c: Channel): string {
    match c
    case EmailChannel => "email"
    case PhoneChannel => "phone"
  }

  datatype Otp = Otp(
    email: Option<string>,
    phone: Option<string>,
    code: string,
    channel: Channel,
    verified: bool,
    expiresAt: Time)

  /** Ten minutes, in milliseconds. */
  const LifetimeMs: int := 10 * 60 * 1000

  /** The `lowercase: true, trim: true` setters on `email` (also applied to query values). */
  function NormaliseEmail(e: string): (r: string)
    ensures |r| <= |e|
    ensures forall i :: 0 <= i < |r| ==> !('A' <= r[i] <= 'Z')
  {
    Text.ToLower(Text.Trim(e))
  }

  /** The `trim: true` setter on `phone`. */
  function NormalisePhone(p: string): string {
    Text.Trim(p)
  }

  function NormaliseOpt(o: Option<string>, f: string -> string): (r: Option<string>)
    ensures r.Some? <==> o.Some?
    ensures r.Some? ==> r.value == f(o.value)
  {
    match o
    case None => None
    case Some(v) => Some(f(v))
  }

  datatype Result = Created(otp: Otp) | Failed(error: string)

  /** The schema validators on `otp` and `type`, in schema order. */
  function FieldErrors(code: string, kind: Option<string>): (r: seq<(string, string)>)
    ensures r == [] <==> code != "" && kind.Some? && kind.value in {"email", "phone"}
  {
    (if code == "" then [("otp", "Path `otp` is required.")] else [])
    + (if kind.None? || kind.value == "" then [("type", "Path `type` is required.")]
       else if kind.value !in {"email", "phone"}
       then [("type", "`" + kind.value + "` is not a valid enum value for path `type`.")]
       else [])
  }

  /** `OTP.create`: the setters normalise email and phone, `verified` starts false and the
      record expires `LifetimeMs` after creation; the schema validators run first, then
      the pre-save hook, which refuses a record with neither an email nor a phone. */
  function Create(email: Option<string>, phone: Option<string>, code: string,
                  kind: Option<string>, now: Time): (r: Result)
    ensures r.Created? <==>
              && FieldErrors(code, kind) == []
              && (Truthy(NormaliseOpt(email, NormaliseEmail)) || Truthy(NormaliseOpt(phone, NormalisePhone)))
    ensures FieldErrors(code, kind) != [] ==> r == Failed(ValidationFailed("OTP", FieldErrors(code, kind)))
    ensures r.Created? ==>
              && !r.otp.verified && r.otp.expiresAt == now + LifetimeMs && r.otp.code == code
              && r.otp.email == NormaliseOpt(email, NormaliseEmail)
              && r.otp.phone == NormaliseOpt(phone, NormalisePhone)
              && ChannelName(r.otp.channel) == kind.value
  {
    var errs := FieldErrors(code, kind);
    var e := NormaliseOpt(email, NormaliseEmail);
    var p := NormaliseOpt(phone, NormalisePhone);
    if errs != [] then Failed(ValidationFailed("OTP", errs))
    else if !Truthy(e) && !Truthy(p) then Failed("Either email or phone must be provided")
    else Created(Otp(e, p, code, if kind.value == "email" then EmailChannel else PhoneChannel,
                     false, now + LifetimeMs))
  }

  /** A record is live while unexpired: `expiresAt > now`. */
  predicate Live(o: Otp, now: Time) {
    o.expiresAt > now
  }

  /** A freshly created record is live for exactly `LifetimeMs` milliseconds. */
  lemma FreshOtpLiveForTenMinutes(email: Option<string>, phone: Option<string>, code: string,
                                  kind: Option<string>, now: Time, later: Time)
    requires Create(email, phone, code, kind, now).Created?
    ensures Live(Create(email, phone, code, kind, now).otp, later) <==> later < now + 600000
  {
  }
}
