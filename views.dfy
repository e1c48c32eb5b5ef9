/** The verification views: the university-email check, the modal that sets the email, the
    modal that checks a submitted one-time password, and the two buttons that send a code and
    open that modal. The OTP cache is the one of `OtpCache`; the email service is an input. */
module Views {
  import opened Wrappers
  import opened Strings
  import opened OtpCache

  /** `re.fullmatch(rf"\d+@{re.escape(suffix)}", s)`, with `\d` read as the ASCII digits. */
  predicate EmailMatches(s: string, suffix: string)
  {
    var tail := "@" + suffix;
    && |s| > |tail|
    && s[|s| - |tail|..] == tail
    && AllDigits(s[..|s| - |tail|])
  }

  /** The email check accepts exactly one or more digits, an `@`, and the suffix itself. */
  lemma {:induction false} EmailMatchesIff(s: string, suffix: string)
    ensures EmailMatches(s, suffix) <==>
      exists d :: |d| >= 1 && AllDigits(d) && s == d + "@" + suffix
  {
    var tail := "@" + suffix;
    if EmailMatches(s, suffix) {
      var d := s[..|s| - |tail|];
      assert s == d + tail;
      assert d + "@" + suffix == d + tail;
    }
    if exists d :: |d| >= 1 && AllDigits(d) && s == d + "@" + suffix {
      var d :| |d| >= 1 && AllDigits(d) && s == d + "@" + suffix;
      assert s == d + tail;
      assert s[..|s| - |tail|] == d;
      assert s[|s| - |tail|..] == tail;
    }
  }

  /** A row of the `verification` collection: a verified user and the email they used. */
  datatype Verified = Verified(id: nat, email: Option<string>)

  /** Whether `find({"email": email})` finds a row. */
  predicate EmailUsed(rows: seq<Verified>, email: string)
  {
    exists i :: 0 <= i < |rows| && rows[i].email == Some(email)
  }

  /** The `verification` collection. */
  class VerificationStore {
    var rows: seq<Verified>

    constructor ()
      ensures rows == []
    {
      rows := [];
    }

    /** `find({"email": email})`, reduced to whether anything was found. */
    method FindEmail(email: string) returns (found: bool)
      ensures found <==> EmailUsed(rows, email)
    {
      found := false;
      var i := 0;
      while i < |rows|
        invariant 0 <= i <= |rows|
        invariant found <==> exists j :: 0 <= j < i && rows[j].email == Some(email)
      {
        if rows[i].email == Some(email) {
          found := true;
        }
        i := i + 1;
      }
    }

    /** `insert(row)`. */
    method Insert(row: Verified)
      modifies this
      ensures rows == old(rows) + [row]
    {
      rows := rows + [row];
    }
  }

  /** What `VerifyModal.on_submit` reports. */
  datatype OtpOutcome = WrongLength | Expired | Mismatch | Accepted

  /** The ladder of `VerifyModal.on_submit`, given the value submitted and what `get_otp`
      answers: the length is checked first, then whether a live code exists, then the match. */
  function CheckOtp(value: string, live: Option<Entry>): (r: OtpOutcome)
    ensures r == WrongLength <==> |value| != OtpLength
    ensures r == Expired <==> |value| == OtpLength && live.None?
    ensures r == Mismatch <==> |value| == OtpLength && live.Some? && live.value.code != value
    ensures r == Accepted <==> |value| == OtpLength && live.Some? && live.value.code == value
  {
    if |value| != OtpLength then WrongLength
    else if live.None? then Expired
    else if live.value.code != value then Mismatch
    else Accepted
  }

  /** A submission is accepted only for the code the cache holds for that user, and only
      while it is live. */
  lemma AcceptedMeansIssued(c: Cache, user: nat, now: int, value: string)
    requires CheckOtp(value, Lookup(c, user, now).result) == Accepted
    ensures user in c && c[user].code == value && now < c[user].expires
  {
  }

  /** Within five minutes of a code being issued to a user without one, exactly that code is
      accepted; afterwards nothing is. */
  lemma {:induction false} AcceptedExactlyIssuedCode(c: Cache, user: nat, now: int, t: int, draw: string, value: string)
    requires IsCode(draw) && user !in c && now <= t
    ensures var s := Generate(c, user, now, draw);
      && (t < now + Lifetime ==> (CheckOtp(value, Lookup(s.cache, user, t).result) == Accepted <==> value == draw))
      && (t >= now + Lifetime ==> CheckOtp(value, Lookup(s.cache, user, t).result) != Accepted)
  {
    GetAfterGenerate(c, user, now, t, draw);
  }

  /** When `get_otp` has just answered nothing, `generate_otp` always issues a new code, so
      reading its `code` never fails. */
  lemma GenerateAfterEmptyLookup(c: Cache, user: nat, now: int, draw: string)
    requires IsCode(draw) && Lookup(c, user, now).result.None?
    ensures Generate(Lookup(c, user, now).cache, user, now, draw).result == Some(Entry(draw, now + Lifetime))
  {
  }

  /** What `SetEmailModal.on_submit` reports. */
  datatype EmailOutcome = InvalidEmail | AlreadyUsed | EmailSet

  /** What `send_register_code` reports, with the text of the email it asked to be sent. */
  datatype SendOutcome = NeedEmail | AlreadySent(expires: int) | Sent(mail: string) | ServiceDown(mail: string)

  /** What the Verify button does. */
  datatype RegisterOutcome = EmailMissing | OpenOtpModal

  /** Python truthiness of `view.email`: set and non-empty. */
  predicate Truthy(email: Option<string>)
  {
    email.Some? && email.value != ""
  }

  /** The text of the email carrying a code; the email service itself is outside the model. */
  function MailBody(code: string): (body: string)
    ensures |body| >= |code| && body[|body| - |code|..] == code
  {
    "Hello,\n\nYour one time password is: " + code
  }

  /** `VerifyView`: the email the user has set so far and whether the view was stopped, over
      the cog's OTP cache and the `verification` collection. */
  class VerifyView {
    const cog: Verification
    const db: VerificationStore
    var email: Option<string>
    var stopped: bool

    constructor (cog: Verification, db: VerificationStore)
      ensures this.cog == cog && this.db == db
      ensures email == None && !stopped
    {
      this.cog := cog;
      this.db := db;
      email := None;
      stopped := false;
    }

    /** `SetEmailModal.on_submit` with the submitted `value`: a value that fails the email
        check, or that some verified row already uses, leaves `email` as it was. */
    method SubmitEmail(value: string, suffix: string) returns (r: EmailOutcome)
      modifies this`email
      ensures r == InvalidEmail <==> !EmailMatches(value, suffix)
      ensures r == AlreadyUsed <==> EmailMatches(value, suffix) && EmailUsed(db.rows, value)
      ensures email == if r == EmailSet then Some(value) else old(email)
    {
      if !EmailMatches(value, suffix) {
        return InvalidEmail;
      }
      var found := db.FindEmail(value);
      if found {
        return AlreadyUsed;
      }
      email := Some(value);
      r := EmailSet;
    }

    /** `VerifyModal.on_submit` for `user` submitting `value` at time `now`. A value of the
        wrong length is refused without consulting the cache; only an accepted code inserts
        `{_id: user, email}` and stops the view. */
    method SubmitOtp(user: nat, value: string, now: int) returns (r: OtpOutcome)
      modifies cog, db, this`stopped
      ensures |value| != OtpLength ==> r == WrongLength && cog.otps == old(cog.otps)
      ensures |value| == OtpLength ==>
        var s := Lookup(old(cog.otps), user, now);
        cog.otps == s.cache && r == CheckOtp(value, s.result)
      ensures db.rows == if r == Accepted then old(db.rows) + [Verified(user, email)] else old(db.rows)
      ensures stopped == (old(stopped) || r == Accepted)
    {
      if |value| != 9 {
        return WrongLength;
      }
      var otp := cog.GetOtp(user, now);
      if otp.None? {
        return Expired;
      }
      if otp.value.code != value {
        return Mismatch;
      }
      db.Insert(Verified(user, email));
      stopped := true;
      r := Accepted;
    }

    /** The Send OTP button for `user` at time `now`: refused without an email; a live code
        is reported and nothing is generated or sent; otherwise exactly one code is generated
        from `draw` and mailed, `delivered` standing for the email service's answer. */
    method SendRegisterCode(user: nat, now: int, draw: string, delivered: bool) returns (r: SendOutcome)
      requires IsCode(draw)
      modifies cog
      ensures !Truthy(email) ==> r == NeedEmail && cog.otps == old(cog.otps)
      ensures Truthy(email) ==>
        var s := Lookup(old(cog.otps), user, now);
        if s.result.Some? then
          r == AlreadySent(s.result.value.expires) && cog.otps == s.cache
        else
          && cog.otps == s.cache[user := Entry(draw, now + Lifetime)]
          && r == (if delivered then Sent(MailBody(draw)) else ServiceDown(MailBody(draw)))
    {
      if !Truthy(email) {
        return NeedEmail;
      }
      var otp := cog.GetOtp(user, now);
      if otp.Some? {
        return AlreadySent(otp.value.expires);
      }
      GenerateAfterEmptyLookup(old(cog.otps), user, now, draw);
      var issued := cog.GenerateOtp(user, now, draw);
      var body := MailBody(issued.value.code);
      if delivered {
        r := Sent(body);
      } else {
        r := ServiceDown(body);
      }
    }

    /** The Verify button: the OTP modal opens only once an email is set. */
    method Register() returns (r: RegisterOutcome)
      ensures r == OpenOtpModal <==> Truthy(email)
    {
      if !Truthy(email) {
        return EmailMissing;
      }
      r := OpenOtpModal;
    }
  }
}
