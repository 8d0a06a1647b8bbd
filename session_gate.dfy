/**
 * The second-factor state of a login session and the handlers that move it:
 * password login leaves the second factor pending, a valid one-time code
 * sets it to totp (from any logged-in state, so a skipped session can be
 * upgraded), skipping sets it to skipped, and logging out ends the session.
 * The user info sent to the client reports the state.
 */
module SessionGate {
  import opened Catalog

  datatype SecondFactor = Pending | Totp | Skipped

  datatype User = User(id: nat, username: string)

  /** `clientUserInfo`'s object. */
  datatype UserInfo = UserInfo(id: nat, username: string, canDoTotp: bool, isTotp: bool, isSkippedTotp: bool)

  /** An HTTP status with the user info of a 200 answer, when there is one. */
  datatype Reply = Reply(status: nat, info: Option<UserInfo>)

  /**
   * `clientUserInfo`: the user's id and name; `isTotp` exactly when the
   * second factor is totp, `isSkippedTotp` exactly when it is skipped, so
   * never both.
   */
  function ClientUserInfo(u: User, sf: Option<SecondFactor>): (info: UserInfo)
    ensures info.id == u.id && info.username == u.username && info.canDoTotp
    ensures info.isTotp <==> sf == Some(Totp)
    ensures info.isSkippedTotp <==> sf == Some(Skipped)
    ensures !(info.isTotp && info.isSkippedTotp)
  {
    UserInfo(u.id, u.username, true, sf == Some(Totp), sf == Some(Skipped))
  }

  predicate IsDigit(c: char)
  {
    '0' <= c <= '9'
  }

  /**
   * The unsigned part of an `isNumeric` string: digits with at most one
   * decimal point, ending in a digit.
   */
  predicate DecimalDigits(r: string)
  {
    |r| >= 1 && IsDigit(r[|r| - 1])
    && (forall i :: 0 <= i < |r| ==> IsDigit(r[i]) || r[i] == '.')
    && (forall i, j :: 0 <= i < j < |r| && r[i] == '.' ==> r[j] != '.')
  }

  /** The validator's `isNumeric`: an optional sign followed by decimal digits. */
  predicate IsNumeric(s: string)
  {
    if |s| >= 1 && (s[0] == '+' || s[0] == '-') then DecimalDigits(s[1..]) else DecimalDigits(s)
  }

  /** The one-time code the TOTP route passes on to verification: six characters, numeric. */
  predicate WellFormedCode(code: string)
  {
    |code| == 6 && IsNumeric(code)
  }

  /** Six digits always pass the form check. */
  lemma SixDigitsWellFormed(code: string)
    requires |code| == 6 && forall i :: 0 <= i < |code| ==> IsDigit(code[i])
    ensures WellFormedCode(code)
  {
  }

  /**
   * The form check is wider than six digits: a signed or decimal string such
   * as "+1.234" passes, while a letter, a second point or a trailing point fail.
   */
  lemma CodeFormExamples()
    ensures WellFormedCode("+1.234") && WellFormedCode("-12345")
    ensures !WellFormedCode("12a456") && !WellFormedCode("1.2.34") && !WellFormedCode("12345.")
  {
    assert "+1.234"[1..] == "1.234";
    assert "-12345"[1..] == "12345";
    assert "1.2.34"[1] == '.' && "1.2.34"[3] == '.';
    assert !IsDigit("12a456"[2]);
  }

  /** The login form: a username of 1 to 255 characters and a non-empty password. */
  predicate WellFormedCredentials(username: string, password: string)
  {
    1 <= |username| <= 255 && |password| >= 1
  }

  /** `req.user` and `req.session.secondFactor` of one session. */
  class Session {
    var user: Option<User>
    var secondFactor: Option<SecondFactor>

    /** A fresh, anonymous session. */
    constructor ()
      ensures user == None && secondFactor == None
    {
      user, secondFactor := None, None;
    }

    /**
     * `POST /api/sessions`: a malformed form is 400 and unknown credentials
     * 401, both leaving the session as it was; a successful login makes the
     * user current with the second factor pending, and answers with
     * `isTotp` false.  `authenticated` is what the password check found.
     */
    method Login(username: string, password: string, authenticated: Option<User>) returns (reply: Reply)
      modifies this
      ensures !WellFormedCredentials(username, password) ==>
                reply == Reply(400, None) && user == old(user) && secondFactor == old(secondFactor)
      ensures WellFormedCredentials(username, password) && authenticated.None? ==>
                reply == Reply(401, None) && user == old(user) && secondFactor == old(secondFactor)
      ensures WellFormedCredentials(username, password) && authenticated.Some? ==>
                user == authenticated && secondFactor == Some(Pending)
                && reply == Reply(200, Some(ClientUserInfo(authenticated.value, Some(Pending))))
                && !reply.info.value.isTotp && !reply.info.value.isSkippedTotp
    {
      if !WellFormedCredentials(username, password) {
        return Reply(400, None);
      }
      if authenticated.None? {
        return Reply(401, None);
      }
      user := authenticated;
      secondFactor := Some(Pending);
      var info := ClientUserInfo(authenticated.value, secondFactor);
      reply := Reply(200, Some(info.(canDoTotp := true, isTotp := false)));
    }

    /**
     * `POST /api/login-totp`: 401 without a login; 400 for a malformed code
     * or a user without a TOTP secret; 401 for a code that does not verify;
     * otherwise the second factor becomes totp, whatever it was.  Only
     * success changes the session.  `hasSecret` and `verified` are what the
     * secret lookup and the code check found.
     */
    method LoginTotp(code: string, hasSecret: bool, verified: bool) returns (status: nat)
      modifies this
      ensures user == old(user)
      ensures old(user).None? ==> status == 401
      ensures old(user).Some? && !WellFormedCode(code) ==> status == 400
      ensures old(user).Some? && WellFormedCode(code) && !hasSecret ==> status == 400
      ensures old(user).Some? && WellFormedCode(code) && hasSecret && !verified ==> status == 401
      ensures status == 200 <==> old(user).Some? && WellFormedCode(code) && hasSecret && verified
      ensures status == 200 ==> secondFactor == Some(Totp)
      ensures status != 200 ==> secondFactor == old(secondFactor)
    {
      if user.None? {
        return 401;
      }
      if !WellFormedCode(code) {
        return 400;
      }
      if !hasSecret {
        return 400;
      }
      if !verified {
        return 401;
      }
      secondFactor := Some(Totp);
      status := 200;
    }

    /** `POST /api/skip-totp`: 401 without a login, otherwise the second factor becomes skipped. */
    method SkipTotp() returns (status: nat)
      modifies this
      ensures user == old(user)
      ensures old(user).None? ==> status == 401 && secondFactor == old(secondFactor)
      ensures old(user).Some? ==> status == 200 && secondFactor == Some(Skipped)
    {
      if user.None? {
        return 401;
      }
      secondFactor := Some(Skipped);
      status := 200;
    }

    /** `GET /api/sessions/current`: the user info of a logged-in session, otherwise 401. */
    method Current() returns (reply: Reply)
      ensures user.None? ==> reply == Reply(401, None)
      ensures user.Some? ==> reply == Reply(200, Some(ClientUserInfo(user.value, secondFactor)))
    {
      if user.None? {
        return Reply(401, None);
      }
      reply := Reply(200, Some(ClientUserInfo(user.value, secondFactor)));
    }

    /** `DELETE /api/sessions/current`: the session is destroyed, 204. */
    method Logout() returns (status: nat)
      modifies this
      ensures user == None && secondFactor == None && status == 204
    {
      user, secondFactor := None, None;
      status := 204;
    }

    /** The gate of `DELETE /api/orders/:id`: only a session whose second factor is totp may cancel. */
    predicate MayCancel()
      reads this
    {
      user.Some? && secondFactor == Some(Totp)
    }
  }

  /**
   * The reported flags agree with the gate: a logged-in session may cancel
   * exactly when its user info reports `isTotp`, and a session reported as
   * skipped may not.
   */
  lemma GateMatchesReportedInfo(s: Session)
    ensures s.MayCancel() <==> s.user.Some? && ClientUserInfo(s.user.value, s.secondFactor).isTotp
    ensures s.user.Some? && ClientUserInfo(s.user.value, s.secondFactor).isSkippedTotp ==> !s.MayCancel()
  {
  }

  /**
   * A skipped session is upgraded by a valid code: after skipping and then
   * verifying, the session may cancel orders, and the client is told `isTotp`
   * and not `isSkippedTotp`.
   */
  method SkipThenUpgrade(s: Session, code: string)
    requires s.user.Some? && WellFormedCode(code)
    modifies s
    ensures s.MayCancel()
    ensures var info := ClientUserInfo(s.user.value, s.secondFactor); info.isTotp && !info.isSkippedTotp
  {
    var skipped := s.SkipTotp();
    assert !s.MayCancel();
    var upgraded := s.LoginTotp(code, true, true);
  }
}
