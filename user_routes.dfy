/** The account routes of `routes/api/user.js` that change user records:
    `POST /forgot-password` (issue a reset token, mail it, and take it back when
    the mail fails), `PATCH /reset-password/:token` (redeem the token and set the
    new password) and `PATCH /update-me` (the filtered update data). The users
    collection is a sequence of records in natural order; `findOne` returns the
    first record that matches. */
module UserRoutes {
  import opened Runtime
  import opened UserModel
  import UserListQuery

  // ---------------------------------------------------------------------------
  // Lookups

  /** `User.findOne({ email })` once the filter value has been cast: the position
      of the first record with this email. */
  function IndexOfEmail(records: seq<UserRecord>, email: string): (r: Option<nat>)
    ensures r.Some? ==> r.value < |records| && records[r.value].email == email
    ensures r.Some? ==> forall j :: 0 <= j < r.value ==> records[j].email != email
    ensures r.None? ==> forall j :: 0 <= j < |records| ==> records[j].email != email
  {
    if records == [] then None
    else if records[0].email == email then Some(0)
    else
      var rest := IndexOfEmail(records[1..], email);
      if rest.None? then None else Some(rest.value + 1)
  }

  /** `User.findOne({ passwordResetToken: digest, passwordResetTokenExpires: { $gt: now } })`. */
  function IndexHoldingToken(records: seq<UserRecord>, digest: string, now: int): (r: Option<nat>)
    ensures r.Some? ==> r.value < |records| && HoldsResetToken(records[r.value], digest, now)
    ensures r.Some? ==> forall j :: 0 <= j < r.value ==> !HoldsResetToken(records[j], digest, now)
    ensures r.None? ==> forall j :: 0 <= j < |records| ==> !HoldsResetToken(records[j], digest, now)
  {
    if records == [] then None
    else if HoldsResetToken(records[0], digest, now) then Some(0)
    else
      var rest := IndexHoldingToken(records[1..], digest, now);
      if rest.None? then None else Some(rest.value + 1)
  }

  // ---------------------------------------------------------------------------
  // Specifications of the routes

  const MissingEmail := Rejected(400, "Invalid user credentials")
  const TokenRejected := Rejected(400, "Token invalid or has expires")
  const UpdateMeRejected := Rejected(400, "You cannot update password or role or confirm password from this route")

  function UnknownEmail(email: string): RouteError {
    Rejected(400, "No user with the provided email " + email)
  }

  /** The record with its reset token taken back. */
  function WithoutResetToken(rec: UserRecord): UserRecord {
    rec.(passwordResetToken := None, passwordResetTokenExpires := None)
  }

  /** The position of the account a forgot-password request with body email
      `email` is about: the email is given, non-empty, and, lower-cased by the
      schema's `lowercase` setter as the query is cast, it is the stored email of
      that record. */
  predicate Requester(records: seq<UserRecord>, email: Option<string>, j: nat) {
    email.Some? && email.value != "" && IndexOfEmail(records, LowerCase(email.value)) == Some(j)
  }

  /** `POST /forgot-password` with body email `email` (None when it is missing),
      the token `plain` made from the random bytes, and whether sending the mail
      throws: the response (the mailed token on success) and the new records.
      The request succeeds exactly when the address belongs to a user and the mail
      goes out; a refused request changes nothing. */
  function ForgotPasswordFor(records: seq<UserRecord>, email: Option<string>, plain: string,
                             sha256: string -> string, now: int, mailFails: bool)
    : (out: (Result<string, RouteError>, seq<UserRecord>))
    ensures |out.1| == |records|
    ensures out.0.Ok? <==> email.Some? && email.value != "" && IndexOfEmail(records, LowerCase(email.value)).Some? && !mailFails
    ensures out.0.Ok? ==> out.0.value == plain
    ensures out.0.Err? && out.0 != Err(Failed(500)) ==> out.1 == records
  {
    if email.None? || email.value == "" then (Err(MissingEmail), records)
    else
      var i := IndexOfEmail(records, LowerCase(email.value));
      if i.None? then (Err(UnknownEmail(email.value)), records)
      else
        var issued := IssueResetToken(records[i.value], sha256(plain), now);
        if mailFails then (Err(Failed(500)), records[i.value := WithoutResetToken(issued)])
        else (Ok(plain), records[i.value := issued])
  }

  /** The document the reset route saves: the submitted password and confirmation
      assigned, the token fields cleared. */
  function ResetDocument(rec: UserRecord, password: Option<string>, confirmPassword: Option<string>): Document {
    Document(WithoutResetToken(rec.(password := password, confirmPassword := confirmPassword)),
             false, password != rec.password)
  }

  /** `PATCH /reset-password/:token` with the body's `password` and
      `confirmPassword`: the response (the saved record on success) and the new
      records. The token is refused exactly when no user holds its digest
      unexpired; a refused or failed reset writes nothing, and a successful one
      replaces only the holder's record by one without a reset token. */
  function ResetPasswordFor(records: seq<UserRecord>, token: string, password: Option<string>,
                            confirmPassword: Option<string>, sha256: string -> string,
                            hash: string -> string, now: int)
    : (out: (Result<UserRecord, RouteError>, seq<UserRecord>))
    ensures out.0 == Err(TokenRejected) <==> IndexHoldingToken(records, sha256(token), now).None?
    ensures out.0.Err? ==> out.1 == records
    ensures out.0.Ok? ==>
              && out.0.value.passwordResetToken.None? && out.0.value.passwordResetTokenExpires.None?
              && out.1 == records[IndexHoldingToken(records, sha256(token), now).value := out.0.value]
  {
    var i := IndexHoldingToken(records, sha256(token), now);
    if i.None? then (Err(TokenRejected), records)
    else
      var saved := SaveStep(ResetDocument(records[i.value], password, confirmPassword), hash, now);
      if saved.None? then (Err(Failed(400)), records)
      else (Ok(saved.value.rec), records[i.value := saved.value.rec])
  }

  /** The fields `PATCH /update-me` may never write. */
  const UpdateMeExcluded: seq<string> :=
    ["password", "confirmPassword", "role", "passwordChangedAt", "passwordResetToken", "passwordResetTokenExpires"]

  /** The update data of `PATCH /update-me` for a JSON body: refused exactly when
      a password, a confirmation or a role is given with a truthy value;
      otherwise it holds none of the excluded fields, marks the account active and
      copies every other field. */
  function UpdateMeDataFor(body: map<string, JsonValue>): (r: Result<map<string, JsonValue>, RouteError>)
    ensures r.Err? <==>
              BodyFieldTruthy(body, "password") || BodyFieldTruthy(body, "confirmPassword") || BodyFieldTruthy(body, "role")
    ensures r.Err? ==> r.error == UpdateMeRejected
    ensures r.Ok? ==>
              && (forall k :: k in UpdateMeExcluded ==> k !in r.value)
              && "isActiveUser" in r.value && r.value["isActiveUser"] == JBool(true)
              && (forall k :: k in body && k !in UpdateMeExcluded && k != "isActiveUser" ==> k in r.value && r.value[k] == body[k])
              && (forall k :: k in r.value ==> k == "isActiveUser" || k in body)
  {
    if BodyFieldTruthy(body, "password") || BodyFieldTruthy(body, "confirmPassword") || BodyFieldTruthy(body, "role")
    then Err(UpdateMeRejected)
    else Ok(UserListQuery.WithoutKeys(body, UpdateMeExcluded)["isActiveUser" := JBool(true)])
  }

  /** The route's steps: reject, copy the body, delete the excluded fields in turn
      and force the account active. */
  method UpdateMeData(body: map<string, JsonValue>) returns (r: Result<map<string, JsonValue>, RouteError>)
    ensures r == UpdateMeDataFor(body)
  {
    if BodyFieldTruthy(body, "password") || BodyFieldTruthy(body, "confirmPassword") || BodyFieldTruthy(body, "role") {
      return Err(UpdateMeRejected);
    }
    var data := UserListQuery.DeleteKeys(body, UpdateMeExcluded);
    data := data["isActiveUser" := JBool(true)];
    r := Ok(data);
  }

  /** The refusal and the strip look only at top-level keys: a body that sets the
      role through the `$set` update operator is accepted and handed on with the
      operator intact, and `findByIdAndUpdate` applies operators it is given. */
  lemma UpdateOperatorSetsRole()
    ensures var body := map["$set" := JObject(map["role" := JString("admin")])];
            && UpdateMeDataFor(body).Ok?
            && "$set" in UpdateMeDataFor(body).value
            && UpdateMeDataFor(body).value["$set"] == JObject(map["role" := JString("admin")])
  {
    var body := map["$set" := JObject(map["role" := JString("admin")])];
    assert "password" !in body && "confirmPassword" !in body && "role" !in body;
    assert "$set" !in UpdateMeExcluded;
  }

  // ---------------------------------------------------------------------------
  // The collection and the routes that change it

  class UserCollection {
    var records: seq<UserRecord>

    constructor (initial: seq<UserRecord>)
      ensures records == initial
    {
      records := initial;
    }

    /** `POST /forgot-password`. `entropy` stands for `crypto.randomBytes(32)`. */
    method ForgotPassword(email: Option<string>, entropy: seq<bv8>, sha256: string -> string,
                          hash: string -> string, now: int, mailFails: bool)
      returns (r: Result<string, RouteError>)
      requires |entropy| == ResetTokenBytes
      modifies this
      ensures (r, records) == ForgotPasswordFor(old(records), email, HexEncode(entropy), sha256, now, mailFails)
    {
      if email.None? || email.value == "" {
        return Err(MissingEmail);
      }
      var i := IndexOfEmail(records, LowerCase(email.value));
      if i.None? {
        return Err(UnknownEmail(email.value));
      }
      ghost var before := records;
      var user := new User.Load(records[i.value]);
      var plain := user.GeneratePasswordResetToken(entropy, sha256, now);
      ghost var issued := IssueResetToken(before[i.value], sha256(plain), now);
      assert user.State() == Document(issued, false, false);
      var saved := user.Save(hash, now);
      assert saved == Some(issued);
      records := records[i.value := saved.value];
      if mailFails {
        user.ClearResetToken();
        assert user.State() == Document(WithoutResetToken(issued), false, false);
        saved := user.Save(hash, now);
        assert saved == Some(WithoutResetToken(issued));
        records := records[i.value := saved.value];
        assert records == before[i.value := WithoutResetToken(issued)];
        return Err(Failed(500));
      }
      r := Ok(plain);
    }

    /** `PATCH /reset-password/:token`. */
    method ResetPassword(token: string, password: Option<string>, confirmPassword: Option<string>,
                         sha256: string -> string, hash: string -> string, now: int)
      returns (r: Result<UserRecord, RouteError>)
      modifies this
      ensures (r, records) == ResetPasswordFor(old(records), token, password, confirmPassword, sha256, hash, now)
    {
      var i := IndexHoldingToken(records, sha256(token), now);
      if i.None? {
        return Err(TokenRejected);
      }
      var user := new User.Load(records[i.value]);
      user.SetPassword(password);
      user.SetConfirmPassword(confirmPassword);
      user.ClearResetToken();
      assert user.State() == ResetDocument(records[i.value], password, confirmPassword);
      var saved := user.Save(hash, now);
      if saved.None? {
        return Err(Failed(400));
      }
      records := records[i.value := saved.value];
      r := Ok(saved.value);
    }
  }

  // ---------------------------------------------------------------------------
  // Properties

  /** Whatever the outcome, forgot-password changes at most the record of the user
      with that email, and only its reset-token fields. */
  lemma ForgotPasswordTouchesOnlyToken(records: seq<UserRecord>, email: Option<string>, plain: string,
                                       sha256: string -> string, now: int, mailFails: bool)
    ensures var after := ForgotPasswordFor(records, email, plain, sha256, now, mailFails).1;
            && |after| == |records|
            && (forall j :: 0 <= j < |records| ==> WithoutResetToken(after[j]) == WithoutResetToken(records[j]))
            && (forall j :: 0 <= j < |records| && !Requester(records, email, j) ==> after[j] == records[j])
  {
  }

  /** The lookup goes through the schema's `lowercase` setter, so two spellings of
      an address that differ only in letter case find the same account and
      change the collection in the same way. */
  lemma EmailLookupIgnoresCase(records: seq<UserRecord>, email1: string, email2: string, plain: string,
                               sha256: string -> string, now: int, mailFails: bool)
    requires email1 != "" && email2 != "" && LowerCase(email1) == LowerCase(email2)
    ensures ForgotPasswordFor(records, Some(email1), plain, sha256, now, mailFails).1 ==
            ForgotPasswordFor(records, Some(email2), plain, sha256, now, mailFails).1
    ensures ForgotPasswordFor(records, Some(email1), plain, sha256, now, mailFails).0.Ok? <==>
            ForgotPasswordFor(records, Some(email2), plain, sha256, now, mailFails).0.Ok?
  {
  }

  /** A user who signed up with an address is found by it whatever its letter
      case: the stored email is lower-cased on creation and the lookup lower-cases
      the address it is given. */
  lemma SignedUpEmailFound(records: seq<UserRecord>, input: UserInput, email: string, plain: string,
                           sha256: string -> string, now: int)
    requires NewRecord(input).Ok? && NewRecord(input).value in records
    requires email != "" && LowerCase(email) == LowerCase(input.email)
    ensures ForgotPasswordFor(records, Some(email), plain, sha256, now, false).0 == Ok(plain)
  {
    var k :| 0 <= k < |records| && records[k] == NewRecord(input).value;
    assert records[k].email == LowerCase(email);
  }

  /** When the mail cannot be sent, the user is left with no reset token at all,
      so the token that was generated cannot be redeemed, unless another user
      already held the same digest. */
  lemma MailFailureRevokesToken(records: seq<UserRecord>, email: string, plain: string,
                                sha256: string -> string, now: int, later: int)
    requires email != "" && IndexOfEmail(records, LowerCase(email)).Some?
    requires forall j :: 0 <= j < |records| ==> !HoldsResetToken(records[j], sha256(plain), later)
    ensures var (r, after) := ForgotPasswordFor(records, Some(email), plain, sha256, now, true);
            && r == Err(Failed(500))
            && after[IndexOfEmail(records, LowerCase(email)).value] == WithoutResetToken(records[IndexOfEmail(records, LowerCase(email)).value])
            && IndexHoldingToken(after, sha256(plain), later).None?
  {
    var after := ForgotPasswordFor(records, Some(email), plain, sha256, now, true).1;
    var i := IndexOfEmail(records, LowerCase(email)).value;
    forall j | 0 <= j < |after| ensures !HoldsResetToken(after[j], sha256(plain), later) {
      if j != i {
        assert after[j] == records[j];
      }
    }
  }

  /** The lookup finds the only record that holds the digest. */
  lemma OnlyHolderFound(records: seq<UserRecord>, i: nat, digest: string, now: int)
    requires i < |records| && HoldsResetToken(records[i], digest, now)
    requires forall j :: 0 <= j < |records| && j != i ==> !HoldsResetToken(records[j], digest, now)
    ensures IndexHoldingToken(records, digest, now) == Some(i)
  {
  }

  /** The mailed token resets the password of the user who asked for it, provided
      it is used before it expires and no other user holds the same digest. */
  lemma MailedTokenResets(records: seq<UserRecord>, email: string, entropy: seq<bv8>,
                          sha256: string -> string, hash: string -> string, now: int, later: int,
                          password: string, confirmPassword: Option<string>)
    requires email != "" && IndexOfEmail(records, LowerCase(email)).Some?
    requires forall j :: 0 <= j < |records| && j != IndexOfEmail(records, LowerCase(email)).value ==>
               !HoldsResetToken(records[j], sha256(HexEncode(entropy)), later)
    requires records[IndexOfEmail(records, LowerCase(email)).value].password != Some(password)
    requires now <= later < now + ResetTokenLifetime
    ensures var (r, after) := ForgotPasswordFor(records, Some(email), HexEncode(entropy), sha256, now, false);
            && r == Ok(HexEncode(entropy))
            && var (reset, final) := ResetPasswordFor(after, HexEncode(entropy), Some(password), confirmPassword,
                                                      sha256, hash, later);
               && reset.Ok?
               && reset.value.id == records[IndexOfEmail(records, LowerCase(email)).value].id
               && reset.value.password == Some(hash(password))
               && reset.value.passwordResetToken.None?
  {
    var plain := HexEncode(entropy);
    var digest := sha256(plain);
    var i := IndexOfEmail(records, LowerCase(email)).value;
    var issued := IssueResetToken(records[i], digest, now);
    var after := records[i := issued];
    assert ForgotPasswordFor(records, Some(email), plain, sha256, now, false) == (Ok(plain), after);
    assert HoldsResetToken(after[i], digest, later);
    forall j | 0 <= j < |after| && j != i
      ensures !HoldsResetToken(after[j], digest, later)
    {
      assert after[j] == records[j];
    }
    OnlyHolderFound(after, i, digest, later);
    ResetPasswordSuccess(after, plain, password, confirmPassword, sha256, hash, later);
  }

  /** A reset that succeeds stores the hash of the new password, drops the
      confirmation and both token fields, and, when the password changed, stamps
      the change time one second before now; no other record changes. */
  lemma ResetPasswordSuccess(records: seq<UserRecord>, token: string, password: string,
                             confirmPassword: Option<string>, sha256: string -> string,
                             hash: string -> string, now: int)
    requires IndexHoldingToken(records, sha256(token), now).Some?
    ensures var i := IndexHoldingToken(records, sha256(token), now).value;
            var (r, after) := ResetPasswordFor(records, token, Some(password), confirmPassword, sha256, hash, now);
            var old_ := records[i];
            && r.Ok? && after == records[i := r.value]
            && r.value.passwordResetToken.None? && r.value.passwordResetTokenExpires.None?
            && (Some(password) != old_.password ==>
                  r.value.password == Some(hash(password)) && r.value.confirmPassword.None?
                  && r.value.passwordChangedAt == Some(now - PasswordStampLead))
            && (Some(password) == old_.password ==>
                  r.value.password == old_.password && r.value.confirmPassword == confirmPassword
                  && r.value.passwordChangedAt == old_.passwordChangedAt)
  {
  }

  /** A request without a password fails in the hashing hook, so nothing is written
      and the token stays redeemable. */
  lemma ResetWithoutPasswordKeepsToken(records: seq<UserRecord>, token: string,
                                       confirmPassword: Option<string>, sha256: string -> string,
                                       hash: string -> string, now: int)
    requires IndexHoldingToken(records, sha256(token), now).Some?
    requires records[IndexHoldingToken(records, sha256(token), now).value].password.Some?
    ensures ResetPasswordFor(records, token, None, confirmPassword, sha256, hash, now) == (Err(Failed(400)), records)
  {
  }

  /** Once a token has been redeemed, redeeming it again is refused, provided no
      other user held the same digest. */
  lemma SecondRedemptionRejected(records: seq<UserRecord>, token: string, password: Option<string>,
                                 confirmPassword: Option<string>, sha256: string -> string,
                                 hash: string -> string, now: int, later: int,
                                 password2: Option<string>, confirmPassword2: Option<string>)
    requires IndexHoldingToken(records, sha256(token), now).Some?
    requires forall j :: 0 <= j < |records| && j != IndexHoldingToken(records, sha256(token), now).value ==>
               !HoldsResetToken(records[j], sha256(token), later)
    requires ResetPasswordFor(records, token, password, confirmPassword, sha256, hash, now).0.Ok?
    ensures var after := ResetPasswordFor(records, token, password, confirmPassword, sha256, hash, now).1;
            ResetPasswordFor(after, token, password2, confirmPassword2, sha256, hash, later).0 == Err(TokenRejected)
  {
    var i := IndexHoldingToken(records, sha256(token), now).value;
    var after := ResetPasswordFor(records, token, password, confirmPassword, sha256, hash, now).1;
    forall j | 0 <= j < |after| ensures !HoldsResetToken(after[j], sha256(token), later) {
      if j != i {
        assert after[j] == records[j];
      }
    }
  }
}
