/** The user document of `models/Users.js`: the schema's enumerations and
    defaults, the two pre-save hooks (hash a modified password and drop the
    confirmation; stamp the change time of a changed password), the check
    whether a password changed after a JWT was issued, and the issue of a
    password-reset token. Time is a number of milliseconds since the epoch, and
    bcrypt and SHA-256 are functions passed in. */
module UserModel {
  import opened Runtime

  // ---------------------------------------------------------------------------
  // Enumerations and defaults

  datatype Role = UserRole | AdminRole | DeveloperRole

  function RoleName(r: Role): string {
    match r
    case UserRole => "user"
    case AdminRole => "admin"
    case DeveloperRole => "developer"
  }

  /** The `enum` validator of `role`: the value must be one of the names. */
  function ParseRole(s: string): (r: Option<Role>)
    ensures r.Some? <==> s in {"user", "admin", "developer"}
    ensures r.Some? ==> RoleName(r.value) == s
  {
    if s == "user" then Some(UserRole)
    else if s == "admin" then Some(AdminRole)
    else if s == "developer" then Some(DeveloperRole)
    else None
  }

  datatype SubscriptionType = Basic | Silver | Gold | Diamond

  function SubscriptionName(t: SubscriptionType): string {
    match t
    case Basic => "basic"
    case Silver => "silver"
    case Gold => "gold"
    case Diamond => "diamond"
  }

  /** The `enum` validator of `subscriptionType`. */
  function ParseSubscription(s: string): (r: Option<SubscriptionType>)
    ensures r.Some? <==> s in {"basic", "silver", "gold", "diamond"}
    ensures r.Some? ==> SubscriptionName(r.value) == s
  {
    if s == "basic" then Some(Basic)
    else if s == "silver" then Some(Silver)
    else if s == "gold" then Some(Gold)
    else if s == "diamond" then Some(Diamond)
    else None
  }

  /** Every role and every subscription type reads back from its name. */
  lemma EnumNamesRoundTrip(r: Role, t: SubscriptionType)
    ensures ParseRole(RoleName(r)) == Some(r)
    ensures ParseSubscription(SubscriptionName(t)) == Some(t)
  {
  }

  /** The persisted user, reduced to the fields the modelled code reads or writes.
      Times are milliseconds since the epoch; `None` is a field that is unset. */
  datatype UserRecord = UserRecord(
    id: string,
    email: string,
    password: Option<string>,
    confirmPassword: Option<string>,
    passwordChangedAt: Option<int>,
    passwordResetToken: Option<string>,
    passwordResetTokenExpires: Option<int>,
    role: Role,
    subscriptionType: SubscriptionType,
    isActiveUser: bool,
    isSubscribed: bool)

  /** The fields a new user is created with, before the schema casts them. */
  datatype UserInput = UserInput(
    id: string,
    email: string,
    password: Option<string>,
    confirmPassword: Option<string>,
    role: Option<string>,
    subscriptionType: Option<string>,
    isActiveUser: Option<bool>,
    isSubscribed: Option<bool>)

  datatype SchemaError = InvalidEnumValue(path: string, value: string)

  /** The schema applied to a new user: the email is lower-cased, an enumeration
      field that is given must name one of its values, a missing one takes its
      default (`user`, `basic`), `isActiveUser` defaults to false and
      `isSubscribed` to true. */
  function NewRecord(input: UserInput): (r: Result<UserRecord, SchemaError>)
    ensures r.Ok? <==>
              && (input.role.Some? ==> ParseRole(input.role.value).Some?)
              && (input.subscriptionType.Some? ==> ParseSubscription(input.subscriptionType.value).Some?)
    ensures r.Ok? ==>
              && RoleName(r.value.role) == (if input.role.Some? then input.role.value else "user")
              && SubscriptionName(r.value.subscriptionType) ==
                   (if input.subscriptionType.Some? then input.subscriptionType.value else "basic")
              && r.value.isActiveUser == (input.isActiveUser.Some? && input.isActiveUser.value)
              && r.value.isSubscribed == (input.isSubscribed.None? || input.isSubscribed.value)
              && r.value.email == LowerCase(input.email)
              && r.value.password == input.password && r.value.confirmPassword == input.confirmPassword
              && r.value.passwordChangedAt.None? && r.value.passwordResetToken.None?
              && r.value.passwordResetTokenExpires.None?
    ensures r.Err? && input.role.Some? && ParseRole(input.role.value).None? ==>
              r.error == InvalidEnumValue("role", input.role.value)
  {
    var role := if input.role.Some? then ParseRole(input.role.value) else Some(UserRole);
    var subscription :=
      if input.subscriptionType.Some? then ParseSubscription(input.subscriptionType.value) else Some(Basic);
    if role.None? then Err(InvalidEnumValue("role", input.role.value))
    else if subscription.None? then Err(InvalidEnumValue("subscriptionType", input.subscriptionType.value))
    else
      Ok(UserRecord(
        input.id, LowerCase(input.email), input.password, input.confirmPassword, None, None, None,
        role.value, subscription.value,
        if input.isActiveUser.Some? then input.isActiveUser.value else false,
        if input.isSubscribed.Some? then input.isSubscribed.value else true))
  }

  // ---------------------------------------------------------------------------
  // Password changed after a token was issued

  /** `parseInt(x / 1000, 10)` on an integer x: the quotient truncated toward zero. */
  function SecondsOf(ms: int): int {
    if ms >= 0 then ms / 1000 else -((-ms) / 1000)
  }

  /** Whole seconds before a change time on or after the epoch: `iat` is before
      the change's second exactly when the second after `iat` has begun by then. */
  lemma SecondBoundary(changedAt: int, iat: int)
    ensures changedAt >= 0 ==> (iat < SecondsOf(changedAt) <==> (iat + 1) * 1000 <= changedAt)
  {
    if changedAt >= 0 {
      var sec := changedAt / 1000;
      assert sec * 1000 <= changedAt < sec * 1000 + 1000;
      if iat < sec {
        assert (iat + 1) * 1000 <= sec * 1000;
      } else {
        assert (iat + 1) * 1000 > sec * 1000 + 999;
      }
    }
  }

  /** `checkIfUserChangedPasswordAfterJWTToken(iat)`: false when no change time is
      set; for a change time on or after the epoch, true exactly when the change
      happened at or after the start of the second following the token's `iat`. */
  function ChangedPasswordAfter(passwordChangedAt: Option<int>, iat: int): (stale: bool)
    ensures passwordChangedAt.None? ==> !stale
    ensures passwordChangedAt.Some? && passwordChangedAt.value >= 0 ==>
              (stale <==> (iat + 1) * 1000 <= passwordChangedAt.value)
  {
    if passwordChangedAt.Some? then
      SecondBoundary(passwordChangedAt.value, iat);
      iat < SecondsOf(passwordChangedAt.value)
    else false
  }

  /** A token issued in the change's own second is not stale, and one issued a
      second earlier is. */
  lemma ChangedPasswordAfterIff(changedAt: int, iat: int)
    requires changedAt >= 0
    ensures ChangedPasswordAfter(Some(changedAt), iat) <==> (iat + 1) * 1000 <= changedAt
    ensures !ChangedPasswordAfter(Some(changedAt), SecondsOf(changedAt))
    ensures ChangedPasswordAfter(Some(changedAt), SecondsOf(changedAt) - 1)
  {
    SecondBoundary(changedAt, SecondsOf(changedAt));
    SecondBoundary(changedAt, SecondsOf(changedAt) - 1);
  }

  /** With the change stamped one second early, a token is stale only when it was
      issued at least two whole seconds before the save's second. */
  lemma StampedChangeStaleIff(now: int, iat: int)
    requires now >= 1000
    ensures ChangedPasswordAfter(Some(now - PasswordStampLead), iat) <==> (iat + 2) * 1000 <= now
  {
    ChangedPasswordAfterIff(now - PasswordStampLead, iat);
  }

  /** A token signed at or after the stamped change time, whose `iat` is the
      signing time in whole seconds, is never stale. */
  lemma TokenSignedAfterChangeNotStale(now: int, signedAt: int)
    requires now >= 1000 && signedAt >= now - PasswordStampLead
    ensures !ChangedPasswordAfter(Some(now - PasswordStampLead), signedAt / 1000)
  {
    ChangedPasswordAfterIff(now - PasswordStampLead, signedAt / 1000);
    assert (signedAt / 1000 + 1) * 1000 > signedAt;
  }

  // ---------------------------------------------------------------------------
  // The pre-save hooks

  /** How long before the save the change time is stamped. */
  const PasswordStampLead := 1000

  /** A document: the record, whether it has never been saved, and whether its
      password is marked modified. */
  datatype Document = Document(rec: UserRecord, isNew: bool, passwordModified: bool)

  /** The first pre-save hook. An unmodified password is left alone; a modified one
      is replaced by its bcrypt hash and the confirmation is dropped. bcrypt
      throws on an unset password, which aborts the save (`None`). */
  function HashPasswordStep(d: Document, hash: string -> string): (r: Option<Document>)
    ensures !d.passwordModified ==> r == Some(d)
    ensures d.passwordModified ==> (r.Some? <==> d.rec.password.Some?)
    ensures d.passwordModified && r.Some? ==>
              r.value == d.(rec := d.rec.(password := Some(hash(d.rec.password.value)), confirmPassword := None))
  {
    if !d.passwordModified then Some(d)
    else if d.rec.password.None? then None
    else Some(d.(rec := d.rec.(password := Some(hash(d.rec.password.value)), confirmPassword := None)))
  }

  /** The second pre-save hook: a changed password of a document that was saved
      before has its change time set to one second before now. */
  function StampStep(d: Document, now: int): (r: Document)
    ensures r.rec.passwordChangedAt ==
              if d.passwordModified && !d.isNew then Some(now - PasswordStampLead) else d.rec.passwordChangedAt
    ensures r.(rec := r.rec.(passwordChangedAt := d.rec.passwordChangedAt)) == d
  {
    if !d.passwordModified || d.isNew then d
    else d.(rec := d.rec.(passwordChangedAt := Some(now - PasswordStampLead)))
  }

  /** `document.save()`: the hooks in the order they are registered, then the write,
      after which the document is no longer new and nothing is marked modified.
      `None` is a save that fails. */
  function SaveStep(d: Document, hash: string -> string, now: int): (r: Option<Document>)
    ensures r.None? <==> d.passwordModified && d.rec.password.None?
    ensures r.Some? ==> !r.value.isNew && !r.value.passwordModified
    ensures r.Some? && !d.passwordModified ==> r.value.rec == d.rec
    ensures r.Some? && d.passwordModified ==>
              r.value.rec == d.rec.(password := Some(hash(d.rec.password.value)), confirmPassword := None,
                                    passwordChangedAt := if d.isNew then d.rec.passwordChangedAt
                                                         else Some(now - PasswordStampLead))
  {
    var hashed := HashPasswordStep(d, hash);
    if hashed.None? then None
    else
      var stamped := StampStep(hashed.value, now);
      Some(stamped.(isNew := false, passwordModified := false))
  }

  /** Saving again right after a save changes nothing: the password is not hashed
      twice and the change time is not moved. */
  lemma SaveIdempotent(d: Document, hash: string -> string, now: int, later: int)
    requires SaveStep(d, hash, now).Some?
    ensures SaveStep(SaveStep(d, hash, now).value, hash, later) == SaveStep(d, hash, now)
  {
  }

  /** The user document. Its methods change its fields the way a Mongoose document
      does: an assignment marks the path modified when the value changes, and the
      hooks run on save. */
  class User {
    const id: string
    var email: string
    var password: Option<string>
    var confirmPassword: Option<string>
    var passwordChangedAt: Option<int>
    var passwordResetToken: Option<string>
    var passwordResetTokenExpires: Option<int>
    var role: Role
    var subscriptionType: SubscriptionType
    var isActiveUser: bool
    var isSubscribed: bool
    var isNew: bool
    var passwordModified: bool

    function Record(): UserRecord
      reads this
    {
      UserRecord(id, email, password, confirmPassword, passwordChangedAt, passwordResetToken,
                 passwordResetTokenExpires, role, subscriptionType, isActiveUser, isSubscribed)
    }

    function State(): Document
      reads this
    {
      Document(Record(), isNew, passwordModified)
    }

    /** A document read from the collection. */
    constructor Load(rec: UserRecord)
      ensures State() == Document(rec, false, false)
    {
      id, email, password, confirmPassword := rec.id, rec.email, rec.password, rec.confirmPassword;
      passwordChangedAt, passwordResetToken := rec.passwordChangedAt, rec.passwordResetToken;
      passwordResetTokenExpires, role := rec.passwordResetTokenExpires, rec.role;
      subscriptionType, isActiveUser, isSubscribed := rec.subscriptionType, rec.isActiveUser, rec.isSubscribed;
      isNew, passwordModified := false, false;
    }

    /** `user.password = p`. */
    method SetPassword(p: Option<string>)
      modifies this
      ensures State() == old(State()).(rec := old(Record()).(password := p),
                                       passwordModified := old(passwordModified) || p != old(password))
    {
      passwordModified := passwordModified || p != password;
      password := p;
    }

    /** `user.confirmPassword = c`. */
    method SetConfirmPassword(c: Option<string>)
      modifies this
      ensures State() == old(State()).(rec := old(Record()).(confirmPassword := c))
    {
      confirmPassword := c;
    }

    /** Both reset-token fields set to `undefined`. */
    method ClearResetToken()
      modifies this
      ensures State() == old(State()).(rec := old(Record()).(passwordResetToken := None,
                                                             passwordResetTokenExpires := None))
    {
      passwordResetToken, passwordResetTokenExpires := None, None;
    }

    /** The first pre-save hook on this document; `ok` is false when bcrypt throws. */
    method HashPasswordHook(hash: string -> string) returns (ok: bool)
      modifies this
      ensures ok == HashPasswordStep(old(State()), hash).Some?
      ensures ok ==> State() == HashPasswordStep(old(State()), hash).value
      ensures !ok ==> State() == old(State())
    {
      if !passwordModified {
        return true;
      }
      if password.None? {
        return false;
      }
      password := Some(hash(password.value));
      confirmPassword := None;
      ok := true;
    }

    /** The second pre-save hook on this document. */
    method StampPasswordChangeHook(now: int)
      modifies this
      ensures State() == StampStep(old(State()), now)
    {
      if !passwordModified || isNew {
        return;
      }
      passwordChangedAt := Some(now - PasswordStampLead);
    }

    /** `await user.save()`: runs both hooks and, when neither throws, returns the
        record written to the collection. A failed save leaves the document as it
        was. */
    method Save(hash: string -> string, now: int) returns (saved: Option<UserRecord>)
      modifies this
      ensures SaveStep(old(State()), hash, now).None? ==> saved.None? && State() == old(State())
      ensures SaveStep(old(State()), hash, now).Some? ==>
                State() == SaveStep(old(State()), hash, now).value && saved == Some(Record())
    {
      var ok := HashPasswordHook(hash);
      if !ok {
        return None;
      }
      StampPasswordChangeHook(now);
      isNew, passwordModified := false, false;
      saved := Some(Record());
    }

    /** `generatePasswordResetToken()`, with `crypto.randomBytes(32)` given as
        `entropy`: the plaintext is the bytes in hexadecimal, the document keeps
        only its SHA-256 digest, and the token expires ten minutes from now. */
    method GeneratePasswordResetToken(entropy: seq<bv8>, sha256: string -> string, now: int)
      returns (plain: string)
      requires |entropy| == ResetTokenBytes
      modifies this
      ensures plain == HexEncode(entropy)
      ensures State() == old(State()).(rec := IssueResetToken(old(Record()), sha256(plain), now))
    {
      plain := HexEncode(entropy);
      passwordResetToken := Some(sha256(plain));
      passwordResetTokenExpires := Some(now + ResetTokenLifetime);
    }
  }

  // ---------------------------------------------------------------------------
  // Password-reset tokens

  const ResetTokenBytes := 32
  const ResetTokenLifetime := 10 * 60 * 1000

  /** The record after a reset token with digest `digest` is issued at `now`. */
  function IssueResetToken(rec: UserRecord, digest: string, now: int): (r: UserRecord)
    ensures r.passwordResetToken == Some(digest)
    ensures r.passwordResetTokenExpires == Some(now + 600000)
    ensures r.(passwordResetToken := rec.passwordResetToken,
               passwordResetTokenExpires := rec.passwordResetTokenExpires) == rec
  {
    rec.(passwordResetToken := Some(digest), passwordResetTokenExpires := Some(now + ResetTokenLifetime))
  }

  /** The reset route's lookup: the stored digest equals the digest of the
      submitted token and the expiry is strictly after now. */
  predicate HoldsResetToken(rec: UserRecord, digest: string, now: int) {
    && rec.passwordResetToken == Some(digest)
    && rec.passwordResetTokenExpires.Some?
    && rec.passwordResetTokenExpires.value > now
  }

  /** A freshly issued token is redeemed, by its own digest, exactly until ten
      minutes after issue, and by no other digest. */
  lemma IssuedTokenRedeemableIff(rec: UserRecord, digest: string, issuedAt: int, other: string, now: int)
    requires other != digest
    ensures HoldsResetToken(IssueResetToken(rec, digest, issuedAt), digest, now) <==> now < issuedAt + 600000
    ensures !HoldsResetToken(IssueResetToken(rec, digest, issuedAt), other, now)
  {
  }

  /** The plaintext token is 64 hexadecimal characters and spells out exactly the
      random bytes it was made from. */
  lemma ResetTokenEncodesEntropy(entropy: seq<bv8>)
    requires |entropy| == ResetTokenBytes
    ensures |HexEncode(entropy)| == 64
    ensures HexDecode(HexEncode(entropy)) == Some(entropy)
  {
    HexRoundTrip(entropy);
  }
}
