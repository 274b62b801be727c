/**
 * The admin-account resolvers of the GraphQL API: `registerAdmin`, `loginAdmin`,
 * `updateAdminProfile`, `changeAdminPassword`, `deleteAdmin`, and the `verifyToken` helper the
 * content mutations use.
 *
 * Each resolver is specified by a function from the store before the call (admins and keys)
 * to the reply and the store after it; the `AdminDirectory` class runs the same steps in place,
 * in the order the resolver awaits them. What the Admin model does on its own (hashing,
 * password comparison, the lockout rules and the schema defaults) is not part of this model
 * and comes in as the `AdminModel` parameter; the clock, the signing secret and the token
 * library come in as `Env`.
 */
module AdminResolvers {
  import opened Wrappers
  import opened JsText
  import opened SecureKeys
  import opened AdminAuth
  import Lists

  /** The lockout fields the Admin model keeps; only `lockUntil` is read by the resolvers. */
  datatype LockoutState = LockoutState(loginAttempts: nat, lockUntil: Option<Time>, lastLogin: Option<Time>)

  datatype Admin = Admin(
    id: AdminId,
    username: string,
    email: string,
    passwordHash: string,
    role: string,
    isActive: bool,
    usedSecureKey: string,
    lockout: LockoutState)

  /** The Admin model's own behaviour, as opaque values. */
  datatype AdminModel = AdminModel(
    hashPassword: string -> string,
    comparePassword: (string, string) -> bool,
    isLocked: (LockoutState, Time) -> bool,
    incLoginAttempts: (LockoutState, Time) -> LockoutState,
    resetLoginAttempts: (LockoutState, Time) -> LockoutState,
    defaultRole: string,
    defaultIsActive: bool,
    initialLockout: LockoutState)

  /** The clock (`Date.now()`), `JWT_SECRET`, the token library and the Admin model. */
  datatype Env = Env(now: Time, secret: string, jwt: JwtLibrary, model: AdminModel)

  /** `{ success, message, token, admin }`. */
  datatype AuthPayload = AuthPayload(success: bool, message: string, token: Option<string>, admin: Option<Admin>)

  /** A resolver either returns a value or throws an error with a message. */
  datatype Reply<T> = Returned(value: T) | Thrown(message: string)

  /** The two collections the admin resolvers touch. */
  datatype Store = Store(admins: seq<Admin>, keys: seq<SecureKey>)

  /** The reply a resolver gives and the store it leaves behind. */
  datatype Step<R> = Step(reply: R, after: Store)

  const UsernameTaken := "Username already taken"
  const EmailTaken := "Email already registered"
  const AccountCreated := "Admin account created successfully"
  const RegisterFailed := "Failed to create admin account"
  const InvalidCredentials := "Invalid username or password"
  const AccountDeactivated := "Account has been deactivated. Contact super admin."
  const LoginSuccessful := "Login successful"
  const LoginFailed := "Login failed"
  const AdminNotFound := "Admin not found"
  const WrongCurrentPassword := "Current password is incorrect"
  const PasswordChanged := "Password changed successfully"
  const SelfDeletion := "Cannot delete your own account"
  const AdminDeleted := "Admin account deleted successfully"
  const TokenRequired := "Authentication required"
  const TokenRefused := "Invalid or expired token"
  const MinuteMs := 60000

  /** A refusal: `success: false`, no token, no admin. */
  function Refused(message: string): AuthPayload {
    AuthPayload(false, message, None, None)
  }

  /** `error.message || fallback` in a `catch` block. */
  function CaughtMessage(message: string, fallback: string): (r: string)
    ensures message != "" ==> r == message
    ensures message == "" ==> r == fallback
  {
    if message == "" then fallback else message
  }

  /** The fields `findOne` filters on. */
  datatype Field = Id | Username | Email

  function FieldValue(a: Admin, f: Field): string {
    match f
    case Id => a.id
    case Username => a.username
    case Email => a.email
  }

  /** `{ [f]: value }`, with `_id: { $ne: excluded }` when an id is excluded. */
  predicate Matches(a: Admin, f: Field, value: string, excluded: Option<AdminId>) {
    FieldValue(a, f) == value && (excluded.None? || a.id != excluded.value)
  }

  /** `Admin.findOne(filter)` / `Admin.findById(id)`: the first matching document, in store order. */
  function FindOne(admins: seq<Admin>, f: Field, value: string, excluded: Option<AdminId>): (r: Option<nat>)
    ensures r.Some? ==> r.value < |admins| && Matches(admins[r.value], f, value, excluded)
    ensures r.Some? ==> forall j :: 0 <= j < r.value ==> !Matches(admins[j], f, value, excluded)
    ensures r.None? ==> forall j :: 0 <= j < |admins| ==> !Matches(admins[j], f, value, excluded)
  {
    if admins == [] then None
    else if Matches(admins[0], f, value, excluded) then Some(0)
    else
      match FindOne(admins[1..], f, value, excluded)
      case None => None
      case Some(k) => Some(k + 1)
  }

  /** No two admins share an id, a username or an email. */
  predicate UniqueField(admins: seq<Admin>, f: Field) {
    forall i, j :: 0 <= i < j < |admins| ==> FieldValue(admins[i], f) != FieldValue(admins[j], f)
  }

  /** The store invariant: unique ids, usernames and emails, and a well-formed key registry. */
  predicate Consistent(st: Store) {
    UniqueField(st.admins, Id) && UniqueField(st.admins, Username) && UniqueField(st.admins, Email)
    && WellFormed(st.keys)
  }

  /**
   * Every consumed key names the account it created: its `usedBy` is the id of an admin whose
   * `usedSecureKey` is that code.
   */
  predicate KeysAccountedFor(st: Store) {
    forall k :: 0 <= k < |st.keys| && st.keys[k].isUsed ==>
      exists a :: 0 <= a < |st.admins| && st.keys[k].usedBy == Some(st.admins[a].id)
        && st.admins[a].usedSecureKey == st.keys[k].key
  }

  /** `generateAdminToken(admin)` at the current time. */
  function TokenFor(env: Env, a: Admin): Result<string> {
    GenerateAdminToken(env.jwt, a.id, a.username, a.email, a.role, env.secret, env.now)
  }

  /** The claims a token for `a` carries once verified, issued at `now`. */
  function ClaimsOf(a: Admin, now: Time): Decoded {
    Decoded(AdminClaims(a.id, a.username, a.email, a.role), Seconds(now), Seconds(now) + TokenLifetime)
  }

  // ---------------------------------------------------------------- registerAdmin

  datatype RegisterInput = RegisterInput(username: string, email: string, password: string, secureKey: string)

  /** A failure of the database writes `registerAdmin` awaits, with the message it throws. */
  datatype RegisterFault = RegisterWritesSucceed | SaveThrows(message: string) | MarkAsUsedThrows(message: string)

  /** `new Admin({ username, email, password, usedSecureKey })` with the schema defaults. */
  function NewAdmin(input: RegisterInput, env: Env, id: AdminId): (a: Admin)
    ensures a.id == id && a.username == input.username && a.email == input.email
    ensures a.usedSecureKey == input.secureKey
  {
    Admin(id, input.username, input.email, env.model.hashPassword(input.password), env.model.defaultRole,
          env.model.defaultIsActive, input.secureKey, env.model.initialLockout)
  }

  /** The three checks `registerAdmin` makes, in order, before it writes anything. */
  predicate RegisterChecksPass(st: Store, input: RegisterInput, now: Time) {
    && ValidateKey(st.keys, input.secureKey, now).Valid?
    && FindOne(st.admins, Username, input.username, None).None?
    && FindOne(st.admins, Email, input.email, None).None?
  }

  /**
   * `registerAdmin`: the key, then the username, then the email are checked; the account is
   * saved, then the key is marked used by it, then a token is signed. `newId` is the id the
   * new document receives.
   */
  function Register(st: Store, input: RegisterInput, env: Env, newId: AdminId, fault: RegisterFault)
    : (r: Step<AuthPayload>)
    ensures !r.reply.success ==> r.reply.token.None? && r.reply.admin.None?
    ensures r.reply.success <==>
      RegisterChecksPass(st, input, env.now) && fault == RegisterWritesSucceed && env.secret != ""
    ensures r.after != st ==> RegisterChecksPass(st, input, env.now) && !fault.SaveThrows?
    ensures |r.after.keys| == |st.keys|
  {
    match ValidateKey(st.keys, input.secureKey, env.now)
    case Invalid(m) => Step(Refused(m), st)
    case Valid(index, record) =>
      if FindOne(st.admins, Username, input.username, None).Some? then Step(Refused(UsernameTaken), st)
      else if FindOne(st.admins, Email, input.email, None).Some? then Step(Refused(EmailTaken), st)
      else
        var admin := NewAdmin(input, env, newId);
        if fault.SaveThrows? then Step(Refused(CaughtMessage(fault.message, RegisterFailed)), st)
        else
          var saved := st.(admins := st.admins + [admin]);
          if fault.MarkAsUsedThrows? then Step(Refused(CaughtMessage(fault.message, RegisterFailed)), saved)
          else
            var marked := saved.(keys := st.keys[index := MarkedAsUsed(record, newId, env.now)]);
            match TokenFor(env, admin)
            case Failure(e) => Step(Refused(CaughtMessage(e, RegisterFailed)), marked)
            case Success(token) => Step(AuthPayload(true, AccountCreated, Some(token), Some(admin)), marked)
  }

  /** The checks run in order and the first failing one gives the reply; nothing is written. */
  lemma RegisterCheckOrder(st: Store, input: RegisterInput, env: Env, newId: AdminId, fault: RegisterFault)
    ensures var v := ValidateKey(st.keys, input.secureKey, env.now);
      var r := Register(st, input, env, newId, fault);
      && (v.Invalid? ==> r == Step(Refused(v.message), st))
      && (v.Valid? && FindOne(st.admins, Username, input.username, None).Some? ==>
            r == Step(Refused(UsernameTaken), st))
      && ((v.Valid? && FindOne(st.admins, Username, input.username, None).None?
             && FindOne(st.admins, Email, input.email, None).Some?) ==> r == Step(Refused(EmailTaken), st))
  {
  }

  /**
   * A successful registration appends the new account, which records the code it used, marks
   * that code's key as used by the new account now, consumes exactly one remaining key, and
   * returns a token that verifies to the new admin's claims.
   */
  lemma RegisterSuccess(st: Store, input: RegisterInput, env: Env, newId: AdminId)
    requires Register(st, input, env, newId, RegisterWritesSucceed).reply.success
    ensures var r := Register(st, input, env, newId, RegisterWritesSucceed);
      var admin := NewAdmin(input, env, newId);
      var i := ValidateKey(st.keys, input.secureKey, env.now).index;
      && r.reply.admin == Some(admin) && r.reply.message == AccountCreated
      && r.after.admins == st.admins + [admin]
      && i < |st.keys| && st.keys[i].key == input.secureKey && !st.keys[i].isUsed
      && r.after.keys == st.keys[i := MarkedAsUsed(st.keys[i], newId, env.now)]
      && RemainingKeysCount(r.after.keys) == RemainingKeysCount(st.keys) - 1
      && (Faithful(env.jwt) ==>
            VerifyAdminToken(env.jwt, r.reply.token.value, env.secret, env.now) == Verified(ClaimsOf(admin, env.now)))
  {
    var i := ValidateKey(st.keys, input.secureKey, env.now).index;
    MarkingConsumesOneKey(st.keys, i, newId, env.now);
    var admin := NewAdmin(input, env, newId);
    if Faithful(env.jwt) {
      AdminTokenRoundTrip(env.jwt, admin.id, admin.username, admin.email, admin.role, env.secret, env.now, env.now);
    }
  }

  /** Once a registration with a code succeeds, every later registration with it fails at the key check. */
  lemma KeyIsSingleUse(st: Store, input: RegisterInput, env: Env, newId: AdminId,
                       input': RegisterInput, env': Env, newId': AdminId, fault': RegisterFault)
    requires UniqueCodes(st.keys)
    requires Register(st, input, env, newId, RegisterWritesSucceed).reply.success
    requires input'.secureKey == input.secureKey
    ensures var after := Register(st, input, env, newId, RegisterWritesSucceed).after;
      Register(after, input', env', newId', fault') == Step(Refused(InvalidKeyMessage), after)
  {
    var i := ValidateKey(st.keys, input.secureKey, env.now).index;
    MarkedKeyIsRefused(st.keys, i, newId, env.now, env'.now);
  }

  /**
   * The two writes are separate: when marking the key fails after the account was saved, the
   * account stays, the key stays unused, and the same code still passes the key check.
   */
  lemma MarkFailureLeavesKeyUnused(st: Store, input: RegisterInput, env: Env, newId: AdminId, message: string)
    requires RegisterChecksPass(st, input, env.now)
    ensures var r := Register(st, input, env, newId, MarkAsUsedThrows(message));
      && r.reply == Refused(CaughtMessage(message, RegisterFailed))
      && r.after.admins == st.admins + [NewAdmin(input, env, newId)]
      && r.after.keys == st.keys
      && ValidateKey(r.after.keys, input.secureKey, env.now).Valid?
  {
  }

  /** Registration keeps the store consistent, provided the new document's id is fresh. */
  lemma RegisterPreservesConsistent(st: Store, input: RegisterInput, env: Env, newId: AdminId, fault: RegisterFault)
    requires Consistent(st) && FindOne(st.admins, Id, newId, None).None?
    ensures Consistent(Register(st, input, env, newId, fault).after)
  {
    var r := Register(st, input, env, newId, fault);
    if r.after != st {
      var admin := NewAdmin(input, env, newId);
      var admins := st.admins + [admin];
      forall f: Field ensures UniqueField(admins, f) {
        forall i, j | 0 <= i < j < |admins| ensures FieldValue(admins[i], f) != FieldValue(admins[j], f) {
          if j == |st.admins| {
            assert !Matches(st.admins[i], f, FieldValue(admin, f), None);
          }
        }
      }
      if !fault.MarkAsUsedThrows? {
        var i := ValidateKey(st.keys, input.secureKey, env.now).index;
        MarkingPreservesWellFormed(st.keys, i, newId, env.now);
      }
    }
  }

  /** Registration keeps every consumed key tied to the account it created. */
  lemma RegisterPreservesKeysAccountedFor(st: Store, input: RegisterInput, env: Env, newId: AdminId,
                                          fault: RegisterFault)
    requires KeysAccountedFor(st)
    ensures KeysAccountedFor(Register(st, input, env, newId, fault).after)
  {
    var r := Register(st, input, env, newId, fault);
    if r.after != st {
      var admin := NewAdmin(input, env, newId);
      var admins := st.admins + [admin];
      var i := ValidateKey(st.keys, input.secureKey, env.now).index;
      forall k | 0 <= k < |r.after.keys| && r.after.keys[k].isUsed
        ensures exists a ::
          0 <= a < |admins| && r.after.keys[k].usedBy == Some(admins[a].id) && admins[a].usedSecureKey == r.after.keys[k].key
      {
        if !fault.MarkAsUsedThrows? && k == i {
          assert admins[|st.admins|] == admin;
        } else {
          assert r.after.keys[k] == st.keys[k];
          var a :| 0 <= a < |st.admins| && st.keys[k].usedBy == Some(st.admins[a].id)
            && st.admins[a].usedSecureKey == st.keys[k].key;
          assert admins[a] == st.admins[a];
        }
      }
    }
  }

  // ---------------------------------------------------------------- loginAdmin

  datatype LoginInput = LoginInput(username: string, password: string)

  /** A failure of the lockout write `loginAdmin` awaits, with the message it throws. */
  datatype LoginFault = LoginWritesSucceed | WriteThrows(message: string)

  /**
   * The locked-account message: `Math.ceil((lockUntil - Date.now()) / 60000)` minutes, which
   * prints as `NaN` when the document has no `lockUntil`.
   */
  function LockedMessage(lockUntil: Option<Time>, now: Time): string {
    var minutes := match lockUntil
      case None => "NaN"
      case Some(t) => IntToString(CeilDiv(t - now, MinuteMs));
    "Account locked due to too many failed attempts. Try again in " + minutes + " minutes."
  }

  /** While the lock lasts, the message shows a whole number of minutes, at least one. */
  lemma LockedMinutes(lockUntil: Time, now: Time)
    requires lockUntil > now
    ensures var m := CeilDiv(lockUntil - now, MinuteMs);
      && m >= 1 && (m - 1) * MinuteMs < lockUntil - now <= m * MinuteMs
      && LockedMessage(Some(lockUntil), now) ==
           "Account locked due to too many failed attempts. Try again in " + IntToString(m) + " minutes."
  {
  }

  /**
   * `loginAdmin`: find by username; refuse a locked account, then an inactive one, without
   * comparing the password; on a wrong password record the failure; on a right one reset the
   * lockout and sign a token.
   */
  function Login(st: Store, input: LoginInput, env: Env, fault: LoginFault): (r: Step<AuthPayload>)
    ensures !r.reply.success ==> r.reply.token.None? && r.reply.admin.None?
    ensures FindOne(st.admins, Username, input.username, None).None? ==> r == Step(Refused(InvalidCredentials), st)
    ensures r.after.keys == st.keys && |r.after.admins| == |st.admins|
    ensures forall j :: 0 <= j < |st.admins| ==>
      r.after.admins[j] == st.admins[j].(lockout := r.after.admins[j].lockout)
    ensures r.after != st ==>
      && FindOne(st.admins, Username, input.username, None).Some?
      && forall j :: 0 <= j < |st.admins| && j != FindOne(st.admins, Username, input.username, None).value ==>
           r.after.admins[j] == st.admins[j]
  {
    match FindOne(st.admins, Username, input.username, None)
    case None => Step(Refused(InvalidCredentials), st)
    case Some(i) => LoginFound(st, i, input, env, fault)
  }

  /** `loginAdmin` once the username has found the admin at index `i`: only that admin's lockout may change. */
  function LoginFound(st: Store, i: nat, input: LoginInput, env: Env, fault: LoginFault): (r: Step<AuthPayload>)
    requires i < |st.admins|
    ensures !r.reply.success ==> r.reply.token.None? && r.reply.admin.None?
    ensures r.after.keys == st.keys && |r.after.admins| == |st.admins|
    ensures r.after.admins == st.admins[i := st.admins[i].(lockout := r.after.admins[i].lockout)]
  {
    var a := st.admins[i];
    if env.model.isLocked(a.lockout, env.now) then Step(Refused(LockedMessage(a.lockout.lockUntil, env.now)), st)
    else if !a.isActive then Step(Refused(AccountDeactivated), st)
    else if !env.model.comparePassword(a.passwordHash, input.password) then
      if fault.WriteThrows? then Step(Refused(CaughtMessage(fault.message, LoginFailed)), st)
      else
        var failed := a.(lockout := env.model.incLoginAttempts(a.lockout, env.now));
        Step(Refused(InvalidCredentials), st.(admins := st.admins[i := failed]))
    else if fault.WriteThrows? then Step(Refused(CaughtMessage(fault.message, LoginFailed)), st)
    else
      var reset := a.(lockout := env.model.resetLoginAttempts(a.lockout, env.now));
      var after := st.(admins := st.admins[i := reset]);
      match TokenFor(env, a)
      case Failure(e) => Step(Refused(CaughtMessage(e, LoginFailed)), after)
      case Success(token) => Step(AuthPayload(true, LoginSuccessful, Some(token), Some(a)), after)
  }


  /**
   * A wrong password gets the very reply an unknown username gets, and records exactly one
   * failed attempt on that account.
   */
  lemma WrongPasswordLooksLikeUnknownUser(st: Store, input: LoginInput, env: Env)
    requires FindOne(st.admins, Username, input.username, None).Some?
    requires var a := st.admins[FindOne(st.admins, Username, input.username, None).value];
      !env.model.isLocked(a.lockout, env.now) && a.isActive && !env.model.comparePassword(a.passwordHash, input.password)
    ensures var i := FindOne(st.admins, Username, input.username, None).value;
      var r := Login(st, input, env, LoginWritesSucceed);
      && r.reply == Login(st.(admins := []), input, env, LoginWritesSucceed).reply == Refused(InvalidCredentials)
      && r.after == st.(admins := st.admins[i := st.admins[i].(lockout :=
           env.model.incLoginAttempts(st.admins[i].lockout, env.now))])
  {
  }

  /**
   * A locked account is refused with the minutes left, whether or not it is active, and the
   * store is left exactly as it was: no password comparison, no recorded attempt.
   */
  lemma LockedAccountRefused(st: Store, input: LoginInput, env: Env, fault: LoginFault)
    requires FindOne(st.admins, Username, input.username, None).Some?
    requires var a := st.admins[FindOne(st.admins, Username, input.username, None).value];
      env.model.isLocked(a.lockout, env.now)
    ensures var a := st.admins[FindOne(st.admins, Username, input.username, None).value];
      Login(st, input, env, fault) == Step(Refused(LockedMessage(a.lockout.lockUntil, env.now)), st)
  {
  }

  /**
   * An unlocked but deactivated account is refused with the deactivation message, before any
   * password comparison, and the store is left exactly as it was.
   */
  lemma InactiveAccountRefused(st: Store, input: LoginInput, env: Env, fault: LoginFault)
    requires FindOne(st.admins, Username, input.username, None).Some?
    requires var a := st.admins[FindOne(st.admins, Username, input.username, None).value];
      !env.model.isLocked(a.lockout, env.now) && !a.isActive
    ensures Login(st, input, env, fault) == Step(Refused(AccountDeactivated), st)
  {
  }

  /**
   * A login succeeds exactly for an unlocked, active account whose password compares; it
   * resets that account's lockout and returns a token for it.
   */
  lemma LoginSuccess(st: Store, input: LoginInput, env: Env)
    ensures var r := Login(st, input, env, LoginWritesSucceed);
      var found := FindOne(st.admins, Username, input.username, None);
      r.reply.success <==>
        && found.Some?
        && !env.model.isLocked(st.admins[found.value].lockout, env.now)
        && st.admins[found.value].isActive
        && env.model.comparePassword(st.admins[found.value].passwordHash, input.password)
        && env.secret != ""
    ensures var r := Login(st, input, env, LoginWritesSucceed);
      r.reply.success ==>
        var i := FindOne(st.admins, Username, input.username, None).value;
        && r.reply.admin == Some(st.admins[i])
        && r.after.admins == st.admins[i := st.admins[i].(lockout :=
             env.model.resetLoginAttempts(st.admins[i].lockout, env.now))]
        && (Faithful(env.jwt) ==>
              VerifyAdminToken(env.jwt, r.reply.token.value, env.secret, env.now) == Verified(ClaimsOf(st.admins[i], env.now)))
  {
    var r := Login(st, input, env, LoginWritesSucceed);
    if r.reply.success && Faithful(env.jwt) {
      var a := st.admins[FindOne(st.admins, Username, input.username, None).value];
      AdminTokenRoundTrip(env.jwt, a.id, a.username, a.email, a.role, env.secret, env.now, env.now);
    }
  }

  /**
   * A store change that rewrites only lockout fields, in place, keeps the store consistent and
   * keeps every consumed key accounted for.
   */
  lemma LockoutChangesPreserveInvariants(st: Store, after: Store)
    requires Consistent(st) && KeysAccountedFor(st)
    requires after.keys == st.keys && |after.admins| == |st.admins|
    requires forall j :: 0 <= j < |st.admins| ==> after.admins[j] == st.admins[j].(lockout := after.admins[j].lockout)
    ensures Consistent(after) && KeysAccountedFor(after)
  {
    forall f: Field ensures UniqueField(after.admins, f) {
      assert forall j :: 0 <= j < |st.admins| ==> FieldValue(after.admins[j], f) == FieldValue(st.admins[j], f);
    }
    forall k | 0 <= k < |after.keys| && after.keys[k].isUsed
      ensures exists a :: (0 <= a < |after.admins| && after.keys[k].usedBy == Some(after.admins[a].id)
        && after.admins[a].usedSecureKey == after.keys[k].key)
    {
      var a :| 0 <= a < |st.admins| && st.keys[k].usedBy == Some(st.admins[a].id)
        && st.admins[a].usedSecureKey == st.keys[k].key;
      assert after.admins[a].id == st.admins[a].id;
    }
  }

  /** Login touches only lockout fields, so it keeps the store consistent and keys accounted for. */
  lemma LoginPreservesInvariants(st: Store, input: LoginInput, env: Env, fault: LoginFault)
    requires Consistent(st) && KeysAccountedFor(st)
    ensures Consistent(Login(st, input, env, fault).after)
    ensures KeysAccountedFor(Login(st, input, env, fault).after)
  {
    LockoutChangesPreserveInvariants(st, Login(st, input, env, fault).after);
  }

  // ---------------------------------------------------------------- updateAdminProfile

  /** The optional `username` and `email` of the profile input. */
  datatype ProfileInput = ProfileInput(username: Option<string>, email: Option<string>)

  /** `if (value)`: present and not the empty string. */
  predicate Given(value: Option<string>) {
    value.Some? && value.value != ""
  }

  function ApplyProfile(a: Admin, input: ProfileInput): (b: Admin)
    ensures b.username == (if Given(input.username) then input.username.value else a.username)
    ensures b.email == (if Given(input.email) then input.email.value else a.email)
    ensures b == a.(username := b.username, email := b.email)
  {
    var a1 := if Given(input.username) then a.(username := input.username.value) else a;
    if Given(input.email) then a1.(email := input.email.value) else a1
  }

  /** A given `value` of field `f` is already held by an admin other than `id`. */
  predicate TakenByOther(st: Store, f: Field, value: Option<string>, id: AdminId) {
    Given(value) && FindOne(st.admins, f, value.value, Some(id)).Some?
  }

  /**
   * `updateAdminProfile`: admin claims required; a given username or email already held by
   * another admin is refused, username first; otherwise the requester's document gets the
   * given fields and is returned (null when no document has the requester's id).
   */
  function UpdateProfile(st: Store, requester: Option<Decoded>, input: ProfileInput): (r: Step<Reply<Option<Admin>>>)
    ensures r.reply.Thrown? ==> r.after == st
    ensures RequireAdmin(requester).Fail? ==> r.reply == Thrown(RequireAdmin(requester).message)
    ensures RequireAdmin(requester).Pass? ==>
      var id := requester.value.claims.id;
      var usernameTaken := TakenByOther(st, Username, input.username, id);
      var emailTaken := TakenByOther(st, Email, input.email, id);
      (r.reply == Thrown(UsernameTaken) <==> usernameTaken)
      && (r.reply == Thrown(EmailTaken) <==> !usernameTaken && emailTaken)
      && (r.reply.Returned? <==> !usernameTaken && !emailTaken)
      && (r.reply == Returned(None) <==> !usernameTaken && !emailTaken && FindOne(st.admins, Id, id, None).None?)
    ensures r.reply == Returned(None) ==> r.after == st
    ensures r.after.keys == st.keys && |r.after.admins| == |st.admins|
    ensures r.reply.Returned? && r.reply.value.Some? ==>
      exists i :: 0 <= i < |st.admins| && st.admins[i].id == requester.value.claims.id
        && r.after.admins == st.admins[i := r.reply.value.value]
        && r.reply.value.value == ApplyProfile(st.admins[i], input)
  {
    match RequireAdmin(requester)
    case Fail(m) => Step(Thrown(m), st)
    case Pass =>
      var id := requester.value.claims.id;
      if TakenByOther(st, Username, input.username, id) then
        Step(Thrown(UsernameTaken), st)
      else if TakenByOther(st, Email, input.email, id) then
        Step(Thrown(EmailTaken), st)
      else
        match FindOne(st.admins, Id, id, None)
        case None => Step(Returned(None), st)
        case Some(i) =>
          var updated := ApplyProfile(st.admins[i], input);
          Step(Returned(Some(updated)), st.(admins := st.admins[i := updated]))
  }

  /** Profile updates never let two admins share a username or an email. */
  lemma UpdateProfilePreservesConsistent(st: Store, requester: Option<Decoded>, input: ProfileInput)
    requires Consistent(st)
    ensures Consistent(UpdateProfile(st, requester, input).after)
  {
    var r := UpdateProfile(st, requester, input);
    if r.after != st {
      var id := requester.value.claims.id;
      var i := FindOne(st.admins, Id, id, None).value;
      var updated := ApplyProfile(st.admins[i], input);
      var admins := st.admins[i := updated];
      forall f: Field ensures UniqueField(admins, f) {
        forall j, k | 0 <= j < k < |admins| ensures FieldValue(admins[j], f) != FieldValue(admins[k], f) {
          if j == i || k == i {
            var other := if j == i then k else j;
            assert admins[other] == st.admins[other];
            assert st.admins[other].id != id;
            if f == Username && Given(input.username) {
              assert !Matches(st.admins[other], Username, input.username.value, Some(id));
            } else if f == Email && Given(input.email) {
              assert !Matches(st.admins[other], Email, input.email.value, Some(id));
            }
          }
        }
      }
    }
  }

  // ---------------------------------------------------------------- changeAdminPassword

  /**
   * `changeAdminPassword`: admin claims required; the requester's document must exist and its
   * password must compare with `current`; then the new password is hashed and saved.
   */
  function ChangePassword(st: Store, requester: Option<Decoded>, current: string, newPassword: string, env: Env)
    : (r: Step<Reply<string>>)
    ensures r.reply.Thrown? ==> r.after == st
    ensures RequireAdmin(requester).Fail? ==> r.reply == Thrown(RequireAdmin(requester).message)
    ensures RequireAdmin(requester).Pass? && FindOne(st.admins, Id, requester.value.claims.id, None).None? ==>
      r.reply == Thrown(AdminNotFound)
    ensures RequireAdmin(requester).Pass? && FindOne(st.admins, Id, requester.value.claims.id, None).Some? ==>
      var doc := st.admins[FindOne(st.admins, Id, requester.value.claims.id, None).value];
      !env.model.comparePassword(doc.passwordHash, current) ==> r.reply == Thrown(WrongCurrentPassword)
    ensures r.reply.Returned? <==>
      && RequireAdmin(requester) == Pass
      && FindOne(st.admins, Id, requester.value.claims.id, None).Some?
      && env.model.comparePassword(st.admins[FindOne(st.admins, Id, requester.value.claims.id, None).value].passwordHash, current)
    ensures r.reply.Returned? ==>
      var i := FindOne(st.admins, Id, requester.value.claims.id, None).value;
      && r.reply.value == PasswordChanged
      && r.after == st.(admins := st.admins[i := st.admins[i].(passwordHash := env.model.hashPassword(newPassword))])
  {
    match RequireAdmin(requester)
    case Fail(m) => Step(Thrown(m), st)
    case Pass =>
      match FindOne(st.admins, Id, requester.value.claims.id, None)
      case None => Step(Thrown(AdminNotFound), st)
      case Some(i) =>
        var doc := st.admins[i];
        if !env.model.comparePassword(doc.passwordHash, current) then Step(Thrown(WrongCurrentPassword), st)
        else Step(Returned(PasswordChanged), st.(admins := st.admins[i := doc.(passwordHash := env.model.hashPassword(newPassword))]))
  }

  // ---------------------------------------------------------------- deleteAdmin

  /** `Admin.findByIdAndDelete(id)`: the document with that id removed, if there is one. */
  function RemoveById(admins: seq<Admin>, id: AdminId): (r: seq<Admin>)
    ensures FindOne(admins, Id, id, None).None? ==> r == admins
    ensures FindOne(admins, Id, id, None).Some? ==>
      r == admins[..FindOne(admins, Id, id, None).value] + admins[FindOne(admins, Id, id, None).value + 1..]
  {
    match FindOne(admins, Id, id, None)
    case None => admins
    case Some(i) => Lists.RemoveIndex(admins, i)
  }

  /**
   * `deleteAdmin(id)`: admin claims required (any admin, not only a super admin); deleting
   * one's own id throws; otherwise success is reported whether or not the target existed.
   */
  function DeleteAdmin(st: Store, requester: Option<Decoded>, id: AdminId): (r: Step<Reply<string>>)
    ensures r.reply.Thrown? <==> RequireAdmin(requester).Fail? || requester.value.claims.id == id
    ensures r.reply.Thrown? ==> r.after == st
    ensures RequireAdmin(requester).Fail? ==> r.reply == Thrown(RequireAdmin(requester).message)
    ensures r.reply.Thrown? && RequireAdmin(requester) == Pass ==> r.reply.message == SelfDeletion
    ensures r.reply.Returned? ==>
      r.reply.value == AdminDeleted && r.after == st.(admins := RemoveById(st.admins, id))
  {
    match RequireAdmin(requester)
    case Fail(m) => Step(Thrown(m), st)
    case Pass =>
      if requester.value.claims.id == id then Step(Thrown(SelfDeletion), st)
      else Step(Returned(AdminDeleted), st.(admins := RemoveById(st.admins, id)))
  }

  /** Deleting an id no admin has still reports success and changes nothing. */
  lemma DeleteMissingAdminSucceeds(st: Store, requester: Option<Decoded>, id: AdminId)
    requires RequireAdmin(requester) == Pass && requester.value.claims.id != id
    requires forall j :: 0 <= j < |st.admins| ==> st.admins[j].id != id
    ensures DeleteAdmin(st, requester, id) == Step(Returned(AdminDeleted), st)
  {
  }

  /** Removing one admin keeps a field unique. */
  lemma RemovalKeepsUnique(admins: seq<Admin>, i: nat, f: Field)
    requires i < |admins| && UniqueField(admins, f)
    ensures UniqueField(Lists.RemoveIndex(admins, i), f)
  {
    var r := Lists.RemoveIndex(admins, i);
    forall j, k | 0 <= j < k < |r| ensures FieldValue(r[j], f) != FieldValue(r[k], f) {
      assert r[j] == admins[if j < i then j else j + 1];
      assert r[k] == admins[if k < i then k else k + 1];
    }
  }

  /** Deletion keeps ids, usernames and emails unique. */
  lemma DeletePreservesConsistent(st: Store, requester: Option<Decoded>, id: AdminId)
    requires Consistent(st)
    ensures Consistent(DeleteAdmin(st, requester, id).after)
  {
    var found := FindOne(st.admins, Id, id, None);
    if found.Some? {
      RemovalKeepsUnique(st.admins, found.value, Id);
      RemovalKeepsUnique(st.admins, found.value, Username);
      RemovalKeepsUnique(st.admins, found.value, Email);
    }
  }

  // ---------------------------------------------------------------- verifyToken

  /**
   * `verifyToken(context)` of the content mutations: the claims of any token the library
   * accepts, whatever its type claim; 'Authentication required' when there is none.
   */
  function VerifyToken(lib: JwtLibrary, token: string, secret: string, now: Time): (r: Result<Decoded>)
    ensures token == "" ==> r == Failure(TokenRequired)
    ensures token != "" ==> (r.Success? <==> JwtVerify(lib, token, secret, now).Success?)
    ensures r.Success? ==> r.value == JwtVerify(lib, token, secret, now).value
    ensures r.Failure? && token != "" ==> r.error == TokenRefused
  {
    if token == "" then Failure(TokenRequired)
    else match JwtVerify(lib, token, secret, now)
      case Failure(_) => Failure(TokenRefused)
      case Success(decoded) => Success(decoded)
  }

  /**
   * A validly signed, unexpired token passes `verifyToken` whatever its type claim, while the
   * admin guards refuse it unless the type is 'admin'.
   */
  lemma VerifyTokenIgnoresType(lib: JwtLibrary, claims: Claims, secret: string, issued: int, exp: int, now: Time)
    requires Faithful(lib) && secret != "" && Seconds(now) < exp
    ensures var token := lib.encode(SignedToken(Decoded(claims, issued, exp), secret));
      && VerifyToken(lib, token, secret, now) == Success(Decoded(claims, issued, exp))
      && (claims.tokenType != AdminType ==> GetAdminFromToken(lib, token, secret, now).None?)
  {
    var token := lib.encode(SignedToken(Decoded(claims, issued, exp), secret));
    assert lib.decode(token) == Some(SignedToken(Decoded(claims, issued, exp), secret));
    if claims.tokenType != AdminType {
      OtherTokenTypesGiveNoAdmin(lib, claims, secret, issued, exp, now);
    }
  }

  // ---------------------------------------------------------------- the collections in place

  /** The `Admin` collection, next to the `SecureKey` collection the registration consumes. */
  class AdminDirectory {
    var admins: seq<Admin>
    const keys: KeyStore

    constructor(initial: seq<Admin>, keys: KeyStore)
      ensures admins == initial && this.keys == keys
    {
      admins := initial;
      this.keys := keys;
    }

    function State(): Store
      reads this, keys
    {
      Store(admins, keys.table)
    }

    method RegisterAdmin(input: RegisterInput, env: Env, newId: AdminId, fault: RegisterFault)
      returns (payload: AuthPayload)
      modifies this, keys
      ensures Step(payload, State()) == Register(old(State()), input, env, newId, fault)
    {
      var validation := ValidateKey(keys.table, input.secureKey, env.now);
      if validation.Invalid? {
        return Refused(validation.message);
      }
      if FindOne(admins, Username, input.username, None).Some? {
        return Refused(UsernameTaken);
      }
      if FindOne(admins, Email, input.email, None).Some? {
        return Refused(EmailTaken);
      }
      var admin := NewAdmin(input, env, newId);
      if fault.SaveThrows? {
        return Refused(CaughtMessage(fault.message, RegisterFailed));
      }
      admins := admins + [admin];
      if fault.MarkAsUsedThrows? {
        return Refused(CaughtMessage(fault.message, RegisterFailed));
      }
      keys.MarkAsUsed(validation.index, admin.id, env.now);
      var token := TokenFor(env, admin);
      if token.Failure? {
        return Refused(CaughtMessage(token.error, RegisterFailed));
      }
      payload := AuthPayload(true, AccountCreated, Some(token.value), Some(admin));
    }

    method LoginAdmin(input: LoginInput, env: Env, fault: LoginFault) returns (payload: AuthPayload)
      modifies this
      ensures Step(payload, State()) == Login(old(State()), input, env, fault)
    {
      var found := FindOne(admins, Username, input.username, None);
      if found.None? {
        return Refused(InvalidCredentials);
      }
      var i := found.value;
      var admin := admins[i];
      if env.model.isLocked(admin.lockout, env.now) {
        return Refused(LockedMessage(admin.lockout.lockUntil, env.now));
      }
      if !admin.isActive {
        return Refused(AccountDeactivated);
      }
      if !env.model.comparePassword(admin.passwordHash, input.password) {
        if fault.WriteThrows? {
          return Refused(CaughtMessage(fault.message, LoginFailed));
        }
        admins := admins[i := admin.(lockout := env.model.incLoginAttempts(admin.lockout, env.now))];
        return Refused(InvalidCredentials);
      }
      if fault.WriteThrows? {
        return Refused(CaughtMessage(fault.message, LoginFailed));
      }
      admins := admins[i := admin.(lockout := env.model.resetLoginAttempts(admin.lockout, env.now))];
      var token := TokenFor(env, admin);
      if token.Failure? {
        return Refused(CaughtMessage(token.error, LoginFailed));
      }
      payload := AuthPayload(true, LoginSuccessful, Some(token.value), Some(admin));
    }

    method UpdateAdminProfile(requester: Option<Decoded>, input: ProfileInput) returns (reply: Reply<Option<Admin>>)
      modifies this
      ensures Step(reply, State()) == UpdateProfile(old(State()), requester, input)
    {
      var guard := RequireAdmin(requester);
      if guard.Fail? {
        return Thrown(guard.message);
      }
      var id := requester.value.claims.id;
      if TakenByOther(State(), Username, input.username, id) {
        return Thrown(UsernameTaken);
      }
      if TakenByOther(State(), Email, input.email, id) {
        return Thrown(EmailTaken);
      }
      var found := FindOne(admins, Id, id, None);
      if found.None? {
        return Returned(None);
      }
      var updated := ApplyProfile(admins[found.value], input);
      admins := admins[found.value := updated];
      reply := Returned(Some(updated));
    }

    method ChangeAdminPassword(requester: Option<Decoded>, current: string, newPassword: string, env: Env)
      returns (reply: Reply<string>)
      modifies this
      ensures Step(reply, State()) == ChangePassword(old(State()), requester, current, newPassword, env)
    {
      var guard := RequireAdmin(requester);
      if guard.Fail? {
        return Thrown(guard.message);
      }
      var found := FindOne(admins, Id, requester.value.claims.id, None);
      if found.None? {
        return Thrown(AdminNotFound);
      }
      var doc := admins[found.value];
      if !env.model.comparePassword(doc.passwordHash, current) {
        return Thrown(WrongCurrentPassword);
      }
      admins := admins[found.value := doc.(passwordHash := env.model.hashPassword(newPassword))];
      reply := Returned(PasswordChanged);
    }

    method Delete(requester: Option<Decoded>, id: AdminId) returns (reply: Reply<string>)
      modifies this
      ensures Step(reply, State()) == DeleteAdmin(old(State()), requester, id)
    {
      var guard := RequireAdmin(requester);
      if guard.Fail? {
        return Thrown(guard.message);
      }
      if requester.value.claims.id == id {
        return Thrown(SelfDeletion);
      }
      admins := RemoveById(admins, id);
      reply := Returned(AdminDeleted);
    }
  }
}
