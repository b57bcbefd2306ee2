/**
  The authentication handlers. A request becomes the handler's parameters,
  the reply becomes a `Response` value (status, message and the JSON body's
  other members), the database is a `Store` and the injected event publisher
  a `RabbitPublisher`. What the handlers take from outside (password hashing
  with a fresh salt, password comparison, the generated user id, the random
  reset token, the clock, the environment and the broker's behaviour) is
  passed in as parameters.
*/
module AuthController {
  import opened Wrappers
  import opened Events
  import opened UserModel
  import opened Publisher

  const RegisteredKey: string := "auth.user.registered"
  const LoggedInKey: string := "auth.user.logged_in"
  const ResetRequestedKey: string := "auth.password.reset_requested"
  const DeletedKey: string := "auth.user.deleted"

  /** A reset link is valid for ten minutes, in milliseconds. */
  const ResetTtl: int := 10 * 60 * 1000

  /** Used when `PASSWORD_RESET_BASE_URL` is unset or empty. */
  const DefaultResetBaseUrl: string := "http://localhost:3001"

  const ResetPath: string := "/reset-password?token="

  /** What a signed token carries; the signature and its 30-day expiry are not modelled. */
  datatype Claims = Claims(id: string, email: string, username: string, role: string)

  /** The columns `createUser` selects from the new row. */
  datatype NewUser = NewUser(userId: string, username: string, email: string, createdAt: int)

  /** The JSON members of a reply besides `message`. */
  datatype Body =
    | NoBody
    | Registered(user: NewUser, token: Claims)
    | LoggedIn(token: Claims)
    | Recovery(success: bool, username: Option<string>)
    | UserList(count: nat, users: seq<UserView>)

  datatype Response = Response(status: nat, message: string, body: Body)

  /** Where a handler's checks lead before it writes anything: an early reply,
      or the values the rest of the handler goes on with. */
  datatype Outcome<T> = Refuse(reply: Response) | Proceed(value: T)

  // --------------------------------------------------------------- events

  /** The payload of `USER_REGISTERED`. */
  function RegisteredEvent(userId: string, username: string, email: string, role: string, now: int): (e: Event)
    ensures e.eventType == "USER_REGISTERED" && e.occurredOn == now
    ensures Lookup(e.payload, UserIdKey) == Some(Str(userId))
    ensures Lookup(e.payload, UsernameKey) == Some(Str(username))
    ensures Lookup(e.payload, EmailKey) == Some(Str(email))
    ensures Lookup(e.payload, RoleKey) == Some(Str(role))
  {
    var p := [Field(UserIdKey, Str(userId)), Field(UsernameKey, Str(username)),
              Field(EmailKey, Str(email)), Field(RoleKey, Str(role))];
    LookupFirst(p, 0); LookupFirst(p, 1); LookupFirst(p, 2); LookupFirst(p, 3);
    Event("USER_REGISTERED", now, p)
  }

  /** The payload of `USER_LOGGED_IN`; an absent device token is `undefined`. */
  function LoggedInEvent(u: User, role: string, fcmToken: Option<string>, now: int): (e: Event)
    ensures e.eventType == "USER_LOGGED_IN" && e.occurredOn == now
    ensures Lookup(e.payload, UserIdKey) == Some(Str(u.userId))
    ensures Lookup(e.payload, UsernameKey) == Some(Str(u.username))
    ensures Lookup(e.payload, EmailKey) == Some(Str(u.email))
    ensures Lookup(e.payload, RoleKey) == Some(Str(role))
    ensures fcmToken.None? ==> Lookup(e.payload, FcmTokenKey) == Some(Undefined)
    ensures fcmToken.Some? ==> Lookup(e.payload, FcmTokenKey) == Some(Str(fcmToken.value))
    ensures Lookup(e.payload, LoginAtKey) == Some(Timestamp(now))
  {
    var token := if fcmToken.Some? then Str(fcmToken.value) else Undefined;
    var p := [Field(UserIdKey, Str(u.userId)), Field(UsernameKey, Str(u.username)),
              Field(EmailKey, Str(u.email)), Field(RoleKey, Str(role)),
              Field(FcmTokenKey, token), Field(LoginAtKey, Timestamp(now))];
    LookupFirst(p, 0); LookupFirst(p, 1); LookupFirst(p, 2); LookupFirst(p, 3);
    LookupFirst(p, 4); LookupFirst(p, 5);
    Event("USER_LOGGED_IN", now, p)
  }

  /** The payload of `PASSWORD_RECOVERY_REQUESTED`. */
  function RecoveryEvent(u: User, resetUrl: string, expiresAt: int, now: int): (e: Event)
    ensures e.eventType == "PASSWORD_RECOVERY_REQUESTED" && e.occurredOn == now
    ensures Lookup(e.payload, UserIdKey) == Some(Str(u.userId))
    ensures Lookup(e.payload, UsernameKey) == Some(Str(u.username))
    ensures Lookup(e.payload, EmailKey) == Some(Str(u.email))
    ensures Lookup(e.payload, ResetUrlKey) == Some(Str(resetUrl))
    ensures Lookup(e.payload, ExpiresAtKey) == Some(Timestamp(expiresAt))
  {
    var p := [Field(UserIdKey, Str(u.userId)), Field(UsernameKey, Str(u.username)),
              Field(EmailKey, Str(u.email)), Field(ResetUrlKey, Str(resetUrl)),
              Field(ExpiresAtKey, Timestamp(expiresAt))];
    LookupFirst(p, 0); LookupFirst(p, 1); LookupFirst(p, 2); LookupFirst(p, 3); LookupFirst(p, 4);
    Event("PASSWORD_RECOVERY_REQUESTED", now, p)
  }

  /** The payload of `USER_DELETED`: a user without a role is reported with role `user`. */
  function DeletedEvent(v: UserView, now: int): (e: Event)
    ensures e.eventType == "USER_DELETED" && e.occurredOn == now
    ensures Lookup(e.payload, UserIdKey) == Some(Str(v.userId))
    ensures Lookup(e.payload, UsernameKey) == Some(Str(v.username))
    ensures Lookup(e.payload, EmailKey) == Some(Str(v.email))
    ensures v.roleName.None? ==> Lookup(e.payload, RoleKey) == Some(Str("user"))
    ensures v.roleName.Some? ==> Lookup(e.payload, RoleKey) == Some(Str(v.roleName.value))
  {
    var role := if v.roleName.Some? then v.roleName.value else "user";
    var p := [Field(UserIdKey, Str(v.userId)), Field(UsernameKey, Str(v.username)),
              Field(EmailKey, Str(v.email)), Field(RoleKey, Str(role))];
    LookupFirst(p, 0); LookupFirst(p, 1); LookupFirst(p, 2); LookupFirst(p, 3);
    Event("USER_DELETED", now, p)
  }

  /** `process.env.PASSWORD_RESET_BASE_URL || 'http://localhost:3001'`. */
  function ResetBaseUrl(env: Option<string>): (base: string)
    ensures Truthy(env) ==> base == env.value
    ensures !Truthy(env) ==> base == DefaultResetBaseUrl
    ensures base != ""
  {
    if Truthy(env) then env.value else DefaultResetBaseUrl
  }

  /** The reset link: the base, then the reset path, then the token. */
  function ResetUrl(base: string, token: string): string
  {
    base + ResetPath + token
  }

  /** The link starts with its base and the reset path, and the token can be read back from its end. */
  lemma ResetUrlParts(base: string, token: string)
    ensures var url := ResetUrl(base, token);
      && |url| == |base| + |ResetPath| + |token|
      && url[..|base|] == base
      && url[|base|..|base| + |ResetPath|] == ResetPath
      && url[|base| + |ResetPath|..] == token
  {
  }

  // -------------------------------------------------------------- register

  const EmailTaken: Response := Response(409, "User with this email already exists.", NoBody)
  const UsernameTaken: Response := Response(409, "Username is already taken.", NoBody)
  const NoDefaultRole: Response := Response(500, "System configuration error.", NoBody)
  const RegistrationFailed: Response := Response(500, "Internal server error during registration.", NoBody)

  /** The checks of `register` in their order: a taken email, a taken
      username, a missing `user` role, and the insert's own refusal of a taken
      id. Registration goes ahead exactly when the new row collides with no
      stored user, with the stored role named `user`. */
  function RegisterCheck(users: seq<User>, roles: seq<Role>, username: string, email: string, userId: string)
    : (r: Outcome<Role>)
    ensures (exists u | u in users :: u.email == email) ==> r == Refuse(EmailTaken)
    ensures (forall u | u in users :: u.email != email) && (exists u | u in users :: u.username == username) ==>
      r == Refuse(UsernameTaken)
    ensures (forall u | u in users :: u.email != email && u.username != username)
            && (forall x | x in roles :: x.roleName != "user") ==>
      r == Refuse(NoDefaultRole)
    ensures (forall u | u in users :: u.email != email && u.username != username)
            && (exists x | x in roles :: x.roleName == "user")
            && (exists u | u in users :: u.userId == userId) ==>
      r == Refuse(RegistrationFailed)
    ensures r.Proceed? <==>
      && (forall u | u in users :: u.email != email && u.username != username && u.userId != userId)
      && (exists x | x in roles :: x.roleName == "user")
    ensures r.Proceed? ==> r.value in roles && r.value.roleName == "user"
  {
    if FindUserByEmail(users, email).Some? then Refuse(EmailTaken)
    else if FindUserByUsername(users, username).Some? then Refuse(UsernameTaken)
    else match FindRoleByName(roles, "user")
      case None => Refuse(NoDefaultRole)
      case Some(role) =>
        if UserWithId(users, userId).Some? then Refuse(RegistrationFailed) else Proceed(role)
  }

  /** `register`: after `RegisterCheck` lets it through, store the user,
      publish `USER_REGISTERED`, store a truthy device token, and reply 201
      whatever the publisher did. */
  method Register(store: Store, pub: RabbitPublisher, username: string, email: string, password: string,
                  fcmToken: Option<string>, hash: (string, string) -> string, salt: string,
                  newUserId: string, now: int, lazy: ConnectOutcome, confirm: ConfirmOutcome)
    returns (res: Response)
    requires store.Valid() && pub.Valid()
    modifies store, pub
    ensures store.Valid() && pub.Valid()
    ensures var check := RegisterCheck(old(store.users), old(store.roles), username, email, newUserId);
      check.Refuse? ==> res == check.reply && unchanged(store) && unchanged(pub)
    ensures var check := RegisterCheck(old(store.users), old(store.roles), username, email, newUserId);
      check.Proceed? ==>
        var role := check.value;
        && res == Response(201, "User registered successfully.",
                           Registered(NewUser(newUserId, username, email, now),
                                      Claims(newUserId, email, username, role.roleName)))
        && store.users == old(store.users) + [User(newUserId, username, email, hash(password, salt), role.roleId, now)]
        && store.roles == old(store.roles) && store.resets == old(store.resets)
        && store.deviceTokens == WithDeviceToken(old(store.deviceTokens), newUserId, fcmToken, old(store.nextTokenId), now)
        && store.nextTokenId == (if !Truthy(fcmToken) || HasToken(old(store.deviceTokens), newUserId, fcmToken.value)
                                 then old(store.nextTokenId) else old(store.nextTokenId) + 1)
        && pub.clock == old(pub.clock) && pub.closeCalls == old(pub.closeCalls)
        && PublishStep(old(pub.LinkState()), old(pub.sent), pub.LinkState(), pub.sent, pub.clock, lazy, confirm,
                       Message(ExchangeName, RegisteredKey, RegisteredEvent(newUserId, username, email, role.roleName, now), true))
  {
    var check := RegisterCheck(store.users, store.roles, username, email, newUserId);
    if check.Refuse? {
      return check.reply;
    }
    var role := check.value;
    var created := store.CreateUser(newUserId, username, email, hash(password, salt), role.roleId, now);
    var _ := pub.Publish(RegisteredKey, RegisteredEvent(newUserId, username, email, role.roleName, now), lazy, confirm);
    store.AddDeviceToken(newUserId, fcmToken, now);
    res := Response(201, "User registered successfully.",
                    Registered(NewUser(newUserId, username, email, now),
                               Claims(newUserId, email, username, role.roleName)));
  }

  // ----------------------------------------------------------------- login

  /** The one reply for an unknown email and for a wrong password alike. */
  const InvalidCredentials: Response := Response(401, "Invalid credentials.", NoBody)
  const LoginFailed: Response := Response(500, "Internal server error during login.", NoBody)

  /** The checks of `login`: the user with that email, a matching password,
      and a readable role. A refusal never tells an unknown email from a
      wrong password. */
  function LoginCheck(users: seq<User>, roles: seq<Role>, email: string, password: string,
                      compare: (string, string) -> bool): (r: Outcome<(User, string)>)
    ensures (forall u | u in users :: u.email != email) ==> r == Refuse(InvalidCredentials)
    ensures FindUserByEmail(users, email).Some? && !compare(password, FindUserByEmail(users, email).value.passwordHash) ==>
      r == Refuse(InvalidCredentials)
    ensures FindUserByEmail(users, email).Some? && compare(password, FindUserByEmail(users, email).value.passwordHash)
            && RoleWithId(roles, FindUserByEmail(users, email).value.roleId).None? ==>
      r == Refuse(LoginFailed)
    ensures r.Refuse? ==> r.reply == InvalidCredentials || r.reply == LoginFailed
    ensures r.Proceed? ==>
      && r.value.0 == FindUserByEmail(users, email).value
      && compare(password, r.value.0.passwordHash)
      && RoleWithId(roles, r.value.0.roleId).Some?
      && r.value.1 == RoleWithId(roles, r.value.0.roleId).value.roleName
    ensures FindUserByEmail(users, email).Some? && compare(password, FindUserByEmail(users, email).value.passwordHash) ==>
      (r.Proceed? <==> exists x | x in roles :: x.roleId == FindUserByEmail(users, email).value.roleId)
  {
    match FindUserByEmail(users, email)
    case None => Refuse(InvalidCredentials)
    case Some(u) =>
      if !compare(password, u.passwordHash) then Refuse(InvalidCredentials)
      else match RoleNameOf(roles, u)
        case None => Refuse(LoginFailed)
        case Some(role) => Proceed((u, role))
  }

  /** `login`: after `LoginCheck` lets it through, publish `USER_LOGGED_IN`,
      store a truthy device token, and reply 200 with the token's claims
      whatever the publisher did. */
  method Login(store: Store, pub: RabbitPublisher, email: string, password: string, fcmToken: Option<string>,
               compare: (string, string) -> bool, now: int, lazy: ConnectOutcome, confirm: ConfirmOutcome)
    returns (res: Response)
    requires store.Valid() && pub.Valid()
    modifies store, pub
    ensures store.Valid() && pub.Valid()
    ensures var check := LoginCheck(old(store.users), old(store.roles), email, password, compare);
      check.Refuse? ==> res == check.reply && unchanged(store) && unchanged(pub)
    ensures var check := LoginCheck(old(store.users), old(store.roles), email, password, compare);
      check.Proceed? ==>
        var (u, role) := check.value;
        && res == Response(200, "Logged in successfully.", LoggedIn(Claims(u.userId, u.email, u.username, role)))
        && store.users == old(store.users) && store.roles == old(store.roles) && store.resets == old(store.resets)
        && store.deviceTokens == WithDeviceToken(old(store.deviceTokens), u.userId, fcmToken, old(store.nextTokenId), now)
        && store.nextTokenId == (if !Truthy(fcmToken) || HasToken(old(store.deviceTokens), u.userId, fcmToken.value)
                                 then old(store.nextTokenId) else old(store.nextTokenId) + 1)
        && pub.clock == old(pub.clock) && pub.closeCalls == old(pub.closeCalls)
        && PublishStep(old(pub.LinkState()), old(pub.sent), pub.LinkState(), pub.sent, pub.clock, lazy, confirm,
                       Message(ExchangeName, LoggedInKey, LoggedInEvent(u, role, fcmToken, now), true))
  {
    var check := LoginCheck(store.users, store.roles, email, password, compare);
    if check.Refuse? {
      return check.reply;
    }
    var (u, role) := check.value;
    var _ := pub.Publish(LoggedInKey, LoggedInEvent(u, role, fcmToken, now), lazy, confirm);
    store.AddDeviceToken(u.userId, fcmToken, now);
    res := Response(200, "Logged in successfully.", LoggedIn(Claims(u.userId, u.email, u.username, role)));
  }

  // ------------------------------------------------------- recover password

  const RecoveryUnknown: Response :=
    Response(200, "If the email exists, recovery instructions were sent.", Recovery(true, None))
  const RecoveryFailed: Response := Response(500, "Internal server error during password recovery.", NoBody)

  /** `recoverPassword`: an unknown email gets a success reply and changes
      nothing; otherwise the user's earlier reset records are invalidated, a
      new one valid for ten minutes is stored, `PASSWORD_RECOVERY_REQUESTED`
      is published with the reset link, and the reply is a success naming the
      user whatever the publisher did. A token already stored makes the insert
      fail after the invalidation. */
  method RecoverPassword(store: Store, pub: RabbitPublisher, email: string, resetToken: string,
                         baseUrlEnv: Option<string>, now: int, lazy: ConnectOutcome, confirm: ConfirmOutcome)
    returns (res: Response)
    requires store.Valid() && pub.Valid()
    modifies store, pub
    ensures store.Valid() && pub.Valid()
    ensures FindUserByEmail(old(store.users), email).None? ==>
      res == RecoveryUnknown && unchanged(store) && unchanged(pub)
    ensures store.users == old(store.users) && store.roles == old(store.roles)
    ensures store.deviceTokens == old(store.deviceTokens) && store.nextTokenId == old(store.nextTokenId)
    ensures var found := FindUserByEmail(old(store.users), email);
      found.Some? && FindPasswordResetToken(old(store.resets), resetToken).Some? ==>
        && res == RecoveryFailed
        && store.resets == InvalidateResets(old(store.resets), found.value.userId)
        && unchanged(pub)
    ensures var found := FindUserByEmail(old(store.users), email);
      found.Some? && FindPasswordResetToken(old(store.resets), resetToken).None? ==>
        var u := found.value;
        && res == Response(200, "Password recovery instructions sent to email.", Recovery(true, Some(u.username)))
        && store.resets == InvalidateResets(old(store.resets), u.userId)
                           + [PasswordReset(u.userId, resetToken, now + ResetTtl, false)]
        && pub.clock == old(pub.clock) && pub.closeCalls == old(pub.closeCalls)
        && PublishStep(old(pub.LinkState()), old(pub.sent), pub.LinkState(), pub.sent, pub.clock, lazy, confirm,
                       Message(ExchangeName, ResetRequestedKey, RecoveryEvent(u, ResetUrl(ResetBaseUrl(baseUrlEnv), resetToken),
                                     now + ResetTtl, now), true))
  {
    var found := FindUserByEmail(store.users, email);
    if found.None? {
      return RecoveryUnknown;
    }
    res := RecoverFor(store, pub, found.value, resetToken, baseUrlEnv, now, lazy, confirm);
  }

  /** The part of `recoverPassword` after the user `u` is found. */
  method RecoverFor(store: Store, pub: RabbitPublisher, u: User, resetToken: string,
                    baseUrlEnv: Option<string>, now: int, lazy: ConnectOutcome, confirm: ConfirmOutcome)
    returns (res: Response)
    requires store.Valid() && pub.Valid()
    modifies store`resets, pub
    ensures store.Valid() && pub.Valid()
    ensures store.users == old(store.users) && store.roles == old(store.roles)
    ensures store.deviceTokens == old(store.deviceTokens) && store.nextTokenId == old(store.nextTokenId)
    ensures FindPasswordResetToken(old(store.resets), resetToken).Some? ==>
      && res == RecoveryFailed
      && store.resets == InvalidateResets(old(store.resets), u.userId)
      && unchanged(pub)
    ensures FindPasswordResetToken(old(store.resets), resetToken).None? ==>
      && res == Response(200, "Password recovery instructions sent to email.", Recovery(true, Some(u.username)))
      && store.resets == InvalidateResets(old(store.resets), u.userId)
                         + [PasswordReset(u.userId, resetToken, now + ResetTtl, false)]
      && pub.clock == old(pub.clock) && pub.closeCalls == old(pub.closeCalls)
      && PublishStep(old(pub.LinkState()), old(pub.sent), pub.LinkState(), pub.sent, pub.clock, lazy, confirm,
                     Message(ExchangeName, ResetRequestedKey, RecoveryEvent(u, ResetUrl(ResetBaseUrl(baseUrlEnv), resetToken),
                                     now + ResetTtl, now), true))
  {
    ghost var before := store.resets;
    store.InvalidatePreviousResetTokens(u.userId);
    InvalidateKeepsTokens(before, u.userId, resetToken);
    var expiresAt := now + ResetTtl;
    var created := store.CreatePasswordReset(u.userId, resetToken, expiresAt);
    if !created {
      return RecoveryFailed;
    }
    var resetUrl := ResetUrl(ResetBaseUrl(baseUrlEnv), resetToken);
    var _ := pub.Publish(ResetRequestedKey, RecoveryEvent(u, resetUrl, expiresAt, now), lazy, confirm);
    res := Response(200, "Password recovery instructions sent to email.", Recovery(true, Some(u.username)));
  }

  /** After a successful recovery request the new record is the user's only
      unused one, and its token finds it. */
  lemma NewResetIsOnlyUnused(resets: seq<PasswordReset>, userId: string, token: string, expiresAt: int)
    requires FindPasswordResetToken(resets, token).None?
    ensures var after := InvalidateResets(resets, userId) + [PasswordReset(userId, token, expiresAt, false)];
      && (forall x | x in after && x.userId == userId && !x.used :: x.token == token)
      && FindPasswordResetToken(after, token) == Some(PasswordReset(userId, token, expiresAt, false))
  {
    InvalidateKeepsTokens(resets, userId, token);
    FindAfterAppend(InvalidateResets(resets, userId), PasswordReset(userId, token, expiresAt, false));
  }

  /** Looking up the token of a record appended to a table that lacks it finds that record. */
  lemma {:induction false} FindAfterAppend(resets: seq<PasswordReset>, row: PasswordReset)
    requires FindPasswordResetToken(resets, row.token).None?
    ensures FindPasswordResetToken(resets + [row], row.token) == Some(row)
  {
    if resets != [] {
      assert (resets + [row])[1..] == resets[1..] + [row];
      FindAfterAppend(resets[1..], row);
    }
  }

  // --------------------------------------------------------- reset password

  const UnknownResetToken: Response := Response(400, "Invalid or expired reset token.", NoBody)
  const ResetTokenUsed: Response := Response(400, "This reset link has already been used.", NoBody)
  const ResetTokenExpired: Response := Response(400, "Reset token has expired.", NoBody)
  const ResetFailed: Response := Response(500, "Internal server error during password reset.", NoBody)

  /** The checks of `resetPassword` in their order: an unknown token, a used
      one, an expired one, and the password update's refusal of a user that
      no longer exists. The reset goes ahead exactly with an unused,
      unexpired record of an existing user. */
  function ResetCheck(resets: seq<PasswordReset>, users: seq<User>, token: string, now: int)
    : (r: Outcome<PasswordReset>)
    ensures (forall x | x in resets :: x.token != token) ==> r == Refuse(UnknownResetToken)
    ensures var rec := FindPasswordResetToken(resets, token);
      rec.Some? && rec.value.used ==> r == Refuse(ResetTokenUsed)
    ensures var rec := FindPasswordResetToken(resets, token);
      rec.Some? && !rec.value.used && now > rec.value.expiresAt ==> r == Refuse(ResetTokenExpired)
    ensures var rec := FindPasswordResetToken(resets, token);
      rec.Some? && !rec.value.used && now <= rec.value.expiresAt && (forall u | u in users :: u.userId != rec.value.userId) ==>
        r == Refuse(ResetFailed)
    ensures r.Refuse? ==> r.reply.status != 200
    ensures var rec := FindPasswordResetToken(resets, token);
      r.Proceed? <==>
        rec.Some? && !rec.value.used && now <= rec.value.expiresAt
        && exists u | u in users :: u.userId == rec.value.userId
    ensures r.Proceed? ==>
      && r.value == FindPasswordResetToken(resets, token).value
      && r.value in resets && r.value.token == token
      && !r.value.used && now <= r.value.expiresAt
      && (exists u | u in users :: u.userId == r.value.userId)
  {
    match FindPasswordResetToken(resets, token)
    case None => Refuse(UnknownResetToken)
    case Some(rec) =>
      if rec.used then Refuse(ResetTokenUsed)
      else if now > rec.expiresAt then Refuse(ResetTokenExpired)
      else if UserWithId(users, rec.userId).None? then Refuse(ResetFailed)
      else Proceed(rec)
  }

  /** `resetPassword`: after `ResetCheck` lets it through, the user's password
      hash is replaced and the record is marked used. */
  method ResetPassword(store: Store, token: string, password: string,
                       hash: (string, string) -> string, salt: string, now: int)
    returns (res: Response)
    requires store.Valid()
    modifies store
    ensures store.Valid()
    ensures store.roles == old(store.roles) && store.deviceTokens == old(store.deviceTokens)
    ensures store.nextTokenId == old(store.nextTokenId)
    ensures var check := ResetCheck(old(store.resets), old(store.users), token, now);
      check.Refuse? ==> res == check.reply && unchanged(store)
    ensures var check := ResetCheck(old(store.resets), old(store.users), token, now);
      check.Proceed? ==>
        && res == Response(200, "Password reset successfully.", NoBody)
        && store.users == SetPassword(old(store.users), check.value.userId, hash(password, salt))
        && store.resets == MarkUsed(old(store.resets), token)
  {
    var check := ResetCheck(store.resets, store.users, token, now);
    if check.Refuse? {
      return check.reply;
    }
    var _ := store.UpdateUserPassword(check.value.userId, hash(password, salt));
    var _ := store.MarkResetTokenAsUsed(token);
    res := Response(200, "Password reset successfully.", NoBody);
  }

  /** Resetting twice with one token: once the first reset succeeds, the second is refused as already used. */
  method ResetTwice(store: Store, token: string, first: string, second: string,
                    hash: (string, string) -> string, salt: string, now: int, later: int)
    returns (r1: Response, r2: Response)
    requires store.Valid()
    modifies store
    ensures r1.status == 200 ==> r2 == ResetTokenUsed
  {
    ghost var before := store.resets;
    r1 := ResetPassword(store, token, first, hash, salt, now);
    if r1.status == 200 {
      MarkUsedThenFind(before, token);
    }
    r2 := ResetPassword(store, token, second, hash, salt, later);
  }

  // ------------------------------------------------------ public user list

  /** `users.filter(user => user.user_id !== currentUserId)`. */
  function ExcludeUser(users: seq<UserView>, currentUserId: string): (r: seq<UserView>)
    ensures |r| <= |users|
  {
    if users == [] then []
    else (if users[0].userId == currentUserId then [] else [users[0]]) + ExcludeUser(users[1..], currentUserId)
  }

  /** The filter keeps exactly the listed users other than the requester. */
  lemma {:induction false} ExcludeUserMembers(users: seq<UserView>, currentUserId: string)
    ensures forall x | x in ExcludeUser(users, currentUserId) :: x in users && x.userId != currentUserId
    ensures forall x | x in users && x.userId != currentUserId :: x in ExcludeUser(users, currentUserId)
  {
    if users != [] {
      ExcludeUserMembers(users[1..], currentUserId);
      assert users == [users[0]] + users[1..];
    }
  }

  /** Filtering keeps the listing's order: filtering a concatenation concatenates the filtered parts. */
  lemma {:induction false} ExcludeUserConcat(a: seq<UserView>, b: seq<UserView>, currentUserId: string)
    ensures ExcludeUser(a + b, currentUserId) == ExcludeUser(a, currentUserId) + ExcludeUser(b, currentUserId)
  {
    if a == [] {
      assert a + b == b;
    } else {
      var head := if a[0].userId == currentUserId then [] else [a[0]];
      assert (a + b)[0] == a[0];
      assert (a + b)[1..] == a[1..] + b;
      ExcludeUserConcat(a[1..], b, currentUserId);
      calc {
        ExcludeUser(a + b, currentUserId);
        head + ExcludeUser(a[1..] + b, currentUserId);
        head + (ExcludeUser(a[1..], currentUserId) + ExcludeUser(b, currentUserId));
        (head + ExcludeUser(a[1..], currentUserId)) + ExcludeUser(b, currentUserId);
      }
    }
  }

  /** When the current user is not listed, the filter returns the listing unchanged. */
  lemma {:induction false} ExcludeAbsentUser(users: seq<UserView>, currentUserId: string)
    requires forall x | x in users :: x.userId != currentUserId
    ensures ExcludeUser(users, currentUserId) == users
  {
    if users != [] {
      ExcludeAbsentUser(users[1..], currentUserId);
    }
  }

  /** `getAllUsersPublic`, given the rows the query returns in its order: every
      user but the requester, in the same order, with their count. */
  function GetAllUsersPublic(listed: seq<UserView>, currentUserId: string): (res: Response)
    ensures res.status == 200 && res.message == "Users retrieved successfully"
    ensures res.body.UserList? && res.body.count == |res.body.users|
    ensures res.body.users == ExcludeUser(listed, currentUserId)
    ensures forall x | x in res.body.users :: x.userId != currentUserId
    ensures forall x | x in listed :: x in res.body.users <==> x.userId != currentUserId
  {
    var filtered := ExcludeUser(listed, currentUserId);
    ExcludeUserMembers(listed, currentUserId);
    Response(200, "Users retrieved successfully", UserList(|filtered|, filtered))
  }

  // -------------------------------------------------------- delete account

  const DeleteFailed: Response := Response(500, "Internal server error during delete account.", NoBody)
  const UserNotFound: Response := Response(404, "User not found.", NoBody)
  const AccountDeleted: Response := Response(200, "Account deleted successfully.", NoBody)

  /** The checks of `deleteAccountByUser`: a usable token (`decoded` is its
      user id, `None` when the header or the token is unusable) and an
      existing user, whose selected columns the handler goes on with. */
  function DeleteCheck(users: seq<User>, roles: seq<Role>, decoded: Option<string>): (r: Outcome<UserView>)
    ensures decoded.None? ==> r == Refuse(DeleteFailed)
    ensures decoded.Some? && (forall u | u in users :: u.userId != decoded.value) ==> r == Refuse(UserNotFound)
    ensures r.Proceed? <==> decoded.Some? && exists u | u in users :: u.userId == decoded.value
    ensures r.Proceed? ==> r.value.userId == decoded.value && exists u | u in users :: r.value == ViewOf(roles, u)
  {
    if decoded.None? then Refuse(DeleteFailed)
    else match FindUserById(users, roles, decoded.value)
      case None => Refuse(UserNotFound)
      case Some(view) => Proceed(view)
  }

  /** `deleteAccountByUser` as written: past its checks it calls a
      `deleteUser` that the user model does not export, so an existing user
      always ends in the catch-all 500, and nothing is deleted or published. */
  function DeleteAccountByUserAsWritten(users: seq<User>, roles: seq<Role>, decoded: Option<string>): (res: Response)
    ensures res.status != 200
    ensures res.status == 404 <==> decoded.Some? && (forall u | u in users :: u.userId != decoded.value)
    ensures res.status != 404 ==> res == DeleteFailed
  {
    match DeleteCheck(users, roles, decoded)
    case Refuse(reply) => reply
    case Proceed(_) => DeleteFailed
  }

  /** `deleteAccountByUser` as intended: past its checks, delete the user,
      publish `USER_DELETED` (role `user` when it has none) and reply 200
      whatever the publisher did. */
  method DeleteAccountByUser(store: Store, pub: RabbitPublisher, decoded: Option<string>, now: int,
                             lazy: ConnectOutcome, confirm: ConfirmOutcome)
    returns (res: Response)
    requires store.Valid() && pub.Valid()
    modifies store, pub
    ensures store.Valid() && pub.Valid()
    ensures var check := DeleteCheck(old(store.users), old(store.roles), decoded);
      check.Refuse? ==> res == check.reply && unchanged(store) && unchanged(pub)
    ensures var check := DeleteCheck(old(store.users), old(store.roles), decoded);
      check.Proceed? ==>
        && res == AccountDeleted
        && store.users == WithoutUser(old(store.users), decoded.value)
        && (forall u | u in store.users :: u.userId != decoded.value)
        && store.roles == old(store.roles) && store.resets == old(store.resets)
        && store.deviceTokens == old(store.deviceTokens) && store.nextTokenId == old(store.nextTokenId)
        && pub.clock == old(pub.clock) && pub.closeCalls == old(pub.closeCalls)
        && PublishStep(old(pub.LinkState()), old(pub.sent), pub.LinkState(), pub.sent, pub.clock, lazy, confirm,
                       Message(ExchangeName, DeletedKey, DeletedEvent(check.value, now), true))
  {
    var check := DeleteCheck(store.users, store.roles, decoded);
    if check.Refuse? {
      return check.reply;
    }
    var _ := store.DeleteUser(decoded.value);
    var _ := pub.Publish(DeletedKey, DeletedEvent(check.value, now), lazy, confirm);
    res := AccountDeleted;
  }

  /** For an existing user with a usable token, the handler as written replies
      500 where the intended one replies 200. */
  method DeleteAccountDiscrepancy() returns (asWritten: Response, intended: Response)
    ensures asWritten == DeleteFailed
    ensures intended == AccountDeleted
  {
    var store := new Store([Role(1, "user")]);
    var pub := new RabbitPublisher();
    var _ := store.CreateUser("u1", "alice", "a@x.com", "h", 1, 0);
    asWritten := DeleteAccountByUserAsWritten(store.users, store.roles, Some("u1"));
    intended := DeleteAccountByUser(store, pub, Some("u1"), 1, Ok, Ack);
  }

  // ------------------------------------------------------------- scenarios

  /** A new user asks for a password reset: the reply names the user, the
      stored record is the user's only unused one, valid for ten minutes, and
      only the recovery event reaches the broker, which was down at registration. */
  method RegisterThenRecover()
    returns (registered: Response, recovered: Response, resets: seq<PasswordReset>, submitted: nat)
    ensures registered.status == 201
    ensures submitted == 1
    ensures recovered == Response(200, "Password recovery instructions sent to email.", Recovery(true, Some("alice")))
    ensures resets == [PasswordReset("u1", "t", 10 + ResetTtl, false)]
  {
    var store := new Store([Role(1, "user")]);
    var pub := new RabbitPublisher();
    registered := Register(store, pub, "alice", "a@x.com", "pw", Some("fcm"), (p, s) => s + p, "salt", "u1", 0,
                           FailAtConnect, Ack);
    recovered := RecoverPassword(store, pub, "a@x.com", "t", None, 10, Ok, Ack);
    resets := store.resets;
    submitted := |pub.sent|;
  }

  /** A reset link works once: the password changes, and using the link again is refused. */
  method ResetThenReuse() returns (reset: Response, reused: Response, hash: string)
    ensures reset == Response(200, "Password reset successfully.", NoBody)
    ensures reused == ResetTokenUsed
    ensures hash == "saltpw2"
  {
    var store := new Store([Role(1, "user")]);
    var _ := store.CreateUser("u1", "alice", "a@x.com", "saltpw", 1, 0);
    var _ := store.CreatePasswordReset("u1", "t", 100);
    reset := ResetPassword(store, "t", "pw2", (p, s) => s + p, "salt", 20);
    assert store.resets == [PasswordReset("u1", "t", 100, true)];
    reused := ResetPassword(store, "t", "pw3", (p, s) => s + p, "salt", 30);
    hash := store.users[0].passwordHash;
  }
}
