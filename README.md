# Authentication service: handlers, user tables and event publisher

This project models the core of a Node.js authentication service in Dafny:

- the request handlers that register users, log them in, start and complete
  a password reset, delete an account and list the other users;
- the data-access functions they call over the `users`, `roles`,
  `device_tokens` and `password_resets` tables;
- the RabbitMQ publisher that turns each successful registration, login,
  recovery request and account deletion into a domain event on the
  `domain_events` topic exchange, through a confirm channel.

Layout:

- `wrappers.dfy`: `Option`.
- `events.dfy`: the event value (type, moment, ordered payload fields) and
  property lookup on a payload.
- `publisher.dfy`: class `RabbitPublisher`. It holds the connection, the
  channel, the `isConnecting` flag and the pending `setTimeout` callbacks,
  plus a record of what the broker saw: connections opened, connections
  still live, messages submitted and close requests. Short scenario methods
  drive it through startup, failure and recovery.
- `user_model.dfy`:
  - the table rows;
  - each Prisma read as a function over a table;
  - class `Store`, whose methods reassign the table they write;
  - lemmas about the device-token table: at most three tokens per user,
    increasing keys, other users untouched;
  - lemmas about the reset-token table.
- `auth_controller.dfy`:
  - pure "check" functions for the early replies of registration, login,
    password reset and account deletion;
  - the handlers that write: methods over a `Store`, and over a
    `RabbitPublisher` when they publish. They are proved against their
    check functions and the table functions. `RecoverPassword` does its
    lookup itself and hands the found user to `RecoverFor`;
  - the read-only listing `GetAllUsersPublic`, and the delete handler as
    written (`DeleteAccountByUserAsWritten`), as functions;
  - event builders and end-to-end scenarios.

Parameters take the place of everything the handlers get from outside:

- the hashing function and its salt, and the password comparison;
- the generated user id and the random reset token;
- the clock;
- the `PASSWORD_RESET_BASE_URL` environment variable;
- the broker's answers to each awaited step.

## Model

| member | source | states |
|---|---|---|
| Events.LookupMembers | src/controllers/authController.js:47-56 | reading a payload property finds nothing exactly when no field has that name, and otherwise finds the value of a field with that name |
| Events.LookupFirst | src/controllers/authController.js:47-56 | the first field with a given name is what reading that property returns |
| Publisher.RabbitPublisher.constructor | src/infraestructure/providers/rabbit_publisher.js:7-11 | a new publisher has no connection, no channel, is not connecting and has nothing pending |
| Publisher.RabbitPublisher.Schedule | src/infraestructure/providers/rabbit_publisher.js:41 | a retry callback is queued 3000 ms after the current time, and pending callbacks stay in due order |
| Publisher.RabbitPublisher.BeginConnect | src/infraestructure/providers/rabbit_publisher.js:14-16 | a connect starts only when none is in flight; afterwards one is in flight |
| Publisher.RabbitPublisher.FinishConnect | src/infraestructure/providers/rabbit_publisher.js:18-42 | a connect opens one connection unless the broker refuses it; a channel is kept when the channel opens, even if asserting the exchange then fails; every failure clears the flag and queues exactly one reconnect 3000 ms later |
| Publisher.RabbitPublisher.Reconnect | src/infraestructure/providers/rabbit_publisher.js:45-49 | both handles are dropped and one connect is queued 3000 ms later |
| Publisher.RabbitPublisher.OnConnectionClose | src/infraestructure/providers/rabbit_publisher.js:21-26 | a close event leads to a reconnect exactly when it carries no error or an error whose code is not 320; otherwise handles and timers are left as they were |
| Publisher.RabbitPublisher.Tick | src/infraestructure/providers/rabbit_publisher.js:38-49 | the earliest pending callback fires at its due time: a reconnect clears the handles and queues a connect, and a connect begins |
| Publisher.RabbitPublisher.Publish | src/infraestructure/providers/rabbit_publisher.js:57-87 | without a channel and with no connect in flight it runs one connect first, and the handles, counters and timers become exactly those of that connect; it answers false if still without a channel; it submits one persistent message to `domain_events` exactly when a channel is then there and submission does not throw, and answers with the broker's confirm, or rejects if submission throws |
| Publisher.SubmitsIffChannel | src/infraestructure/providers/rabbit_publisher.js:57-87 | a publish submits its message exactly when the publisher has a channel after the lazy connect and submission does not throw; nothing is submitted while a connect is in flight |
| Publisher.RabbitPublisher.Close | src/infraestructure/providers/rabbit_publisher.js:89-97 | closes the channel and then the connection, skipping absent ones; a failed channel close stops the sequence and is swallowed |
| Publisher.CoalescedConnect | src/infraestructure/providers/rabbit_publisher.js:14-16 | two overlapping connects open a single connection |
| Publisher.FailedConnectRetries | src/infraestructure/providers/rabbit_publisher.js:38-49 | any failed connect clears the handles at +3000 ms and starts a new connect at +6000 ms |
| Publisher.RecoversAfterDrop | src/infraestructure/providers/rabbit_publisher.js:21-26 | after an unexpected drop the publisher is connected again 3000 ms later, on a second connection |
| Publisher.ForcedCloseStaysDown | src/infraestructure/providers/rabbit_publisher.js:23 | a close with code 320 queues nothing and keeps the dead channel |
| Publisher.PublishDuringConnect | src/infraestructure/providers/rabbit_publisher.js:58-64 | publishing while a connect is in flight answers false, submits nothing and opens nothing |
| Publisher.UnreachableThenPublish | src/infraestructure/providers/rabbit_publisher.js:58-86 | a broker unreachable at startup is connected lazily by the first publish, which is delivered and confirmed |
| Publisher.PublishAfterExchangeFailure | src/infraestructure/providers/rabbit_publisher.js:32-41 | after a connect that fails at the exchange, publish still uses the channel while a reconnect is pending |
| Publisher.CloseThenCleanCloseEvent | src/infraestructure/providers/rabbit_publisher.js:21-26 | closing the publisher and then receiving the clean close event schedules a reconnect |
| UserModel.FindUserByEmail | src/models/userModel.js:10-15 | the user found has that email; none is found exactly when no user has it |
| UserModel.FindUserByUsername | src/models/userModel.js:22-26 | the user found has that username; none is found exactly when no user has it |
| UserModel.UserWithId | src/models/userModel.js:138-143 | the row an update or delete by `user_id` targets; it is absent exactly when no user has that id |
| UserModel.RoleWithId | src/models/userModel.js:40 | the role row a user's role relation resolves to; absent exactly when no role has that id |
| UserModel.FindRoleByName | src/controllers/authController.js:27 | the role found has that name; none is found exactly when no role has it |
| UserModel.FindUserById | src/models/userModel.js:33-44 | the selected columns of a stored user with that id; absent exactly when no user has that id |
| UserModel.WithoutUser | src/controllers/authController.js:372 | after deleting a user id the table holds exactly the other users |
| UserModel.TokensOf | src/models/userModel.js:170-172 | one user's rows never outnumber the table's rows |
| UserModel.TokensOfMembers | src/models/userModel.js:170-172 | one user's rows are exactly the table rows that user owns |
| UserModel.FindDeviceToken | src/models/userModel.js:156-163 | finds a row exactly when the user already holds that token, and the row found has that owner and token |
| UserModel.FindOldestDeviceToken | src/models/userModel.js:176-179 | finds nothing exactly when the user has no rows; otherwise finds one of the user's rows with the earliest creation time |
| UserModel.Without | src/models/userModel.js:182-184 | a delete leaves exactly the rows its filter does not select |
| UserModel.DeleteDeviceTokenById | src/models/userModel.js:182-184 | deleting by key leaves exactly the rows with other keys |
| UserModel.DeleteDeviceTokens | src/models/userModel.js:207-212 | deleting by owner and token leaves exactly the other rows, and the user no longer holds that token |
| UserModel.TokensOfConcat | src/models/userModel.js:170-172 | counting a user's rows distributes over table concatenation |
| UserModel.ReplaceAtTokens | src/models/userModel.js:182-194 | evicting one row and appending another changes only the counts of their owners |
| UserModel.DeleteByIdRemovesOne | src/models/userModel.js:182-184 | with unique increasing keys, deleting a row's key removes exactly that row |
| UserModel.WithoutRemovesOne | src/models/userModel.js:182-184 | deleting a key only one row carries removes exactly that row and keeps the order of the rest |
| UserModel.WithoutKeepsIds | src/models/userModel.js:182-212 | deletes keep row keys increasing and below the next key |
| UserModel.WithoutTokensOf | src/models/userModel.js:207-212 | deletes never give any user more rows, and leave every user whose rows are not selected untouched |
| UserModel.InsertFacts | src/models/userModel.js:189-194 | a new row for a user below capacity keeps every user within three rows, gives that user one more, and leaves every other user untouched |
| UserModel.EvictInsertFacts | src/models/userModel.js:175-194 | replacing a user's row with a new one keeps that user's count and leaves every other user untouched |
| UserModel.WithDeviceTokenFacts | src/models/userModel.js:152-195 | adding a new truthy token stores it and keeps keys increasing and every user within three tokens; below capacity the row is appended, at capacity exactly the oldest row is evicted first; other users keep exactly their rows |
| UserModel.FindPasswordResetToken | src/models/userModel.js:99-103 | the record found has that token; none is found exactly when no record has it |
| UserModel.InvalidateResets | src/models/userModel.js:122-130 | afterwards a record is used exactly when it was used before or belongs to the user, and no other column changes |
| UserModel.MarkUsed | src/models/userModel.js:110-115 | afterwards a record is used exactly when it was used before or has that token, and no other column changes |
| UserModel.MarkUsedThenFind | src/models/userModel.js:99-115 | after marking a found token used, finding it again returns the same record, now used |
| UserModel.InvalidateKeepsTokens | src/models/userModel.js:99-130 | invalidating a user's records does not change whether any token is found |
| UserModel.Store.constructor | src/models/userModel.js:1-2 | a new database has the given roles and empty tables |
| UserModel.Store.CreateUser | src/models/userModel.js:51-61 | an insert succeeds exactly when id, email and username are all free, and then appends the row; other tables are unchanged |
| UserModel.Store.UpdateUserPassword | src/models/userModel.js:138-143 | succeeds exactly when the user exists, and then replaces only that user's hash |
| UserModel.Store.DeleteUser | src/controllers/authController.js:372 | succeeds exactly when the user exists; afterwards no user has that id and the other tables are unchanged |
| UserModel.Store.CreatePasswordReset | src/models/userModel.js:84-92 | succeeds exactly when the token is not stored yet, and then appends an unused record |
| UserModel.Store.InvalidatePreviousResetTokens | src/models/userModel.js:122-130 | the reset table becomes its invalidation for that user |
| UserModel.Store.MarkResetTokenAsUsed | src/models/userModel.js:110-115 | succeeds exactly when the token is stored, and then marks that record used |
| UserModel.Store.AddDeviceToken | src/models/userModel.js:152-195 | the token table becomes the add-token result and stays valid; the key counter advances exactly when a row is created |
| UserModel.Store.RemoveDeviceToken | src/models/userModel.js:203-213 | a falsy token changes nothing; otherwise exactly the user's rows with that token go, and the table stays valid |
| AuthController.RegisteredEvent | src/controllers/authController.js:47-56 | the `USER_REGISTERED` payload carries the new user's id, username, email and role name |
| AuthController.LoggedInEvent | src/controllers/authController.js:126-136 | the `USER_LOGGED_IN` payload carries the user id, username, email, role, device token (`undefined` when absent) and login time |
| AuthController.RecoveryEvent | src/controllers/authController.js:194-205 | the `PASSWORD_RECOVERY_REQUESTED` payload carries user id, username, the email the instructions go to, reset link and expiry |
| AuthController.DeletedEvent | src/controllers/authController.js:378-386 | the `USER_DELETED` payload carries user id, username and email, and role `user` when the user has no role |
| AuthController.ResetBaseUrl | src/controllers/authController.js:189 | a set, non-empty environment value is used as the link base, otherwise the local default; the base is never empty |
| AuthController.ResetUrlParts | src/controllers/authController.js:190 | the reset link is the base, the reset path and the token, and the token can be read back from its end |
| AuthController.RegisterCheck | src/controllers/authController.js:12-90 | a taken email gives 409, then a taken username gives 409, then a missing `user` role gives 500, then a taken id gives 500; registration goes ahead exactly when all three are free and the role exists, with that role |
| AuthController.Register | src/controllers/authController.js:7-91 | a refusal changes nothing; otherwise one user row with the hashed password and the `user` role is added, the device token is stored and the key counter advances exactly when a token row is created, the one `USER_REGISTERED` message is sent exactly when a channel is there or the lazy connect assigns one and submission does not throw, the publisher's handles and timers are those after one publish, and the reply is 201 with the user and token claims whatever the publisher did |
| AuthController.LoginCheck | src/controllers/authController.js:97-156 | an unknown email and a wrong password give the same 401; login goes ahead only for the email's user with a matching password, and then exactly when the role resolves; a matching password with an unresolvable role gives 500 |
| AuthController.Login | src/controllers/authController.js:93-157 | a refusal changes nothing; otherwise users are unchanged, the device token is stored and the key counter advances exactly when a token row is created, the one `USER_LOGGED_IN` message is sent exactly when a channel is there or the lazy connect assigns one and submission does not throw, the publisher's handles and timers are those after one publish, and the reply is 200 with the user's claims |
| AuthController.RecoverPassword | src/controllers/authController.js:160-227 | an unknown email gets the same success reply and changes nothing; otherwise the user's records are invalidated, one unused record expiring in ten minutes is appended, the one recovery message with the reset link is sent exactly when a channel is there or the lazy connect assigns one and submission does not throw, the publisher's handles and timers are those after one publish, and the reply names the user; a colliding token gives 500 after the invalidation |
| AuthController.RecoverFor | src/controllers/authController.js:173-222 | for a found user: the user's records are invalidated; a colliding token gives 500 after the invalidation with the publisher untouched; otherwise one unused record expiring in ten minutes is appended, the recovery message is sent exactly when a channel is there or the lazy connect assigns one and submission does not throw, and the reply names the user |
| AuthController.NewResetIsOnlyUnused | src/controllers/authController.js:174-185 | after a recovery request the new record is the user's only unused one, and its token finds it |
| AuthController.FindAfterAppend | src/models/userModel.js:84-103 | a record appended with a new token is what that token then finds |
| AuthController.ResetCheck | src/controllers/authController.js:234-265 | unknown, used and expired tokens give their own 400s and a vanished user gives 500; a reset goes ahead if and only if the token's record is unused, unexpired and its user exists, and then with that record |
| AuthController.ResetPassword | src/controllers/authController.js:229-266 | a refusal changes nothing; otherwise exactly that user's hash is replaced and the record is marked used |
| AuthController.ResetTwice | src/controllers/authController.js:240-258 | once a reset succeeds, the same link is refused as already used |
| AuthController.ExcludeUser | src/controllers/authController.js:327 | the filtered list is never longer than the listing |
| AuthController.ExcludeUserMembers | src/controllers/authController.js:327 | the filter keeps exactly the listed users other than the requester |
| AuthController.ExcludeUserConcat | src/controllers/authController.js:327 | the filter keeps the listing's order |
| AuthController.ExcludeAbsentUser | src/controllers/authController.js:327 | when the requester is not listed, the listing is returned unchanged |
| AuthController.GetAllUsersPublic | src/controllers/authController.js:295-341 | replies 200 with every listed user except the requester, in order, and their count |
| AuthController.DeleteCheck | src/controllers/authController.js:359-369 | an unusable token gives 500 and an unknown user gives 404; deletion goes ahead exactly for an existing user, with that user's selected columns |
| AuthController.DeleteAccountByUserAsWritten | src/controllers/authController.js:359-398 | the handler as written never answers 200; it answers 404 exactly for a decoded but unknown user, and otherwise 500 |
| AuthController.DeleteAccountByUser | src/controllers/authController.js:359-398 | as intended: a refusal changes nothing; otherwise the user is removed, nothing else in the store changes (the key counter included), the one `USER_DELETED` message is sent exactly when a channel is there or the lazy connect assigns one and submission does not throw, the publisher's handles and timers are those after one publish, and the reply is 200 |
| AuthController.DeleteAccountDiscrepancy | src/controllers/authController.js:372 | for an existing user with a usable token, the handler as written answers 500 where the intended one answers 200 |
| AuthController.RegisterThenRecover | src/controllers/authController.js:160-227 | a user registered while the broker is down can request a reset; the reply names them, their one record is unused and valid for ten minutes, and only the recovery message reaches the broker |
| AuthController.ResetThenReuse | src/controllers/authController.js:229-266 | a reset link changes the password once, and a second use is refused as already used |

## Left out

- Sending and serialising: JSON encoding of events and replies, the
  `persistent` flag's effect on the broker, and routing of a confirmed
  message are not modelled. A message carries the event value itself.
- Logging (`console.log`, `console.error`) is left out; it changes no state.
- Time: in the handlers the clock is the parameter `now`, and the two
  `new Date()` calls of one request share one instant. In the publisher
  the clock is a field that only `Tick` moves, to the due time of the timer
  it fires. A timer queued by `FinishConnect`, a close event or `Publish`
  between two ticks is therefore due 3000 ms after the last fired timer,
  not after the moment of the call. Delays relative to the last tick and
  the firing order are kept.
- The connection's `error` handler (rabbit_publisher.js:28-30) only logs.
  It is not modelled.
- Concurrency: the asynchronous interleavings of `connect` are reduced to
  its synchronous start (`BeginConnect`) and its completion
  (`FinishConnect`). Any publisher step can be placed between the two.
  Overlapping requests on the store are not modelled.
- Publisher.RabbitPublisher.Publish: a lazy connect that is itself
  interleaved with other callbacks is not modelled. The connect runs to
  completion inside the call.
- Publisher.RabbitPublisher.Publish: a broker that never answers is not
  modelled. Every connect step and every confirm gets an outcome, so the
  call always returns. In the source, `publish` waits for the confirm
  callback with no timeout (rabbit_publisher.js:67-86), and a lazy connect
  awaits `amqp.connect` (rabbit_publisher.js:19). If the broker stays
  silent, the handlers' `await` on it (authController.js:57, 137, 206, 387)
  never settles and no reply is sent. The handler contracts cover only
  publish calls that settle.
- Publisher.RabbitPublisher.Publish: the model does not track whether the
  channel is still open; the caller chooses the confirm outcome. After a
  close with code 320 the dead channel stays assigned
  (Publisher.ForcedCloseStaysDown), and a publish on it should be given
  `Throws`.
- The intention stated in the comment at rabbit_publisher.js:23 is not
  modelled. There, an intentional close must not reconnect. The model
  follows the code instead: a clean close event (no error) after `close()`
  schedules a reconnect (Publisher.CloseThenCleanCloseEvent).
- Cryptography:
  - bcrypt hashing and comparison are uninterpreted function parameters;
  - the random reset token and the generated user id are parameters;
  - a signed token is modelled by its claims, without signature or 30-day
    expiry.
- `deleteAccountByUser` reads the token from the authorization header.
  The model takes the decoded id as an `Option`: `None` stands for a
  missing header or an invalid token, both of which end in the catch-all
  500.
- Prisma specifics:
  - `getAllUsersPublic` orders the query by `createdAt` descending; the
    model takes the query's rows in the order returned;
  - ties in `createdAt` for the oldest device token go to the earliest row
    in the table;
  - the Prisma schema is not part of this model, so whatever `onDelete`
    rule it declares for a deleted user's device tokens and reset records
    is not modelled; those tables are left as they were.
- The role model module (`roleModel`) is not part of this model. Its
  `findRoleByName` is a lookup in the roles table.
- A thrown database error other than a constraint violation or a missing
  row is not modelled (connection loss, for example). The model covers
  these cases: an insert refused by a unique key (`createUser` on a taken
  id, `createPasswordReset` on a stored token), and an update whose row is
  missing.
- `undefined` and `null` are both `None`.
- The handlers `logout`, `getProfile` and `getAllUsers` are not modelled;
  `removeDeviceToken` is modelled as `Store.RemoveDeviceToken`. The
  firebase client, the routes, the seed script and the server bootstrap are
  not part of this model.
- UserModel.TokensOf: its own contract only bounds the length. The
  membership facts are in UserModel.TokensOfMembers.
- AuthController.ExcludeUser: its own contract only bounds the length. The
  membership and order facts are in AuthController.ExcludeUserMembers and
  AuthController.ExcludeUserConcat.

## Findings

| source | as written | input that shows it | evidently intended | confidence | as-written member | corrected member |
|---|---|---|---|---|---|---|
| src/controllers/authController.js:372 | `deleteAccountByUser` calls `userModel.deleteUser`, which src/models/userModel.js:215-228 does not export; the call throws a TypeError and the handler answers 500 "Internal server error during delete account." for every existing user, deleting nothing and publishing nothing | a valid token for the stored user `u1` | delete the user, publish `USER_DELETED` and answer 200 "Account deleted successfully." | not executed | AuthController.DeleteAccountByUserAsWritten | AuthController.DeleteAccountByUser |
