/**
  The data-access layer of the authentication service as operations on
  in-memory tables: users, roles, device tokens (push-notification tokens,
  at most three per user) and password-reset records.

  Each read-only Prisma query is a function over a table; each write is a
  method of `Store` that reassigns the table it changes. A write the database
  would refuse (a unique constraint, a missing row for `update`/`delete`)
  returns `false` where Prisma would throw, and leaves the table unchanged.
*/
module UserModel {
  import opened Wrappers

  datatype Role = Role(roleId: nat, roleName: string)

  datatype User = User(userId: string, username: string, email: string, passwordHash: string,
                       roleId: nat, createdAt: int)

  /** The columns `findUserById` and the user listings select: never the password hash. */
  datatype UserView = UserView(userId: string, username: string, email: string,
                               roleName: Option<string>, createdAt: int)

  datatype DeviceToken = DeviceToken(id: nat, userId: string, token: string, createdAt: int)

  datatype PasswordReset = PasswordReset(userId: string, token: string, expiresAt: int, used: bool)

  /** Most device tokens a user keeps. */
  const MaxDeviceTokens: nat := 3

  /** JavaScript truthiness of a string that may be absent: `undefined`, `null` and `""` are falsy. */
  predicate Truthy(s: Option<string>)
  {
    s.Some? && s.value != ""
  }

  // ---------------------------------------------------------------- users

  /** `findUserByEmail`: the user whose email is `email`, if any. */
  function FindUserByEmail(users: seq<User>, email: string): (r: Option<User>)
    ensures r.Some? ==> r.value in users && r.value.email == email
    ensures r.None? <==> forall u | u in users :: u.email != email
  {
    if users == [] then None
    else if users[0].email == email then Some(users[0])
    else FindUserByEmail(users[1..], email)
  }

  /** `findUserByUsername`: the user whose username is `username`, if any. */
  function FindUserByUsername(users: seq<User>, username: string): (r: Option<User>)
    ensures r.Some? ==> r.value in users && r.value.username == username
    ensures r.None? <==> forall u | u in users :: u.username != username
  {
    if users == [] then None
    else if users[0].username == username then Some(users[0])
    else FindUserByUsername(users[1..], username)
  }

  /** The row with primary key `userId`, as `update`/`delete` `where: { user_id }` find it. */
  function UserWithId(users: seq<User>, userId: string): (r: Option<User>)
    ensures r.Some? ==> r.value in users && r.value.userId == userId
    ensures r.None? <==> forall u | u in users :: u.userId != userId
  {
    if users == [] then None
    else if users[0].userId == userId then Some(users[0])
    else UserWithId(users[1..], userId)
  }

  /** The role with primary key `roleId`, if any. */
  function RoleWithId(roles: seq<Role>, roleId: nat): (r: Option<Role>)
    ensures r.Some? ==> r.value in roles && r.value.roleId == roleId
    ensures r.None? <==> forall x | x in roles :: x.roleId != roleId
  {
    if roles == [] then None
    else if roles[0].roleId == roleId then Some(roles[0])
    else RoleWithId(roles[1..], roleId)
  }

  /** `findRoleByName` (the role model is a lookup by name). */
  function FindRoleByName(roles: seq<Role>, name: string): (r: Option<Role>)
    ensures r.Some? ==> r.value in roles && r.value.roleName == name
    ensures r.None? <==> forall x | x in roles :: x.roleName != name
  {
    if roles == [] then None
    else if roles[0].roleName == name then Some(roles[0])
    else FindRoleByName(roles[1..], name)
  }

  /** The name of `u`'s role, `None` when the relation is empty. */
  function RoleNameOf(roles: seq<Role>, u: User): Option<string>
  {
    match RoleWithId(roles, u.roleId)
    case Some(role) => Some(role.roleName)
    case None => None
  }

  /** The selected columns of a user row. */
  function ViewOf(roles: seq<Role>, u: User): UserView
  {
    UserView(u.userId, u.username, u.email, RoleNameOf(roles, u), u.createdAt)
  }

  /** `findUserById`: the selected columns of the user with id `userId`. */
  function FindUserById(users: seq<User>, roles: seq<Role>, userId: string): (r: Option<UserView>)
    ensures r.None? <==> forall u | u in users :: u.userId != userId
    ensures r.Some? ==> r.value.userId == userId && exists u | u in users :: r.value == ViewOf(roles, u)
  {
    match UserWithId(users, userId)
    case Some(u) => Some(ViewOf(roles, u))
    case None => None
  }

  /** The table after `update({ where: { user_id }, data: { password_hash } })`. */
  function SetPassword(users: seq<User>, userId: string, passwordHash: string): seq<User>
  {
    seq(|users|, i requires 0 <= i < |users| =>
      if users[i].userId == userId then users[i].(passwordHash := passwordHash) else users[i])
  }

  /** The table after `delete({ where: { user_id } })`. */
  function WithoutUser(users: seq<User>, userId: string): (r: seq<User>)
    ensures forall u | u in r :: u in users && u.userId != userId
    ensures forall u | u in users && u.userId != userId :: u in r
  {
    if users == [] then []
    else (if users[0].userId == userId then [] else [users[0]]) + WithoutUser(users[1..], userId)
  }

  // -------------------------------------------------------- device tokens

  /** The rows of one user, in table order. */
  function TokensOf(rows: seq<DeviceToken>, userId: string): (r: seq<DeviceToken>)
    ensures |r| <= |rows|
  {
    if rows == [] then []
    else (if rows[0].userId == userId then [rows[0]] else []) + TokensOf(rows[1..], userId)
  }

  /** The rows of one user are exactly the table's rows owned by that user. */
  lemma {:induction false} TokensOfMembers(rows: seq<DeviceToken>, userId: string)
    ensures forall x | x in TokensOf(rows, userId) :: x in rows && x.userId == userId
    ensures forall x | x in rows && x.userId == userId :: x in TokensOf(rows, userId)
  {
    if rows != [] {
      TokensOfMembers(rows[1..], userId);
      assert rows == [rows[0]] + rows[1..];
    }
  }

  predicate HasToken(rows: seq<DeviceToken>, userId: string, token: string)
  {
    exists x | x in rows :: x.userId == userId && x.token == token
  }

  /** `deviceToken.findUnique` on the compound key `(user_id, token)`. */
  function FindDeviceToken(rows: seq<DeviceToken>, userId: string, token: string): (r: Option<DeviceToken>)
    ensures r.Some? <==> HasToken(rows, userId, token)
    ensures r.Some? ==> r.value in rows && r.value.userId == userId && r.value.token == token
  {
    if rows == [] then None
    else if rows[0].userId == userId && rows[0].token == token then Some(rows[0])
    else FindDeviceToken(rows[1..], userId, token)
  }

  /** `deviceToken.findFirst` for one user ordered by `createdAt` ascending;
      among rows created at the same moment the earliest in the table wins. */
  function FindOldestDeviceToken(rows: seq<DeviceToken>, userId: string): (r: Option<DeviceToken>)
    ensures r.None? <==> TokensOf(rows, userId) == []
    ensures r.Some? ==> r.value in rows && r.value.userId == userId
    ensures r.Some? ==> forall x | x in rows && x.userId == userId :: r.value.createdAt <= x.createdAt
  {
    if rows == [] then None
    else
      var rest := FindOldestDeviceToken(rows[1..], userId);
      assert rows == [rows[0]] + rows[1..];
      TokensOfMembers(rows[1..], userId);
      if rows[0].userId != userId then rest
      else if rest.Some? && rest.value.createdAt < rows[0].createdAt then rest
      else Some(rows[0])
  }

  /** The `where` filter of a device-token delete: by primary key, or by owner and token. */
  datatype Selector = WithId(id: nat) | WithPair(userId: string, token: string)

  predicate Selects(s: Selector, x: DeviceToken)
  {
    match s
    case WithId(id) => x.id == id
    case WithPair(userId, token) => x.userId == userId && x.token == token
  }

  /** The rows `s` does not select, in table order: what `delete`/`deleteMany` leave. */
  function Without(rows: seq<DeviceToken>, s: Selector): (r: seq<DeviceToken>)
    ensures |r| <= |rows|
    ensures forall x | x in r :: x in rows && !Selects(s, x)
    ensures forall x | x in rows && !Selects(s, x) :: x in r
  {
    if rows == [] then []
    else (if Selects(s, rows[0]) then [] else [rows[0]]) + Without(rows[1..], s)
  }

  /** `deviceToken.delete({ where: { id } })`. */
  function DeleteDeviceTokenById(rows: seq<DeviceToken>, id: nat): (r: seq<DeviceToken>)
    ensures forall x | x in r :: x in rows && x.id != id
    ensures forall x | x in rows && x.id != id :: x in r
  {
    Without(rows, WithId(id))
  }

  /** `deviceToken.deleteMany({ where: { user_id, token } })`: every matching row, and only those. */
  function DeleteDeviceTokens(rows: seq<DeviceToken>, userId: string, token: string): (r: seq<DeviceToken>)
    ensures forall x | x in r :: x in rows && !(x.userId == userId && x.token == token)
    ensures forall x | x in rows && !(x.userId == userId && x.token == token) :: x in r
    ensures !HasToken(r, userId, token)
  {
    Without(rows, WithPair(userId, token))
  }

  ghost predicate IdsIncreasing(rows: seq<DeviceToken>)
  {
    forall i, j | 0 <= i < j < |rows| :: rows[i].id < rows[j].id
  }

  ghost predicate IdsBelow(rows: seq<DeviceToken>, bound: nat)
  {
    forall i | 0 <= i < |rows| :: rows[i].id < bound
  }

  /** No user holds more than `MaxDeviceTokens` rows. */
  ghost predicate WithinCapacity(rows: seq<DeviceToken>)
  {
    forall u :: |TokensOf(rows, u)| <= MaxDeviceTokens
  }

  lemma {:induction false} TokensOfConcat(a: seq<DeviceToken>, b: seq<DeviceToken>, u: string)
    ensures TokensOf(a + b, u) == TokensOf(a, u) + TokensOf(b, u)
  {
    if a == [] {
      assert a + b == b;
    } else {
      var head := if a[0].userId == u then [a[0]] else [];
      assert (a + b)[0] == a[0];
      assert (a + b)[1..] == a[1..] + b;
      TokensOfConcat(a[1..], b, u);
      calc {
        TokensOf(a + b, u);
        head + TokensOf(a[1..] + b, u);
        head + (TokensOf(a[1..], u) + TokensOf(b, u));
        (head + TokensOf(a[1..], u)) + TokensOf(b, u);
      }
    }
  }

  /** Removing the row at `k` and appending `row` changes only the rows of their owners. */
  lemma ReplaceAtTokens(rows: seq<DeviceToken>, k: nat, row: DeviceToken, v: string)
    requires k < |rows|
    ensures var s := rows[..k] + rows[k+1..] + [row];
      |TokensOf(s, v)| == |TokensOf(rows, v)| - (if rows[k].userId == v then 1 else 0) + (if row.userId == v then 1 else 0)
    ensures rows[k].userId != v && row.userId != v ==> TokensOf(rows[..k] + rows[k+1..] + [row], v) == TokensOf(rows, v)
  {
    var a, x, b := rows[..k], rows[k], rows[k+1..];
    assert rows == a + [x] + b;
    TokensOfConcat(a + [x], b, v);
    TokensOfConcat(a, [x], v);
    TokensOfSingle(x, v);
    TokensOfConcat(a + b, [row], v);
    TokensOfConcat(a, b, v);
    TokensOfSingle(row, v);
  }

  lemma TokensOfSingle(x: DeviceToken, v: string)
    ensures TokensOf([x], v) == if x.userId == v then [x] else []
  {
    assert [x][1..] == [];
  }

  lemma {:induction false} WithoutNothing(rows: seq<DeviceToken>, s: Selector)
    requires forall i | 0 <= i < |rows| :: !Selects(s, rows[i])
    ensures Without(rows, s) == rows
  {
    if rows != [] {
      WithoutNothing(rows[1..], s);
    }
  }

  /** With increasing ids, deleting by the id of the row at `k` removes exactly that row. */
  lemma DeleteByIdRemovesOne(rows: seq<DeviceToken>, k: nat)
    requires IdsIncreasing(rows) && k < |rows|
    ensures DeleteDeviceTokenById(rows, rows[k].id) == rows[..k] + rows[k+1..]
  {
    WithoutRemovesOne(rows, k, rows[k].id);
  }

  /** Deleting by an id that only the row at `k` carries removes exactly that row. */
  lemma {:induction false} WithoutRemovesOne(rows: seq<DeviceToken>, k: nat, id: nat)
    requires k < |rows| && rows[k].id == id
    requires forall i | 0 <= i < |rows| && i != k :: rows[i].id != id
    ensures Without(rows, WithId(id)) == rows[..k] + rows[k+1..]
  {
    var tail := rows[1..];
    if k == 0 {
      WithoutNothing(tail, WithId(id));
    } else {
      assert forall i | 0 <= i < |tail| && i != k - 1 :: tail[i].id != id by {
        forall i | 0 <= i < |tail| && i != k - 1 ensures tail[i].id != id {
          assert tail[i] == rows[i + 1];
        }
      }
      WithoutRemovesOne(tail, k - 1, id);
      assert Without(rows, WithId(id)) == [rows[0]] + (tail[..k - 1] + tail[k..]);
      SpliceAfterHead(rows, k);
    }
  }

  lemma SpliceAfterHead<T>(s: seq<T>, k: nat)
    requires 0 < k < |s|
    ensures [s[0]] + (s[1..][..k - 1] + s[1..][k..]) == s[..k] + s[k+1..]
  {
    assert s[1..][..k - 1] == s[1..k];
    assert s[1..][k..] == s[k + 1..];
    assert s[..k] == [s[0]] + s[1..k];
  }

  /** Deleting rows keeps the ids in increasing order and below their bound. */
  lemma {:induction false} WithoutKeepsIds(rows: seq<DeviceToken>, s: Selector, bound: nat)
    requires IdsIncreasing(rows) && IdsBelow(rows, bound)
    ensures IdsIncreasing(Without(rows, s)) && IdsBelow(Without(rows, s), bound)
  {
    if rows != [] {
      var tail := rows[1..];
      var rest := Without(tail, s);
      assert IdsIncreasing(tail) && IdsBelow(tail, bound);
      WithoutKeepsIds(tail, s, bound);
      var r := Without(rows, s);
      if Selects(s, rows[0]) {
        assert r == rest;
      } else {
        assert r == [rows[0]] + rest;
        forall x | x in rest ensures rows[0].id < x.id {
          var j :| 0 <= j < |tail| && tail[j] == x;
          assert rows[j + 1] == x;
        }
        ConsKeepsIds(rows[0], rest, bound);
      }
    }
  }

  /** A row with an id below the bound and below every id of an ordered table can go first. */
  lemma ConsKeepsIds(x: DeviceToken, rest: seq<DeviceToken>, bound: nat)
    requires IdsIncreasing(rest) && IdsBelow(rest, bound) && x.id < bound
    requires forall y | y in rest :: x.id < y.id
    ensures IdsIncreasing([x] + rest) && IdsBelow([x] + rest, bound)
  {
    var r := [x] + rest;
    forall i, j | 0 <= i < j < |r| ensures r[i].id < r[j].id {
      assert r[j] == rest[j - 1] && rest[j - 1] in rest;
      if i > 0 {
        assert r[i] == rest[i - 1];
      }
    }
    forall i | 0 <= i < |r| ensures r[i].id < bound {
      if i > 0 {
        assert r[i] == rest[i - 1];
      }
    }
  }

  /** Deleting rows never adds to any user's rows, and leaves alone every user it selects no row of. */
  lemma {:induction false} WithoutTokensOf(rows: seq<DeviceToken>, s: Selector, v: string)
    ensures |TokensOf(Without(rows, s), v)| <= |TokensOf(rows, v)|
    ensures (forall x | x in rows && Selects(s, x) :: x.userId != v) ==> TokensOf(Without(rows, s), v) == TokensOf(rows, v)
  {
    if rows != [] {
      var head := if Selects(s, rows[0]) then [] else [rows[0]];
      WithoutTokensOf(rows[1..], s, v);
      TokensOfConcat(head, Without(rows[1..], s), v);
      assert forall x | x in rows[1..] :: x in rows;
    }
  }

  /** Appending a row with a fresh, larger id keeps the ids increasing and bounded. */
  lemma AppendKeepsIds(rows: seq<DeviceToken>, row: DeviceToken, bound: nat)
    requires IdsIncreasing(rows) && IdsBelow(rows, bound) && row.id == bound
    ensures IdsIncreasing(rows + [row]) && IdsBelow(rows + [row], bound + 1)
  {
  }

  /** Removing one row keeps the ids increasing and bounded. */
  lemma RemoveAtKeepsIds(rows: seq<DeviceToken>, k: nat, bound: nat)
    requires IdsIncreasing(rows) && IdsBelow(rows, bound) && k < |rows|
    ensures IdsIncreasing(rows[..k] + rows[k+1..]) && IdsBelow(rows[..k] + rows[k+1..], bound)
  {
    var s := rows[..k] + rows[k+1..];
    assert forall i | 0 <= i < |s| :: s[i] == (if i < k then rows[i] else rows[i + 1]);
  }

  /** Storing a new row for a user below capacity: the ids stay ordered, that user
      gains one row and every other user keeps exactly theirs. */
  lemma InsertFacts(rows: seq<DeviceToken>, row: DeviceToken, bound: nat)
    requires IdsIncreasing(rows) && IdsBelow(rows, bound) && WithinCapacity(rows)
    requires row.id == bound && |TokensOf(rows, row.userId)| < MaxDeviceTokens
    ensures IdsIncreasing(rows + [row]) && IdsBelow(rows + [row], bound + 1) && WithinCapacity(rows + [row])
    ensures |TokensOf(rows + [row], row.userId)| == |TokensOf(rows, row.userId)| + 1
    ensures forall v | v != row.userId :: TokensOf(rows + [row], v) == TokensOf(rows, v)
  {
    AppendKeepsIds(rows, row, bound);
    forall v ensures TokensOf(rows + [row], v) == TokensOf(rows, v) + (if v == row.userId then [row] else []) {
      TokensOfConcat(rows, [row], v);
    }
  }

  /** Replacing a user's row at `k` by a new row of the same user: the ids stay
      ordered, that user's count is unchanged and every other user keeps exactly theirs. */
  lemma EvictInsertFacts(rows: seq<DeviceToken>, k: nat, row: DeviceToken, bound: nat)
    requires IdsIncreasing(rows) && IdsBelow(rows, bound) && WithinCapacity(rows)
    requires k < |rows| && rows[k].userId == row.userId && row.id == bound
    ensures var s := rows[..k] + rows[k+1..] + [row];
      && IdsIncreasing(s) && IdsBelow(s, bound + 1) && WithinCapacity(s)
      && |TokensOf(s, row.userId)| == |TokensOf(rows, row.userId)|
      && forall v | v != row.userId :: TokensOf(s, v) == TokensOf(rows, v)
  {
    RemoveAtKeepsIds(rows, k, bound);
    AppendKeepsIds(rows[..k] + rows[k+1..], row, bound);
    var s := rows[..k] + rows[k+1..] + [row];
    forall v ensures |TokensOf(s, v)| == |TokensOf(rows, v)| <= MaxDeviceTokens
      && (v != row.userId ==> TokensOf(s, v) == TokensOf(rows, v))
    {
      ReplaceAtTokens(rows, k, row, v);
    }
  }

  /** The table after `addDeviceToken(userId, token)`, where `id` is the key
      the next created row receives and `now` the clock: nothing changes for a
      falsy or already stored token; otherwise, when the user is at capacity,
      the user's oldest row is deleted, and the new row is created. */
  function WithDeviceToken(rows: seq<DeviceToken>, userId: string, token: Option<string>, id: nat, now: int)
    : seq<DeviceToken>
  {
    if !Truthy(token) || HasToken(rows, userId, token.value) then rows
    else
      var kept :=
        if |TokensOf(rows, userId)| >= MaxDeviceTokens then
          match FindOldestDeviceToken(rows, userId)
          case Some(oldest) => DeleteDeviceTokenById(rows, oldest.id)
          case None => rows
        else rows;
      kept + [DeviceToken(id, userId, token.value, now)]
  }

  /** Adding a new token: the ids stay ordered and below the next key, no user
      exceeds capacity, the token is stored, the user gains a row below
      capacity (the new row goes last) and stays at capacity otherwise (the
      oldest row makes way), and every other user keeps exactly their rows. */
  lemma WithDeviceTokenFacts(rows: seq<DeviceToken>, userId: string, token: string, id: nat, now: int)
    requires IdsIncreasing(rows) && IdsBelow(rows, id) && WithinCapacity(rows)
    requires token != "" && !HasToken(rows, userId, token)
    ensures var r := WithDeviceToken(rows, userId, Some(token), id, now);
      var row := DeviceToken(id, userId, token, now);
      && IdsIncreasing(r) && IdsBelow(r, id + 1) && WithinCapacity(r)
      && HasToken(r, userId, token)
      && |TokensOf(r, userId)| == (if |TokensOf(rows, userId)| < MaxDeviceTokens
                                   then |TokensOf(rows, userId)| + 1 else MaxDeviceTokens)
      && (|TokensOf(rows, userId)| < MaxDeviceTokens ==> r == rows + [row])
      && (|TokensOf(rows, userId)| >= MaxDeviceTokens ==>
            exists k | 0 <= k < |rows| ::
              && FindOldestDeviceToken(rows, userId) == Some(rows[k])
              && r == rows[..k] + rows[k+1..] + [row])
      && (forall v | v != userId :: TokensOf(r, v) == TokensOf(rows, v))
  {
    var r := WithDeviceToken(rows, userId, Some(token), id, now);
    var row := DeviceToken(id, userId, token, now);
    if |TokensOf(rows, userId)| >= MaxDeviceTokens {
      var oldest := FindOldestDeviceToken(rows, userId).value;
      var k :| 0 <= k < |rows| && rows[k] == oldest;
      DeleteByIdRemovesOne(rows, k);
      EvictInsertFacts(rows, k, row, id);
      assert r == rows[..k] + rows[k+1..] + [row];
    } else {
      InsertFacts(rows, row, id);
    }
    assert r[|r| - 1] == row;
  }

  // ------------------------------------------------------ password resets

  /** `passwordReset.findUnique({ where: { token } })`. */
  function FindPasswordResetToken(resets: seq<PasswordReset>, token: string): (r: Option<PasswordReset>)
    ensures r.Some? ==> r.value in resets && r.value.token == token
    ensures r.None? <==> forall x | x in resets :: x.token != token
  {
    if resets == [] then None
    else if resets[0].token == token then Some(resets[0])
    else FindPasswordResetToken(resets[1..], token)
  }

  /** `passwordReset.updateMany({ where: { user_id, used: false }, data: { used: true } })`:
      afterwards every record of the user is used, and nothing else has changed. */
  function InvalidateResets(resets: seq<PasswordReset>, userId: string): (r: seq<PasswordReset>)
    ensures |r| == |resets|
    ensures forall i | 0 <= i < |r| :: r[i] == resets[i].(used := r[i].used)
    ensures forall i | 0 <= i < |r| :: r[i].used <==> resets[i].used || resets[i].userId == userId
  {
    if resets == [] then []
    else
      var x := resets[0];
      [if x.userId == userId && !x.used then x.(used := true) else x] + InvalidateResets(resets[1..], userId)
  }

  /** `passwordReset.update({ where: { token }, data: { used: true } })`:
      the record with that token becomes used, and nothing else changes. */
  function MarkUsed(resets: seq<PasswordReset>, token: string): (r: seq<PasswordReset>)
    ensures |r| == |resets|
    ensures forall i | 0 <= i < |r| :: r[i] == resets[i].(used := r[i].used)
    ensures forall i | 0 <= i < |r| :: r[i].used <==> resets[i].used || resets[i].token == token
  {
    if resets == [] then []
    else
      var x := resets[0];
      [if x.token == token then x.(used := true) else x] + MarkUsed(resets[1..], token)
  }

  /** After marking a found token used, looking it up again finds the same record, now used. */
  lemma {:induction false} MarkUsedThenFind(resets: seq<PasswordReset>, token: string)
    requires FindPasswordResetToken(resets, token).Some?
    ensures FindPasswordResetToken(MarkUsed(resets, token), token)
         == Some(FindPasswordResetToken(resets, token).value.(used := true))
  {
    if resets[0].token != token {
      MarkUsedThenFind(resets[1..], token);
    }
  }

  /** Invalidating a user's records changes no token, so a token lookup finds a record exactly when it did before. */
  lemma {:induction false} InvalidateKeepsTokens(resets: seq<PasswordReset>, userId: string, token: string)
    ensures FindPasswordResetToken(InvalidateResets(resets, userId), token).None?
        <==> FindPasswordResetToken(resets, token).None?
  {
    if resets != [] {
      var r := InvalidateResets(resets, userId);
      assert r[0].token == resets[0].token;
      assert r[1..] == InvalidateResets(resets[1..], userId);
      InvalidateKeepsTokens(resets[1..], userId, token);
    }
  }


  /** The database tables. */
  class Store {
    var users: seq<User>
    var roles: seq<Role>
    var deviceTokens: seq<DeviceToken>
    var resets: seq<PasswordReset>
    var nextTokenId: nat

    ghost predicate Valid()
      reads this`deviceTokens, this`nextTokenId
    {
      IdsIncreasing(deviceTokens) && IdsBelow(deviceTokens, nextTokenId) && WithinCapacity(deviceTokens)
    }

    constructor (roles: seq<Role>)
      ensures Valid()
      ensures users == [] && this.roles == roles && deviceTokens == [] && resets == [] && nextTokenId == 0
    {
      users := [];
      this.roles := roles;
      deviceTokens := [];
      resets := [];
      nextTokenId := 0;
    }

    /** `createUser`: refused when the id, email or username is already taken. */
    method CreateUser(userId: string, username: string, email: string, passwordHash: string,
                      roleId: nat, now: int) returns (ok: bool)
      modifies this`users
      ensures roles == old(roles) && deviceTokens == old(deviceTokens)
      ensures resets == old(resets) && nextTokenId == old(nextTokenId)
      ensures ok <==> && UserWithId(old(users), userId).None?
                      && FindUserByEmail(old(users), email).None?
                      && FindUserByUsername(old(users), username).None?
      ensures users == if ok then old(users) + [User(userId, username, email, passwordHash, roleId, now)]
                       else old(users)
    {
      ok := UserWithId(users, userId).None? && FindUserByEmail(users, email).None?
         && FindUserByUsername(users, username).None?;
      if ok {
        users := users + [User(userId, username, email, passwordHash, roleId, now)];
      }
    }

    /** `updateUserPassword`: refused when no user has that id. */
    method UpdateUserPassword(userId: string, passwordHash: string) returns (ok: bool)
      modifies this`users
      ensures roles == old(roles) && deviceTokens == old(deviceTokens)
      ensures resets == old(resets) && nextTokenId == old(nextTokenId)
      ensures ok <==> UserWithId(old(users), userId).Some?
      ensures users == if ok then SetPassword(old(users), userId, passwordHash) else old(users)
    {
      ok := UserWithId(users, userId).Some?;
      if ok {
        users := SetPassword(users, userId, passwordHash);
      }
    }

    /** `user.delete({ where: { user_id } })`: refused when no user has that id. */
    method DeleteUser(userId: string) returns (ok: bool)
      modifies this`users
      ensures roles == old(roles) && deviceTokens == old(deviceTokens)
      ensures resets == old(resets) && nextTokenId == old(nextTokenId)
      ensures ok <==> UserWithId(old(users), userId).Some?
      ensures users == if ok then WithoutUser(old(users), userId) else old(users)
      ensures UserWithId(users, userId).None?
    {
      ok := UserWithId(users, userId).Some?;
      if ok {
        users := WithoutUser(users, userId);
      }
    }

    /** `createPasswordReset`: a new unused record; refused when the token is already stored. */
    method CreatePasswordReset(userId: string, token: string, expiresAt: int) returns (ok: bool)
      modifies this`resets
      ensures users == old(users) && roles == old(roles)
      ensures deviceTokens == old(deviceTokens) && nextTokenId == old(nextTokenId)
      ensures ok <==> FindPasswordResetToken(old(resets), token).None?
      ensures resets == if ok then old(resets) + [PasswordReset(userId, token, expiresAt, false)] else old(resets)
    {
      ok := FindPasswordResetToken(resets, token).None?;
      if ok {
        resets := resets + [PasswordReset(userId, token, expiresAt, false)];
      }
    }

    /** `invalidatePreviousResetTokens`. */
    method InvalidatePreviousResetTokens(userId: string)
      modifies this`resets
      ensures users == old(users) && roles == old(roles)
      ensures deviceTokens == old(deviceTokens) && nextTokenId == old(nextTokenId)
      ensures resets == InvalidateResets(old(resets), userId)
    {
      resets := InvalidateResets(resets, userId);
    }

    /** `markResetTokenAsUsed`: refused when no record has that token. */
    method MarkResetTokenAsUsed(token: string) returns (ok: bool)
      modifies this`resets
      ensures users == old(users) && roles == old(roles)
      ensures deviceTokens == old(deviceTokens) && nextTokenId == old(nextTokenId)
      ensures ok <==> FindPasswordResetToken(old(resets), token).Some?
      ensures resets == if ok then MarkUsed(old(resets), token) else old(resets)
    {
      ok := FindPasswordResetToken(resets, token).Some?;
      if ok {
        resets := MarkUsed(resets, token);
      }
    }

    /** `addDeviceToken`: the table becomes `WithDeviceToken` of the old one,
        and the key counter moves on exactly when a row is created. */
    method AddDeviceToken(userId: string, token: Option<string>, now: int)
      requires Valid()
      modifies this`deviceTokens, this`nextTokenId
      ensures users == old(users) && roles == old(roles) && resets == old(resets)
      ensures Valid()
      ensures deviceTokens == WithDeviceToken(old(deviceTokens), userId, token, old(nextTokenId), now)
      ensures nextTokenId == if !Truthy(token) || HasToken(old(deviceTokens), userId, token.value)
                             then old(nextTokenId) else old(nextTokenId) + 1
    {
      if !Truthy(token) {
        return;
      }
      var existing := FindDeviceToken(deviceTokens, userId, token.value);
      if existing.Some? {
        return;
      }
      WithDeviceTokenFacts(deviceTokens, userId, token.value, nextTokenId, now);
      var count := |TokensOf(deviceTokens, userId)|;
      if count >= MaxDeviceTokens {
        var oldest := FindOldestDeviceToken(deviceTokens, userId);
        if oldest.Some? {
          deviceTokens := DeleteDeviceTokenById(deviceTokens, oldest.value.id);
        }
      }
      deviceTokens := deviceTokens + [DeviceToken(nextTokenId, userId, token.value, now)];
      nextTokenId := nextTokenId + 1;
    }

    /** `removeDeviceToken`: nothing for a falsy token; otherwise every matching row goes. */
    method RemoveDeviceToken(userId: string, token: Option<string>)
      requires Valid()
      modifies this`deviceTokens
      ensures users == old(users) && roles == old(roles)
      ensures resets == old(resets) && nextTokenId == old(nextTokenId)
      ensures Valid()
      ensures !Truthy(token) ==> deviceTokens == old(deviceTokens)
      ensures Truthy(token) ==> deviceTokens == DeleteDeviceTokens(old(deviceTokens), userId, token.value)
      ensures forall v | v != userId :: TokensOf(deviceTokens, v) == TokensOf(old(deviceTokens), v)
    {
      if !Truthy(token) {
        return;
      }
      var t := token.value;
      var s := WithPair(userId, t);
      WithoutKeepsIds(deviceTokens, s, nextTokenId);
      forall v ensures |TokensOf(Without(deviceTokens, s), v)| <= |TokensOf(deviceTokens, v)|
        && (v != userId ==> TokensOf(Without(deviceTokens, s), v) == TokensOf(deviceTokens, v))
      {
        WithoutTokensOf(deviceTokens, s, v);
      }
      deviceTokens := DeleteDeviceTokens(deviceTokens, userId, t);
    }
  }
}
