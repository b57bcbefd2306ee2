/**
  Domain events as the handlers build them: an event type, the moment it
  occurred and an ordered list of payload fields. Turning an event into JSON
  bytes is not modelled; a published message carries the event value itself.
*/
module Events {
  import opened Wrappers

  /** A payload value: a string, a `Date` (milliseconds since the epoch) or `undefined`. */
  datatype Value = Str(s: string) | Timestamp(ms: int) | Undefined

  /** The payload property names the handlers use. */
  datatype Key = UserIdKey | UsernameKey | EmailKey | RoleKey | FcmTokenKey | LoginAtKey | ResetUrlKey | ExpiresAtKey

  /** A key as it is spelled in the JSON payload. */
  function KeyName(k: Key): string
  {
    match k
    case UserIdKey => "userId"
    case UsernameKey => "username"
    case EmailKey => "email"
    case RoleKey => "role"
    case FcmTokenKey => "fcmToken"
    case LoginAtKey => "loginAt"
    case ResetUrlKey => "resetUrl"
    case ExpiresAtKey => "expiresAt"
  }

  datatype Field = Field(key: Key, value: Value)

  datatype Event = Event(eventType: string, occurredOn: int, payload: seq<Field>)

  /** The value stored under `key`, as property access on the payload object reads it.
      The first field carrying the key wins; an object literal with a repeated
      key would keep the last one instead, but no payload built here repeats a key. */
  function Lookup(fields: seq<Field>, key: Key): Option<Value>
  {
    if fields == [] then None
    else if fields[0].key == key then Some(fields[0].value)
    else Lookup(fields[1..], key)
  }

  /** A lookup finds nothing exactly when no field carries the key, and what it
      finds is the value of a field carrying the key. */
  lemma {:induction false} LookupMembers(fields: seq<Field>, key: Key)
    ensures Lookup(fields, key).None? <==> forall i | 0 <= i < |fields| :: fields[i].key != key
    ensures Lookup(fields, key).Some? ==> exists i | 0 <= i < |fields| :: fields[i] == Field(key, Lookup(fields, key).value)
  {
    if fields != [] && fields[0].key != key {
      LookupMembers(fields[1..], key);
      assert forall i | 0 <= i < |fields[1..]| :: fields[1..][i] == fields[i + 1];
      if Lookup(fields, key).Some? {
        var i :| 0 <= i < |fields[1..]| && fields[1..][i] == Field(key, Lookup(fields, key).value);
        assert fields[i + 1] == Field(key, Lookup(fields, key).value);
      }
    }
  }

  /** The value of the first field carrying a key is what a lookup of that key finds. */
  lemma {:induction false} LookupFirst(fields: seq<Field>, i: nat)
    requires i < |fields|
    requires forall j | 0 <= j < i :: fields[j].key != fields[i].key
    ensures Lookup(fields, fields[i].key) == Some(fields[i].value)
  {
    if i > 0 {
      assert fields[0].key != fields[i].key;
      assert forall j | 0 <= j < i - 1 :: fields[1..][j] == fields[j + 1];
      LookupFirst(fields[1..], i - 1);
    }
  }
}
