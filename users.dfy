/** The `authenticateAPIKey` and `verifyQuota` middleware of app.js over an
    in-memory copy of the `Users` table of the realtime database. */
module Users {
  import opened Wrappers
  import opened Sequences

  /** The record under `Users/<id>/APIKeys/<key>`. */
  datatype KeyRecord = KeyRecord(usage: Option<int>)

  /** The record under `Users/<id>`. Counters that are unset read as 0. */
  datatype User = User(
    id: string,
    apiKeys: map<string, KeyRecord>,
    fixedQuota: Option<int>,
    usedQuota: Option<int>)

  /** The table in `Object.keys` order: user ids are database keys, so they
      are non-empty and distinct, and every user has an `APIKeys` node (the
      database keeps no empty nodes, so that node holds at least one key). */
  predicate WellFormed(users: seq<User>) {
    && (forall i :: 0 <= i < |users| ==> users[i].id != "" && users[i].apiKeys != map[])
    && (forall i, j :: 0 <= i < j < |users| ==> users[i].id != users[j].id)
  }

  /** The property name `APIKeys[apiKey]` looks up: a missing `x-api-key`
      header is `undefined`, which JavaScript turns into the name "undefined". */
  function PropertyKey(header: Option<string>): (key: string)
    ensures header.Some? ==> key == header.value
    ensures header.None? ==> key == "undefined"
  {
    if header.Some? then header.value else "undefined"
  }

  /** `Object.keys(users).find(key => users[key].APIKeys[apiKey])`, as a
      position, counting only the keys a user really holds. This is the
      corrected lookup; `FirstOwnerAsWritten` is the one in the source. */
  function FirstOwner(users: seq<User>, key: string): (r: Option<nat>)
    ensures r.Some? ==>
      && r.value < |users| && key in users[r.value].apiKeys
      && forall j :: 0 <= j < r.value ==> key !in users[j].apiKeys
    ensures r.None? <==> forall j :: 0 <= j < |users| ==> key !in users[j].apiKeys
  {
    if |users| == 0 then None
    else if key in users[0].apiKeys then Some(0)
    else
      match FirstOwner(users[1..], key)
      case None => None
      case Some(i) => Some(i + 1)
  }

  /** The position of the user `userRef.child(id)` names. */
  function IndexOfId(users: seq<User>, id: string): (r: Option<nat>)
    ensures r.Some? ==> r.value < |users| && users[r.value].id == id
    ensures r.None? <==> forall j :: 0 <= j < |users| ==> users[j].id != id
  {
    if |users| == 0 then None
    else if users[0].id == id then Some(0)
    else
      match IndexOfId(users[1..], id)
      case None => None
      case Some(i) => Some(i + 1)
  }

  /** Writing below `Users/<id>` keeps the table well formed and every user
      at its position. */
  lemma ReplaceUser(users: seq<User>, i: nat, u: User)
    requires WellFormed(users) && i < |users| && u.id == users[i].id && u.apiKeys != map[]
    ensures WellFormed(users[i := u])
    ensures forall id :: IndexOfId(users[i := u], id) == IndexOfId(users, id)
  {
    var users' := users[i := u];
    assert forall j :: 0 <= j < |users| ==> users'[j].id == users[j].id;
    forall id ensures IndexOfId(users', id) == IndexOfId(users, id) {
      IndexOfIdSameIds(users, users', id);
    }
  }

  lemma {:induction false} IndexOfIdSameIds(a: seq<User>, b: seq<User>, id: string)
    requires |a| == |b| && forall j :: 0 <= j < |a| ==> a[j].id == b[j].id
    ensures IndexOfId(a, id) == IndexOfId(b, id)
    decreases |a|
  {
    if |a| > 0 {
      IndexOfIdSameIds(a[1..], b[1..], id);
    }
  }

  /** `userRef.child(id).child('fixedQuota').once('value')`, missing as 0:
      the stored value of the user with that id, 0 when it is unset or when
      no user has that id. */
  function FixedQuotaOf(users: seq<User>, id: string): (q: int)
    requires WellFormed(users)
    ensures forall j :: 0 <= j < |users| && users[j].id == id ==> q == OrZero(users[j].fixedQuota)
    ensures (forall j :: 0 <= j < |users| ==> users[j].id != id) ==> q == 0
  {
    match IndexOfId(users, id)
    case None => 0
    case Some(i) => OrZero(users[i].fixedQuota)
  }

  /** `userRef.child(id).child('usedQuota').once('value')`, missing as 0:
      the stored value of the user with that id, 0 when it is unset or when
      no user has that id. */
  function UsedQuotaOf(users: seq<User>, id: string): (q: int)
    requires WellFormed(users)
    ensures forall j :: 0 <= j < |users| && users[j].id == id ==> q == OrZero(users[j].usedQuota)
    ensures (forall j :: 0 <= j < |users| ==> users[j].id != id) ==> q == 0
  {
    match IndexOfId(users, id)
    case None => 0
    case Some(i) => OrZero(users[i].usedQuota)
  }

  /** The transaction `usage => (usage || 0) + 1` on one key's record. */
  function BumpUsage(u: User, key: string): (b: User)
    requires key in u.apiKeys
    ensures b.id == u.id && b.fixedQuota == u.fixedQuota && b.usedQuota == u.usedQuota
    ensures b.apiKeys.Keys == u.apiKeys.Keys
    ensures b.apiKeys[key].usage == Some(OrZero(u.apiKeys[key].usage) + 1)
    ensures forall k :: k in u.apiKeys && k != key ==> b.apiKeys[k] == u.apiKeys[k]
  {
    u.(apiKeys := u.apiKeys[key := u.apiKeys[key].(usage := Some(OrZero(u.apiKeys[key].usage) + 1))])
  }

  /** The transaction `usedQuota => (usedQuota || 0) + 1`. */
  function ConsumeQuota(u: User): (b: User)
    ensures b.id == u.id && b.apiKeys == u.apiKeys && b.fixedQuota == u.fixedQuota
    ensures b.usedQuota == Some(OrZero(u.usedQuota) + 1)
  {
    u.(usedQuota := Some(OrZero(u.usedQuota) + 1))
  }

  datatype AuthResult = Authenticated(userId: string) | InvalidApiKey

  /** The names every plain JavaScript object inherits from
      `Object.prototype`; reading one of them gives a function or an object,
      which is truthy. */
  const InheritedNames: set<string> := {
    "constructor", "__proto__", "hasOwnProperty", "isPrototypeOf",
    "propertyIsEnumerable", "toString", "toLocaleString", "valueOf",
    "__defineGetter__", "__defineSetter__", "__lookupGetter__", "__lookupSetter__"}

  /** `users[key].APIKeys[apiKey]` is truthy as the source evaluates it: the
      name is one of the user's keys, or one every object inherits. */
  predicate LooksUpTruthy(u: User, key: string) {
    key in u.apiKeys || key in InheritedNames
  }

  /** The `find` of line 86 as written: the first user for whom the property
      read is truthy. */
  function FirstOwnerAsWritten(users: seq<User>, key: string): (r: Option<nat>)
    ensures r.Some? ==>
      && r.value < |users| && LooksUpTruthy(users[r.value], key)
      && forall j :: 0 <= j < r.value ==> !LooksUpTruthy(users[j], key)
    ensures r.None? <==> forall j :: 0 <= j < |users| ==> !LooksUpTruthy(users[j], key)
  {
    if |users| == 0 then None
    else if LooksUpTruthy(users[0], key) then Some(0)
    else
      match FirstOwnerAsWritten(users[1..], key)
      case None => None
      case Some(i) => Some(i + 1)
  }

  /** The usage transaction as written: on a name the user does not hold, the
      write to `APIKeys/<key>/usage` creates that record with usage 1. */
  function BumpUsageAsWritten(u: User, key: string): (b: User)
    ensures b.id == u.id && b.fixedQuota == u.fixedQuota && b.usedQuota == u.usedQuota
    ensures b.apiKeys.Keys == u.apiKeys.Keys + {key}
    ensures key in u.apiKeys ==> b.apiKeys[key].usage == Some(OrZero(u.apiKeys[key].usage) + 1)
    ensures key !in u.apiKeys ==> b.apiKeys[key] == KeyRecord(Some(1))
    ensures forall k :: k in u.apiKeys && k != key ==> b.apiKeys[k] == u.apiKeys[k]
  {
    if key in u.apiKeys then BumpUsage(u, key) else u.(apiKeys := u.apiKeys[key := KeyRecord(Some(1))])
  }

  /** `authenticateAPIKey` as written: the request is refused with 401 only
      when no user's property read is truthy, which for an inherited name
      means only when the table is empty. */
  function AuthenticateAsWritten(users: seq<User>, header: Option<string>): (r: (AuthResult, seq<User>))
    requires WellFormed(users)
    ensures WellFormed(r.1) && |r.1| == |users|
    ensures r.0 == InvalidApiKey <==>
      && (|users| == 0 || PropertyKey(header) !in InheritedNames)
      && forall i :: 0 <= i < |users| ==> PropertyKey(header) !in users[i].apiKeys
    ensures r.0 == InvalidApiKey ==> r.1 == users
    ensures r.0.Authenticated? ==>
      && FirstOwnerAsWritten(users, PropertyKey(header)).Some?
      && var i := FirstOwnerAsWritten(users, PropertyKey(header)).value;
      && r.0.userId == users[i].id
      && r.1 == users[i := BumpUsageAsWritten(users[i], PropertyKey(header))]
  {
    var key := PropertyKey(header);
    var owner := FirstOwnerAsWritten(users, key);
    if owner.None? then (InvalidApiKey, users)
    else
      var i := owner.value;
      var u := BumpUsageAsWritten(users[i], key);
      ReplaceUser(users, i, u);
      (Authenticated(users[i].id), users[i := u])
  }

  /** The source lets any inherited name through: with a non-empty table, an
      `x-api-key` of "constructor" (or any other inherited name) that no user
      holds authenticates as the first user and creates a usage record for
      it, where the corrected lookup answers 401 and changes nothing. */
  lemma InheritedNameBypass(users: seq<User>, header: Option<string>)
    requires WellFormed(users) && |users| > 0
    requires PropertyKey(header) in InheritedNames
    requires forall i :: 0 <= i < |users| ==> PropertyKey(header) !in users[i].apiKeys
    ensures Authenticate(users, header) == (InvalidApiKey, users)
    ensures var r := AuthenticateAsWritten(users, header);
      && r.0 == Authenticated(users[0].id)
      && PropertyKey(header) in r.1[0].apiKeys
      && r.1[0].apiKeys[PropertyKey(header)] == KeyRecord(Some(1))
  {
    assert FirstOwnerAsWritten(users, PropertyKey(header)) == Some(0);
  }

  /** `authenticateAPIKey` with the corrected lookup: an unknown key is a 401 and changes nothing; a
      known key binds the request to the first user holding it and counts one
      use of that key, and nothing else changes. */
  function Authenticate(users: seq<User>, header: Option<string>): (r: (AuthResult, seq<User>))
    requires WellFormed(users)
    ensures WellFormed(r.1) && |r.1| == |users|
    ensures r.0 == InvalidApiKey <==> forall i :: 0 <= i < |users| ==> PropertyKey(header) !in users[i].apiKeys
    ensures r.0 == InvalidApiKey ==> r.1 == users
    ensures r.0.Authenticated? ==>
      && FirstOwner(users, PropertyKey(header)).Some?
      && var i := FirstOwner(users, PropertyKey(header)).value;
      && r.0.userId == users[i].id
      && r.1[i].apiKeys.Keys == users[i].apiKeys.Keys
      && r.1[i].apiKeys[PropertyKey(header)].usage == Some(OrZero(users[i].apiKeys[PropertyKey(header)].usage) + 1)
      && (forall k :: k in users[i].apiKeys && k != PropertyKey(header) ==> r.1[i].apiKeys[k] == users[i].apiKeys[k])
      && (forall j :: 0 <= j < |users| && j != i ==> r.1[j] == users[j])
    ensures forall j :: 0 <= j < |users| ==>
      && r.1[j].id == users[j].id && r.1[j].apiKeys.Keys == users[j].apiKeys.Keys
      && r.1[j].fixedQuota == users[j].fixedQuota && r.1[j].usedQuota == users[j].usedQuota
  {
    var key := PropertyKey(header);
    var owner := FirstOwner(users, key);
    if owner.None? then (InvalidApiKey, users)
    else
      var i := owner.value;
      var u := BumpUsage(users[i], key);
      ReplaceUser(users, i, u);
      (Authenticated(users[i].id), users[i := u])
  }

  datatype QuotaResult = Granted | QuotaExceeded | StoreFailed

  /** `verifyQuota`: when both reads succeed, the request is granted exactly
      when `usedQuota < fixedQuota`, and a grant adds one to that user's
      `usedQuota` and changes nothing else; a refusal or a failed read changes
      nothing. */
  function CheckQuota(users: seq<User>, userId: string, readsSucceed: bool): (r: (QuotaResult, seq<User>))
    requires WellFormed(users)
    ensures WellFormed(r.1) && |r.1| == |users|
    ensures !readsSucceed ==> r == (StoreFailed, users)
    ensures readsSucceed ==> (r.0 == Granted <==> UsedQuotaOf(users, userId) < FixedQuotaOf(users, userId))
    ensures r.0 != Granted ==> r.1 == users
    ensures r.0 == Granted ==>
      && UsedQuotaOf(r.1, userId) == UsedQuotaOf(users, userId) + 1
      && FixedQuotaOf(r.1, userId) == FixedQuotaOf(users, userId)
    ensures forall j :: 0 <= j < |users| ==>
      r.1[j] == if users[j].id == userId then users[j].(usedQuota := r.1[j].usedQuota) else users[j]
  {
    if !readsSucceed then (StoreFailed, users)
    else if UsedQuotaOf(users, userId) < FixedQuotaOf(users, userId) then
      var i := IndexOfId(users, userId).value;
      var users' := users[i := ConsumeQuota(users[i])];
      ReplaceUser(users, i, ConsumeQuota(users[i]));
      (Granted, users')
    else (QuotaExceeded, users)
  }

  /** `n` requests in a row through the quota gate for one user; returns how
      many were granted. */
  function GateRepeatedly(users: seq<User>, userId: string, n: nat): (r: (nat, seq<User>))
    requires WellFormed(users)
    ensures WellFormed(r.1)
    decreases n
  {
    if n == 0 then (0, users)
    else
      var (result, users') := CheckQuota(users, userId, true);
      var (grants, users'') := GateRepeatedly(users', userId, n - 1);
      (if result == Granted then grants + 1 else grants, users'')
  }

  /** Served one after another, requests never overshoot the quota: of `n`
      requests exactly `min(n, fixedQuota - usedQuota)` are granted (none when
      the quota is already used up), and `usedQuota` grows by that number. */
  lemma {:induction false} SequentialGrants(users: seq<User>, userId: string, n: nat)
    requires WellFormed(users)
    ensures var (grants, users') := GateRepeatedly(users, userId, n);
      var fixed, used := FixedQuotaOf(users, userId), UsedQuotaOf(users, userId);
      && grants == (if used < fixed then Min(n, fixed - used) else 0)
      && UsedQuotaOf(users', userId) == used + grants
      && FixedQuotaOf(users', userId) == fixed
    decreases n
  {
    if n > 0 {
      var (result, users') := CheckQuota(users, userId, true);
      SequentialGrants(users', userId, n - 1);
    }
  }

  /** The in-memory `Users` table with the two middleware steps that update it. */
  class UserStore {
    var users: seq<User>

    ghost predicate Valid()
      reads this
    {
      WellFormed(users)
    }

    constructor (initial: seq<User>)
      requires WellFormed(initial)
      ensures Valid() && users == initial
    {
      users := initial;
    }

    /** `authenticateAPIKey`: look up the key, bump its usage counter, and
        return the owner's id (the request's `userId` and `userRef`). */
    method AuthenticateApiKey(header: Option<string>) returns (result: AuthResult)
      requires Valid()
      modifies this
      ensures Valid()
      ensures (result, users) == Authenticate(old(users), header)
    {
      var key := PropertyKey(header);
      var owner := FirstOwner(users, key);
      if owner.Some? {
        var i := owner.value;
        users := users[i := BumpUsage(users[i], key)];
        result := Authenticated(users[i].id);
      } else {
        result := InvalidApiKey;
      }
    }

    /** `verifyQuota`: read both counters, then grant and consume one unit or
        refuse; `readsSucceed` stands for the outcome of the two reads. */
    method VerifyQuota(userId: string, readsSucceed: bool) returns (result: QuotaResult)
      requires Valid()
      modifies this
      ensures Valid()
      ensures (result, users) == CheckQuota(old(users), userId, readsSucceed)
    {
      if !readsSucceed {
        return StoreFailed;
      }
      var quota := FixedQuotaOf(users, userId);
      var usedQuota := UsedQuotaOf(users, userId);
      if usedQuota < quota {
        var i := IndexOfId(users, userId).value;
        users := users[i := ConsumeQuota(users[i])];
        result := Granted;
      } else {
        result := QuotaExceeded;
      }
    }
  }
}
