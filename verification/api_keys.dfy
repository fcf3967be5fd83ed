/**
 The in-memory store of API keys: records by id, and ids by the hash of the current
 secret.  Fresh ids and secrets, the clock and the hash are parameters.
 */
module ApiKeys {
  import opened Options

  /** What the store keeps for others and never looks into: JSON, limits, budgets. */
  datatype Document = Document(text: string)

  datatype ApiKey = ApiKey(
    id: string,
    name: string,
    key: string,
    scopes: seq<string>,
    enabled: bool,
    createdAt: int,
    lastUsedAt: Option<int>,
    expiresAt: Option<int>,
    usageCount: nat,
    metadata: Option<Document>,
    orgId: Option<string>,
    teamId: Option<string>,
    userId: Option<string>,
    models: Option<seq<string>>,
    rateLimitOverride: Option<Document>,
    tokenBudget: Option<Document>)

  datatype CreateRequest = CreateRequest(
    name: string,
    scopes: seq<string>,
    expiresAt: Option<int>,
    metadata: Option<Document>,
    orgId: Option<string>,
    teamId: Option<string>,
    userId: Option<string>,
    models: Option<seq<string>>,
    rateLimitOverride: Option<Document>,
    tokenBudget: Option<Document>)

  /** Absent fields are left alone; a present one may clear an optional value. */
  datatype UpdateRequest = UpdateRequest(
    name: Option<string>,
    scopes: Option<seq<string>>,
    enabled: Option<bool>,
    expiresAt: Option<Option<int>>,
    metadata: Option<Option<Document>>,
    orgId: Option<Option<string>>,
    teamId: Option<Option<string>>,
    userId: Option<Option<string>>,
    models: Option<Option<seq<string>>>,
    rateLimitOverride: Option<Option<Document>>,
    tokenBudget: Option<Option<Document>>)

  function Or<T>(o: Option<T>, otherwise: T): T {
    if o.Some? then o.value else otherwise
  }

  function NewKey(r: CreateRequest, id: string, stored: string, now: int): ApiKey {
    ApiKey(id, r.name, stored, r.scopes, true, now, None, r.expiresAt, 0,
           r.metadata, r.orgId, r.teamId, r.userId, r.models,
           r.rateLimitOverride, r.tokenBudget)
  }

  function Updated(k: ApiKey, r: UpdateRequest): ApiKey {
    k.(name := Or(r.name, k.name),
       scopes := Or(r.scopes, k.scopes),
       enabled := Or(r.enabled, k.enabled),
       expiresAt := Or(r.expiresAt, k.expiresAt),
       metadata := Or(r.metadata, k.metadata),
       orgId := Or(r.orgId, k.orgId),
       teamId := Or(r.teamId, k.teamId),
       userId := Or(r.userId, k.userId),
       models := Or(r.models, k.models),
       rateLimitOverride := Or(r.rateLimitOverride, k.rateLimitOverride),
       tokenBudget := Or(r.tokenBudget, k.tokenBudget))
  }

  /** A key may be used at `now`. */
  predicate Live(enabled: bool, expiresAt: Option<int>, now: int) {
    enabled && (expiresAt.None? || now <= expiresAt.value)
  }

  function MaskedDisplay(stored: string): string {
    "sk-****" + if |stored| > 6 then stored[|stored| - 6..] else stored
  }

  function Masked(k: ApiKey): ApiKey {
    k.(key := MaskedDisplay(k.key))
  }

  datatype Tables = Tables(keys: map<string, ApiKey>, byKey: map<string, string>)

  /** The two maps are inverse to each other. */
  ghost predicate Inverse(t: Tables) {
    && (forall id :: id in t.keys ==> t.keys[id].id == id)
    && (forall id :: id in t.keys ==> t.keys[id].key in t.byKey && t.byKey[t.keys[id].key] == id)
    && (forall h :: h in t.byKey ==> t.byKey[h] in t.keys && t.keys[t.byKey[h]].key == h)
  }

  // ---------------------------------------------------------------------------
  // Operations on the tables
  // ---------------------------------------------------------------------------

  datatype Op =
    | Create(request: CreateRequest, id: string, secret: string, now: int)
    | Update(id: string, change: UpdateRequest)
    | Rotate(id: string, secret: string)
    | Revoke(id: string)
    | Delete(id: string)
    | Validate(secret: string, now: int)

  type Hash = string -> string

  /** The id a secret opens at `now`, if any. */
  function Opened(hash: Hash, t: Tables, secret: string, now: int): Option<string> {
    var h := hash(secret);
    if h in t.byKey && t.byKey[h] in t.keys
       && Live(t.keys[t.byKey[h]].enabled, t.keys[t.byKey[h]].expiresAt, now)
    then Some(t.byKey[h]) else None
  }

  function Next(hash: Hash, t: Tables, op: Op): Tables {
    match op
    case Create(request, id, secret, now) =>
      Tables(t.keys[id := NewKey(request, id, hash(secret), now)], t.byKey[hash(secret) := id])
    case Update(id, change) =>
      if id in t.keys then t.(keys := t.keys[id := Updated(t.keys[id], change)]) else t
    case Rotate(id, secret) =>
      if id in t.keys then
        Tables(t.keys[id := t.keys[id].(key := hash(secret))],
               (t.byKey - {t.keys[id].key})[hash(secret) := id])
      else t
    case Revoke(id) =>
      if id in t.keys then t.(keys := t.keys[id := t.keys[id].(enabled := false)]) else t
    case Delete(id) =>
      if id in t.keys then Tables(t.keys - {id}, t.byKey - {t.keys[id].key}) else t
    case Validate(secret, now) =>
      var matching := Opened(hash, t, secret, now);
      if matching.Some? then
        var k := t.keys[matching.value];
        t.(keys := t.keys[matching.value := k.(lastUsedAt := Some(now), usageCount := k.usageCount + 1)])
      else t
  }

  /** A new id or secret collides with none in the tables. */
  ghost predicate Fits(hash: Hash, t: Tables, op: Op) {
    && (op.Create? ==> op.id !in t.keys && hash(op.secret) !in t.byKey)
    && (op.Rotate? ==> hash(op.secret) !in t.byKey)
  }

  lemma StepKeepsInverse(hash: Hash, t: Tables, op: Op)
    requires Inverse(t) && Fits(hash, t, op)
    ensures Inverse(Next(hash, t, op))
  {
    var n := Next(hash, t, op);
    match op {
      case Create(_, id, secret, _) =>
      case Rotate(id, secret) =>
        forall h | h in n.byKey ensures n.byKey[h] in n.keys && n.keys[n.byKey[h]].key == h {
          if id in t.keys && h != hash(secret) {
            assert h != t.keys[id].key && t.byKey[h] != id;
          }
        }
      case Delete(id) =>
        forall h | h in n.byKey ensures n.byKey[h] in n.keys && n.keys[n.byKey[h]].key == h {
          if id in t.keys {
            assert h != t.keys[id].key && t.byKey[h] != id;
          }
        }
      case _ =>
    }
  }

  /** A new key is enabled, unused, stored under the hash, and otherwise as requested. */
  lemma NewKeyFields(r: CreateRequest, id: string, stored: string, now: int)
    ensures var k := NewKey(r, id, stored, now);
            && k.id == id && k.key == stored && k.enabled && k.usageCount == 0 && k.lastUsedAt == None
            && k.createdAt == now && k.expiresAt == r.expiresAt && k.name == r.name && k.scopes == r.scopes
            && k.metadata == r.metadata && k.orgId == r.orgId && k.teamId == r.teamId && k.userId == r.userId
            && k.models == r.models && k.rateLimitOverride == r.rateLimitOverride && k.tokenBudget == r.tokenBudget
  {
  }

  /** An update sets the fields it names, also to nothing, and leaves the others. */
  lemma UpdatedFields(k: ApiKey, r: UpdateRequest)
    ensures var u := Updated(k, r);
            && u.id == k.id && u.key == k.key && u.createdAt == k.createdAt
            && u.lastUsedAt == k.lastUsedAt && u.usageCount == k.usageCount
            && u.name == (if r.name.Some? then r.name.value else k.name)
            && u.scopes == (if r.scopes.Some? then r.scopes.value else k.scopes)
            && u.enabled == (if r.enabled.Some? then r.enabled.value else k.enabled)
            && u.expiresAt == (if r.expiresAt.Some? then r.expiresAt.value else k.expiresAt)
            && u.metadata == (if r.metadata.Some? then r.metadata.value else k.metadata)
            && u.orgId == (if r.orgId.Some? then r.orgId.value else k.orgId)
            && u.teamId == (if r.teamId.Some? then r.teamId.value else k.teamId)
            && u.userId == (if r.userId.Some? then r.userId.value else k.userId)
            && u.models == (if r.models.Some? then r.models.value else k.models)
            && u.rateLimitOverride == (if r.rateLimitOverride.Some? then r.rateLimitOverride.value else k.rateLimitOverride)
            && u.tokenBudget == (if r.tokenBudget.Some? then r.tokenBudget.value else k.tokenBudget)
  {
  }

  /** Of a stored hash a caller sees the last six characters, and nothing else of the record changes. */
  lemma MaskedShowsTheEnd(k: ApiKey)
    ensures |k.key| > 6 ==> Masked(k).key == "sk-****" + k.key[|k.key| - 6..] && |Masked(k).key| == 13
    ensures |k.key| <= 6 ==> Masked(k).key == "sk-****" + k.key
    ensures Masked(k).(key := k.key) == k
  {
  }

  class ApiKeyStore {
    const hash: Hash
    var keys: map<string, ApiKey>
    var keysByKey: map<string, string>

    function View(): Tables
      reads this
    {
      Tables(keys, keysByKey)
    }

    ghost predicate Valid()
      reads this
    {
      Inverse(View())
    }

    constructor (hash: Hash)
      ensures Valid() && View() == Tables(map[], map[]) && this.hash == hash
    {
      this.hash := hash;
      keys := map[];
      keysByKey := map[];
    }

    method Create(request: CreateRequest, id: string, secret: string, now: int) returns (created: ApiKey)
      requires Valid() && Fits(hash, View(), Op.Create(request, id, secret, now))
      modifies this
      ensures Valid() && View() == Next(hash, old(View()), Op.Create(request, id, secret, now))
      ensures created == NewKey(request, id, secret, now)
    {
      StepKeepsInverse(hash, View(), Op.Create(request, id, secret, now));
      var apiKey := NewKey(request, id, hash(secret), now);
      keys := keys[id := apiKey];
      keysByKey := keysByKey[hash(secret) := id];
      created := apiKey.(key := secret);
    }

    method Get(id: string) returns (found: Option<ApiKey>)
      ensures found == if id in keys then Some(Masked(keys[id])) else None
    {
      if id in keys {
        return Some(Masked(keys[id]));
      }
      return None;
    }

    method Update(id: string, change: UpdateRequest) returns (updated: Option<ApiKey>)
      requires Valid()
      modifies this
      ensures Valid() && View() == Next(hash, old(View()), Op.Update(id, change))
      ensures updated == if id in keys then Some(Masked(keys[id])) else None
    {
      StepKeepsInverse(hash, View(), Op.Update(id, change));
      if id in keys {
        var key := Updated(keys[id], change);
        keys := keys[id := key];
        return Some(Masked(key));
      }
      return None;
    }

    method Delete(id: string) returns (deleted: bool)
      requires Valid()
      modifies this
      ensures Valid() && View() == Next(hash, old(View()), Op.Delete(id))
      ensures deleted == (id in old(keys))
    {
      StepKeepsInverse(hash, View(), Op.Delete(id));
      deleted := id in keys;
      if deleted {
        var stored := keys[id].key;
        keys := keys - {id};
        keysByKey := keysByKey - {stored};
      }
    }

    method Validate(secret: string, now: int) returns (accepted: Option<ApiKey>)
      requires Valid()
      modifies this
      ensures Valid() && View() == Next(hash, old(View()), Op.Validate(secret, now))
      ensures var matching := Opened(hash, old(View()), secret, now);
              accepted == if matching.Some? then Some(Masked(keys[matching.value])) else None
      ensures accepted.Some? <==>
                && hash(secret) in old(keysByKey) && old(keysByKey)[hash(secret)] in old(keys)
                && old(keys)[old(keysByKey)[hash(secret)]].enabled
                && (old(keys)[old(keysByKey)[hash(secret)]].expiresAt.Some? ==>
                      now <= old(keys)[old(keysByKey)[hash(secret)]].expiresAt.value)
    {
      var keyHash := hash(secret);
      if keyHash !in keysByKey {
        return None;
      }
      var id := keysByKey[keyHash];
      if id !in keys {
        return None;
      }
      var entry := keys[id];
      if !entry.enabled {
        return None;
      }
      if entry.expiresAt.Some? {
        if now > entry.expiresAt.value {
          return None;
        }
      }
      entry := entry.(lastUsedAt := Some(now), usageCount := entry.usageCount + 1);
      keys := keys[id := entry];
      accepted := Some(Masked(entry));
    }

    method Revoke(id: string) returns (found: bool)
      requires Valid()
      modifies this
      ensures Valid() && View() == Next(hash, old(View()), Op.Revoke(id))
      ensures found == (id in old(keys))
    {
      found := id in keys;
      if found {
        keys := keys[id := keys[id].(enabled := false)];
      }
    }

    method Rotate(id: string, secret: string) returns (rotated: Option<ApiKey>)
      requires Valid() && Fits(hash, View(), Op.Rotate(id, secret))
      modifies this
      ensures Valid() && View() == Next(hash, old(View()), Op.Rotate(id, secret))
      ensures rotated == if id in old(keys) then Some(old(keys)[id].(key := secret)) else None
    {
      StepKeepsInverse(hash, View(), Op.Rotate(id, secret));
      if id !in keys {
        return None;
      }
      var oldKey := keys[id];
      keysByKey := keysByKey - {oldKey.key};
      var stored := oldKey.(key := hash(secret));
      keys := keys[id := stored];
      keysByKey := keysByKey[hash(secret) := id];
      rotated := Some(stored.(key := secret));
    }
  }

  // ---------------------------------------------------------------------------
  // The history of one id
  // ---------------------------------------------------------------------------

  /** An account as its own history tells it: no maps, no hashes. */
  datatype Account = Account(secret: string, enabled: bool, expiresAt: Option<int>, uses: nat)

  predicate OpensAt(a: Account, secret: string, now: int) {
    a.secret == secret && a.enabled && (a.expiresAt.Some? ==> now <= a.expiresAt.value)
  }

  /** The account of `id` after `ops`, if it is present. */
  function AccountOf(ops: seq<Op>, id: string): Option<Account>
    decreases |ops|
  {
    if ops == [] then None else
      var l := |ops| - 1;
      AccountAfter(AccountOf(ops[..l], id), ops[l], id)
  }

  function AccountAfter(before: Option<Account>, op: Op, id: string): Option<Account> {
    match op
    case Create(request, i, secret, _) =>
      if i == id then Some(Account(secret, true, request.expiresAt, 0)) else before
    case Update(i, change) =>
      if i == id && before.Some?
      then Some(before.value.(enabled := Or(change.enabled, before.value.enabled),
                              expiresAt := Or(change.expiresAt, before.value.expiresAt)))
      else before
    case Rotate(i, secret) =>
      if i == id && before.Some? then Some(before.value.(secret := secret)) else before
    case Revoke(i) =>
      if i == id && before.Some? then Some(before.value.(enabled := false)) else before
    case Delete(i) => if i == id then None else before
    case Validate(secret, now) =>
      if before.Some? && OpensAt(before.value, secret, now)
      then Some(before.value.(uses := before.value.uses + 1)) else before
  }

  function Exec(hash: Hash, ops: seq<Op>): Tables
    decreases |ops|
  {
    if ops == [] then Tables(map[], map[]) else
      Next(hash, Exec(hash, ops[..|ops| - 1]), ops[|ops| - 1])
  }

  /** Secrets ever issued. */
  function Issued(ops: seq<Op>): set<string> {
    set i | 0 <= i < |ops| && (ops[i].Create? || ops[i].Rotate?) :: ops[i].secret
  }

  /** Ids of new keys are not in use, and no secret is issued twice. */
  ghost predicate FreshRun(ops: seq<Op>) {
    forall i :: 0 <= i < |ops| ==>
      && (ops[i].Create? ==> AccountOf(ops[..i], ops[i].id).None?)
      && (ops[i].Create? || ops[i].Rotate? ==> ops[i].secret !in Issued(ops[..i]))
  }

  ghost predicate Injective(hash: Hash) {
    forall a, b :: hash(a) == hash(b) ==> a == b
  }

  /** A record of the store tells the same as the history of its id. */
  ghost predicate Agrees(hash: Hash, k: ApiKey, a: Account) {
    k.key == hash(a.secret) && k.enabled == a.enabled && k.expiresAt == a.expiresAt && k.usageCount == a.uses
  }

  ghost predicate Represents(hash: Hash, t: Tables, ops: seq<Op>) {
    && Inverse(t)
    && (forall id :: id in t.keys <==> AccountOf(ops, id).Some?)
    && (forall id :: id in t.keys ==> Agrees(hash, t.keys[id], AccountOf(ops, id).value))
    && (forall id :: id in t.keys ==> AccountOf(ops, id).value.secret in Issued(ops))
  }

  lemma IssuedGrows(ops: seq<Op>, op: Op)
    ensures Issued(ops + [op])
         == Issued(ops) + (if op.Create? || op.Rotate? then {op.secret} else {})
  {
    var all := ops + [op];
    assert forall i :: 0 <= i < |ops| ==> all[i] == ops[i];
    assert all[|ops|] == op;
    forall s ensures s in Issued(all)
                     <==> s in Issued(ops) || ((op.Create? || op.Rotate?) && s == op.secret) {
      if s in Issued(ops) {
        var i :| 0 <= i < |ops| && (ops[i].Create? || ops[i].Rotate?) && ops[i].secret == s;
        assert all[i].secret == s;
      }
    }
  }

  /** In a store that represents its history a secret opens an id exactly when its account says so. */
  lemma OpensIff(hash: Hash, t: Tables, ops: seq<Op>, secret: string, now: int, id: string)
    requires Injective(hash) && Represents(hash, t, ops)
    ensures Opened(hash, t, secret, now) == Some(id)
            <==> AccountOf(ops, id).Some? && OpensAt(AccountOf(ops, id).value, secret, now)
  {
    if AccountOf(ops, id).Some? {
      assert Agrees(hash, t.keys[id], AccountOf(ops, id).value);
    }
  }

  /** A fresh secret's hash is not in the tables. */
  lemma FreshFits(hash: Hash, t: Tables, ops: seq<Op>, op: Op)
    requires Injective(hash) && Represents(hash, t, ops)
    requires op.Create? ==> AccountOf(ops, op.id).None?
    requires op.Create? || op.Rotate? ==> op.secret !in Issued(ops)
    ensures Fits(hash, t, op)
  {
    if op.Create? || op.Rotate? {
      forall id | id in t.keys ensures t.keys[id].key != hash(op.secret) {
        assert Agrees(hash, t.keys[id], AccountOf(ops, id).value);
      }
    }
  }

  ghost predicate Tracks(hash: Hash, n: Tables, after: Option<Account>, id: string) {
    && (id in n.keys <==> after.Some?)
    && (id in n.keys ==> Agrees(hash, n.keys[id], after.value))
  }

  lemma ValidateStep(hash: Hash, t: Tables, ops: seq<Op>, op: Op, id: string)
    requires Injective(hash) && Represents(hash, t, ops) && op.Validate?
    ensures Tracks(hash, Next(hash, t, op), AccountAfter(AccountOf(ops, id), op, id), id)
  {
    OpensIff(hash, t, ops, op.secret, op.now, id);
    assert Tracks(hash, t, AccountOf(ops, id), id);
  }

  lemma EditStep(hash: Hash, t: Tables, before: Option<Account>, op: Op, id: string)
    requires Inverse(t) && !op.Validate?
    requires Tracks(hash, t, before, id)
    ensures Tracks(hash, Next(hash, t, op), AccountAfter(before, op, id), id)
  {
  }

  /** One operation on the tables does to each id what it does to its account. */
  lemma IdStep(hash: Hash, t: Tables, ops: seq<Op>, op: Op, id: string)
    requires Injective(hash) && Represents(hash, t, ops) && Fits(hash, t, op)
    ensures Tracks(hash, Next(hash, t, op), AccountAfter(AccountOf(ops, id), op, id), id)
  {
    if op.Validate? {
      ValidateStep(hash, t, ops, op, id);
    } else {
      EditStep(hash, t, AccountOf(ops, id), op, id);
    }
  }

  lemma SecretIssued(ops: seq<Op>, op: Op, id: string)
    requires AccountOf(ops, id).Some? ==> AccountOf(ops, id).value.secret in Issued(ops)
    requires AccountAfter(AccountOf(ops, id), op, id).Some?
    ensures AccountAfter(AccountOf(ops, id), op, id).value.secret in Issued(ops + [op])
  {
    IssuedGrows(ops, op);
  }

  lemma StepRepresents(hash: Hash, t: Tables, ops: seq<Op>, op: Op)
    requires Injective(hash) && Represents(hash, t, ops)
    requires op.Create? ==> AccountOf(ops, op.id).None?
    requires op.Create? || op.Rotate? ==> op.secret !in Issued(ops)
    ensures Represents(hash, Next(hash, t, op), ops + [op])
  {
    var all := ops + [op];
    assert all[..|ops|] == ops;
    FreshFits(hash, t, ops, op);
    StepKeepsInverse(hash, t, op);
    var n := Next(hash, t, op);
    forall id
      ensures id in n.keys <==> AccountOf(all, id).Some?
      ensures id in n.keys ==> Agrees(hash, n.keys[id], AccountOf(all, id).value)
      ensures id in n.keys ==> AccountOf(all, id).value.secret in Issued(all)
    {
      assert AccountOf(all, id) == AccountAfter(AccountOf(ops, id), op, id);
      IdStep(hash, t, ops, op, id);
      if AccountOf(all, id).Some? {
        SecretIssued(ops, op, id);
      }
    }
  }

  /** Every run keeps the maps inverse and tells of each id what its own history tells. */
  lemma {:induction false} RunRepresents(hash: Hash, ops: seq<Op>)
    requires Injective(hash) && FreshRun(ops)
    ensures Represents(hash, Exec(hash, ops), ops)
    decreases |ops|
  {
    if ops != [] {
      var l := |ops| - 1;
      assert forall i :: 0 <= i <= l ==> ops[..l][..i] == ops[..i];
      RunRepresents(hash, ops[..l]);
      StepRepresents(hash, Exec(hash, ops[..l]), ops[..l], ops[l]);
      assert ops[..l] + [ops[l]] == ops;
    }
  }

  /**
   After any run a secret is accepted exactly when it is the one last issued for an id
   that is present, enabled and not expired; and a key's use count is the number of times
   it was accepted since it was created.
   */
  lemma ValidatesLatestSecretOnly(hash: Hash, ops: seq<Op>, secret: string, now: int)
    requires Injective(hash) && FreshRun(ops)
    ensures Inverse(Exec(hash, ops))
    ensures Opened(hash, Exec(hash, ops), secret, now).Some?
            <==> exists id :: AccountOf(ops, id).Some?
                   && AccountOf(ops, id).value.secret == secret
                   && AccountOf(ops, id).value.enabled
                   && (AccountOf(ops, id).value.expiresAt.None? || now <= AccountOf(ops, id).value.expiresAt.value)
    ensures forall id :: id in Exec(hash, ops).keys ==>
              AccountOf(ops, id).Some? && Exec(hash, ops).keys[id].usageCount == AccountOf(ops, id).value.uses
  {
    RunRepresents(hash, ops);
    var t := Exec(hash, ops);
    if Opened(hash, t, secret, now).Some? {
      var id := Opened(hash, t, secret, now).value;
      OpensIff(hash, t, ops, secret, now, id);
    }
    if id :| AccountOf(ops, id).Some? && OpensAt(AccountOf(ops, id).value, secret, now) {
      OpensIff(hash, t, ops, secret, now, id);
    }
  }

  /** The operation switches the id on: an update that enables it, or its creation. */
  predicate Enables(op: Op, id: string) {
    || (op.Update? && op.id == id && op.change.enabled == Some(true))
    || (op.Create? && op.id == id)
  }

  lemma {:induction false} StaysDisabled(ops: seq<Op>, more: seq<Op>, id: string)
    requires AccountOf(ops, id).Some? ==> !AccountOf(ops, id).value.enabled
    requires forall i :: 0 <= i < |more| ==> !Enables(more[i], id)
    ensures AccountOf(ops + more, id).Some? ==> !AccountOf(ops + more, id).value.enabled
    decreases |more|
  {
    if more == [] {
      assert ops + more == ops;
    } else {
      var l := |more| - 1;
      StaysDisabled(ops, more[..l], id);
      assert ops + more == (ops + more[..l]) + [more[l]];
      AccountNext(ops + more[..l], more[l], id);
    }
  }

  lemma AccountNext(ops: seq<Op>, op: Op, id: string)
    ensures AccountOf(ops + [op], id) == AccountAfter(AccountOf(ops, id), op, id)
  {
    assert (ops + [op])[..|ops|] == ops;
  }

  /** After a revocation no secret opens the id, at any time, until an update enables it or it is created anew. */
  lemma RevokedStaysShut(hash: Hash, ops: seq<Op>, revoke: Op, more: seq<Op>, id: string, secret: string, now: int)
    requires Injective(hash) && revoke == Op.Revoke(id) && FreshRun(ops + [revoke] + more)
    requires forall i :: 0 <= i < |more| ==> !Enables(more[i], id)
    ensures Opened(hash, Exec(hash, ops + [revoke] + more), secret, now) != Some(id)
  {
    var all := ops + [revoke] + more;
    RevokedAccount(ops, revoke, id);
    StaysDisabled(ops + [revoke], more, id);
    RunRepresents(hash, all);
    OpensIff(hash, Exec(hash, all), all, secret, now, id);
  }

  lemma RevokedAccount(ops: seq<Op>, revoke: Op, id: string)
    requires revoke == Op.Revoke(id)
    ensures AccountOf(ops + [revoke], id).Some? ==> !AccountOf(ops + [revoke], id).value.enabled
  {
    AccountNext(ops, revoke, id);
  }

  /** A key past its expiry is not opened, and one without or before it is, if it is enabled. */
  lemma ExpiryDecides(hash: Hash, t: Tables, secret: string, now: int, id: string)
    requires Inverse(t) && id in t.keys && t.keys[id].key == hash(secret) && t.keys[id].enabled
    ensures Opened(hash, t, secret, now) == Some(id)
            <==> t.keys[id].expiresAt == None || t.keys[id].expiresAt.value >= now
  {
  }

  /** A secret that was replaced or whose key was deleted is never accepted again. */
  lemma RetiredSecretStaysDead(hash: Hash, ops: seq<Op>, more: seq<Op>, id: string, secret: string, now: int)
    requires Injective(hash) && FreshRun(ops + more)
    requires secret in Issued(ops)
    requires forall i :: AccountOf(ops, i).Some? ==> AccountOf(ops, i).value.secret != secret
    ensures Opened(hash, Exec(hash, ops + more), secret, now).None?
  {
    RunRepresents(hash, ops + more);
    StaysRetired(ops, more, secret);
    var t := Exec(hash, ops + more);
    if Opened(hash, t, secret, now).Some? {
      OpensIff(hash, t, ops + more, secret, now, Opened(hash, t, secret, now).value);
    }
  }

  /** An operation brings no retired secret back. */
  lemma NotReissued(before: Option<Account>, op: Op, id: string, secret: string)
    requires before.Some? ==> before.value.secret != secret
    requires op.Create? || op.Rotate? ==> op.secret != secret
    ensures var after := AccountAfter(before, op, id);
            after.Some? ==> after.value.secret != secret
  {
  }

  lemma {:induction false} StaysRetired(ops: seq<Op>, more: seq<Op>, secret: string)
    requires FreshRun(ops + more) && secret in Issued(ops)
    requires forall i :: AccountOf(ops, i).Some? ==> AccountOf(ops, i).value.secret != secret
    ensures secret in Issued(ops + more)
    ensures forall i :: AccountOf(ops + more, i).Some? ==> AccountOf(ops + more, i).value.secret != secret
    decreases |more|
  {
    if more == [] {
      assert ops + more == ops;
    } else {
      var l := |more| - 1;
      var all := ops + more;
      var before := ops + more[..l];
      assert all == before + [more[l]] && all[..|before|] == before && all[|before|] == more[l];
      FreshPrefix(all, |before|);
      StaysRetired(ops, more[..l], secret);
      IssuedGrows(before, more[l]);
      forall i ensures AccountOf(all, i).Some? ==> AccountOf(all, i).value.secret != secret {
        NotReissued(AccountOf(before, i), more[l], i, secret);
      }
    }
  }

  lemma FreshPrefix(ops: seq<Op>, n: nat)
    requires FreshRun(ops) && n <= |ops|
    ensures FreshRun(ops[..n])
  {
    assert forall i :: 0 <= i <= n ==> ops[..n][..i] == ops[..i];
  }
}
