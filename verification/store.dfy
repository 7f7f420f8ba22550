/**
 * An in-memory stand-in for the SQLite database of the deployment tracker: the
 * four tables created by `initDatabase`, their AUTOINCREMENT sequences, and the
 * credential operations of the data-access layer (validate, list, create,
 * toggle, delete, bootstrap the default key). Row lists are kept in ROWID order,
 * which is the order a plain `SELECT` scans them in.
 */
module Store {
  import opened Wrappers
  import opened Sequences
  import Js

  /** The text SQLite stores for `CURRENT_TIMESTAMP`; the clock is a parameter of the model. */
  type Timestamp = string

  datatype Application = Application(id: nat, name: string, description: Option<string>)
  datatype Region = Region(id: nat, name: string)
  datatype Deployment = Deployment(
    id: nat, applicationId: int, regionId: int,
    date: string, time: string, result: string, tag: Option<string>)
  datatype ApiKey = ApiKey(
    id: nat, keyName: string, apiKey: string,
    created: Timestamp, lastUsed: Option<Timestamp>, active: bool)

  /** What `createApiKey` hands back to its caller. */
  datatype NewKey = NewKey(id: nat, keyName: string, apiKey: string)

  /** The kinds of error a statement can report. */
  datatype StoreError =
    | IoError               // any failure outside the model (disk, lock, ...)
    | UniqueViolation       // a UNIQUE column would hold a value twice
    | ForeignKeyViolation   // a referenced Application or Region row is missing
    | NoSuchColumn          // the statement names a column the table lacks

  const DefaultKeyName: string := "Default Key"

  /** What `crypto.randomBytes(32).toString('hex')` produces: 64 lower-case hex digits. */
  predicate IsHexSecret(k: string)
  {
    |k| == 64 && forall i :: 0 <= i < |k| ==> k[i] in "0123456789abcdef"
  }

  // Column constraints, each stated as a relation every earlier row has to every later one.

  predicate DistinctApplications(a: Application, b: Application) { a.id != b.id && a.name != b.name }
  predicate DistinctRegions(a: Region, b: Region) { a.id != b.id && a.name != b.name }
  predicate DistinctDeployments(a: Deployment, b: Deployment) { a.id != b.id }
  predicate DistinctApiKeys(a: ApiKey, b: ApiKey) { a.id != b.id && a.apiKey != b.apiKey }

  function ApplicationName(a: Application): string { a.name }
  function RegionName(r: Region): string { r.name }
  /** The row `INSERT INTO Applications (Name)` creates: Description stays NULL. */
  function NewApplication(id: nat, name: string): Application { Application(id, name, None) }
  function NewRegion(id: nat, name: string): Region { Region(id, name) }

  /** Some row already holds `name` in its Name column. */
  predicate NameTaken<T(==)>(rows: seq<T>, name: string, nameOf: T -> string)
  {
    exists r :: r in rows && nameOf(r) == name
  }

  /** `INSERT OR IGNORE INTO t (Name) VALUES (name)` against a UNIQUE Name column. */
  function InsertOrIgnore<T(==)>(rows: seq<T>, id: nat, name: string, nameOf: T -> string, mk: (nat, string) -> T): (r: seq<T>)
  {
    if NameTaken(rows, name, nameOf) then rows else rows + [mk(id, name)]
  }

  function ApplicationById(apps: seq<Application>, id: int): (r: Option<Application>)
    ensures r.Some? ==> r.value in apps && r.value.id == id
    ensures r.None? ==> forall a :: a in apps ==> a.id != id
  {
    match FindIndex(apps, (a: Application) => a.id == id)
    case None => None
    case Some(i) => Some(apps[i])
  }

  function ApplicationByName(apps: seq<Application>, name: string): (r: Option<Application>)
    ensures r.Some? ==> r.value in apps && r.value.name == name
    ensures r.None? <==> !NameTaken(apps, name, ApplicationName)
  {
    match FindIndex(apps, (a: Application) => a.name == name)
    case None => None
    case Some(i) => Some(apps[i])
  }

  function RegionById(regions: seq<Region>, id: int): (r: Option<Region>)
    ensures r.Some? ==> r.value in regions && r.value.id == id
    ensures r.None? ==> forall g :: g in regions ==> g.id != id
  {
    match FindIndex(regions, (g: Region) => g.id == id)
    case None => None
    case Some(i) => Some(regions[i])
  }

  /** Every deployment names an existing application and an existing region. */
  ghost predicate ReferencesHold(apps: seq<Application>, regions: seq<Region>, deps: seq<Deployment>)
  {
    forall d :: d in deps ==>
      (exists a :: a in apps && a.id == d.applicationId) &&
      (exists g :: g in regions && g.id == d.regionId)
  }

  // Queries on the ApiKeys table.

  /** `SELECT * FROM ApiKeys WHERE ApiKey = ? AND Active = 1`: the first matching row. */
  function ActiveKeyIndex(keys: seq<ApiKey>, secret: string): (r: Option<nat>)
    ensures r.Some? ==> r.value < |keys| && keys[r.value].apiKey == secret && keys[r.value].active
    ensures r.None? <==> forall k :: k in keys ==> !(k.apiKey == secret && k.active)
  {
    FindIndex(keys, (k: ApiKey) => k.apiKey == secret && k.active)
  }

  /** `validateApiKey` answers true: a non-empty credential that an active row holds. */
  predicate Accepts(keys: seq<ApiKey>, credential: Option<string>): (ok: bool)
    ensures ok <==> && credential.Some? && credential.value != ""
                    && exists k :: k in keys && k.apiKey == credential.value && k.active
  {
    credential.Some? && credential.value != "" && ActiveKeyIndex(keys, credential.value).Some?
  }

  predicate SecretInUse(keys: seq<ApiKey>, secret: string)
  {
    exists k :: k in keys && k.apiKey == secret
  }

  predicate KeyIdExists(keys: seq<ApiKey>, id: int)
  {
    exists k :: k in keys && k.id == id
  }

  /** `SELECT ApiKey FROM ApiKeys WHERE ID = ?` */
  function KeyById(keys: seq<ApiKey>, id: int): (r: Option<ApiKey>)
    ensures r.Some? ==> r.value in keys && r.value.id == id
    ensures r.None? <==> !KeyIdExists(keys, id)
  {
    match FindIndex(keys, (k: ApiKey) => k.id == id)
    case None => None
    case Some(i) => Some(keys[i])
  }

  /** `UPDATE ApiKeys SET LastUsed = CURRENT_TIMESTAMP WHERE ID = ?` for the row at index `i`. */
  function Touch(keys: seq<ApiKey>, i: nat, now: Timestamp): (r: seq<ApiKey>)
    requires i < |keys|
    ensures |r| == |keys|
  {
    keys[i := keys[i].(lastUsed := Some(now))]
  }

  /** `UPDATE ApiKeys SET Active = ? WHERE ID = ?` */
  function SetActive(keys: seq<ApiKey>, id: int, active: bool): (r: seq<ApiKey>)
    ensures |r| == |keys|
  {
    seq(|keys|, i requires 0 <= i < |keys| =>
      if keys[i].id == id then keys[i].(active := active) else keys[i])
  }

  function OtherThan(id: int): ApiKey -> bool
  {
    (k: ApiKey) => k.id != id
  }

  /** `DELETE FROM ApiKeys WHERE ID = ?` */
  function RemoveKey(keys: seq<ApiKey>, id: int): seq<ApiKey>
  {
    Filter(keys, OtherThan(id))
  }

  /**
   * The database. Each table is a field holding its rows; each `next…Id` field is
   * the AUTOINCREMENT sequence (one more than the largest ID ever handed out).
   */
  class Database {
    var applications: seq<Application>
    var regions: seq<Region>
    var deployments: seq<Deployment>
    var apiKeys: seq<ApiKey>
    var nextApplicationId: nat
    var nextRegionId: nat
    var nextDeploymentId: nat
    var nextKeyId: nat
    /** Whether Applications has gained the Description column (it is not in the CREATE TABLE). */
    var hasDescriptionColumn: bool
    /** Whether the connection enforces FOREIGN KEY clauses (SQLite's `foreign_keys` setting). */
    const foreignKeys: bool

    /** The UNIQUE, PRIMARY KEY and FOREIGN KEY constraints of the schema. */
    ghost predicate Valid()
      reads this
    {
      && 0 < nextApplicationId && 0 < nextRegionId && 0 < nextDeploymentId && 0 < nextKeyId
      && Pairwise(applications, DistinctApplications)
      && (forall a :: a in applications ==> 0 < a.id < nextApplicationId)
      && (!hasDescriptionColumn ==> forall a :: a in applications ==> a.description.None?)
      && Pairwise(regions, DistinctRegions)
      && (forall g :: g in regions ==> 0 < g.id < nextRegionId)
      && Pairwise(deployments, DistinctDeployments)
      && (forall d :: d in deployments ==> 0 < d.id < nextDeploymentId)
      && (foreignKeys ==> ReferencesHold(applications, regions, deployments))
      && Pairwise(apiKeys, DistinctApiKeys)
      && (forall k :: k in apiKeys ==> 0 < k.id < nextKeyId)
    }

    /** A freshly created database file, right after `initDatabase` made its tables. */
    constructor (foreignKeys: bool)
      ensures Valid() && this.foreignKeys == foreignKeys
      ensures applications == [] && regions == [] && deployments == [] && apiKeys == []
      ensures !hasDescriptionColumn
    {
      this.foreignKeys := foreignKeys;
      applications, regions, deployments, apiKeys := [], [], [], [];
      nextApplicationId, nextRegionId, nextDeploymentId, nextKeyId := 1, 1, 1, 1;
      hasDescriptionColumn := false;
    }

    /**
     * `createDefaultApiKey`: counts the keys and, only when there are none, inserts
     * one named "Default Key". A failed count or insert changes nothing.
     */
    method CreateDefaultApiKey(secret: string, now: Timestamp, fault: bool)
      requires Valid() && IsHexSecret(secret)
      modifies this`apiKeys, this`nextKeyId
      ensures Valid()
      ensures old(apiKeys) != [] || fault ==> apiKeys == old(apiKeys) && nextKeyId == old(nextKeyId)
      ensures old(apiKeys) == [] && !fault ==>
        && apiKeys == [ApiKey(old(nextKeyId), DefaultKeyName, secret, now, None, true)]
        && nextKeyId == old(nextKeyId) + 1
    {
      if !fault && |apiKeys| == 0 {
        apiKeys := [ApiKey(nextKeyId, DefaultKeyName, secret, now, None, true)];
        nextKeyId := nextKeyId + 1;
      }
    }

    /**
     * `validateApiKey`: false for an absent or empty credential, for an unknown or
     * inactive one and when the lookup fails; true otherwise, and then the matched
     * row's LastUsed is set to `now` (the outcome of that update is not awaited).
     */
    method ValidateApiKey(credential: Option<string>, now: Timestamp, fault: bool) returns (valid: bool)
      requires Valid()
      modifies this`apiKeys
      ensures Valid()
      ensures valid == (Accepts(old(apiKeys), credential) && !fault)
      ensures valid ==> apiKeys == Touch(old(apiKeys), ActiveKeyIndex(old(apiKeys), credential.value).value, now)
      ensures !valid ==> apiKeys == old(apiKeys)
    {
      if credential.None? || credential.value == "" {
        return false;
      }
      if fault {
        return false;
      }
      var found := ActiveKeyIndex(apiKeys, credential.value);
      if found.None? {
        return false;
      }
      TouchKeepsConstraints(apiKeys, found.value, now);
      apiKeys := Touch(apiKeys, found.value, now);
      valid := true;
    }

    /** `getAllApiKeys`: every row, in table order. */
    method GetAllApiKeys(fault: bool) returns (r: Result<seq<ApiKey>, StoreError>)
      ensures fault ==> r == Failure(IoError)
      ensures !fault ==> r == Success(apiKeys)
    {
      if fault {
        return Failure(IoError);
      }
      return Success(apiKeys);
    }

    /**
     * `createApiKey`: inserts one active row with the given name and the fresh
     * secret; fails, inserting nothing, when the secret is already in use or the
     * store reports an error.
     */
    method CreateApiKey(keyName: string, secret: string, now: Timestamp, fault: bool)
      returns (r: Result<NewKey, StoreError>)
      requires Valid() && IsHexSecret(secret)
      modifies this`apiKeys, this`nextKeyId
      ensures Valid()
      ensures fault ==> r == Failure(IoError)
      ensures !fault && SecretInUse(old(apiKeys), secret) ==> r == Failure(UniqueViolation)
      ensures r.Failure? ==> apiKeys == old(apiKeys) && nextKeyId == old(nextKeyId)
      ensures !fault && !SecretInUse(old(apiKeys), secret) ==>
        && r == Success(NewKey(old(nextKeyId), keyName, secret))
        && apiKeys == old(apiKeys) + [ApiKey(old(nextKeyId), keyName, secret, now, None, true)]
        && nextKeyId == old(nextKeyId) + 1
    {
      if fault {
        return Failure(IoError);
      }
      if SecretInUse(apiKeys, secret) {
        return Failure(UniqueViolation);
      }
      var row := ApiKey(nextKeyId, keyName, secret, now, None, true);
      PairwiseSnoc(apiKeys, row, DistinctApiKeys);
      apiKeys := apiKeys + [row];
      r := Success(NewKey(nextKeyId, keyName, secret));
      nextKeyId := nextKeyId + 1;
    }

    /**
     * `toggleApiKeyStatus`: sets Active to 1 when `active` is truthy and to 0
     * otherwise on the row with that ID, and reports how many rows it matched.
     */
    method ToggleApiKeyStatus(id: int, active: Js.Value, fault: bool) returns (r: Result<nat, StoreError>)
      requires Valid()
      modifies this`apiKeys
      ensures Valid()
      ensures fault ==> r == Failure(IoError) && apiKeys == old(apiKeys)
      ensures !fault ==>
        && r == Success(if KeyIdExists(old(apiKeys), id) then 1 else 0)
        && apiKeys == SetActive(old(apiKeys), id, Js.Truthy(active))
    {
      if fault {
        return Failure(IoError);
      }
      var affected := if KeyIdExists(apiKeys, id) then 1 else 0;
      SetActiveKeepsConstraints(apiKeys, id, Js.Truthy(active));
      apiKeys := SetActive(apiKeys, id, Js.Truthy(active));
      r := Success(affected);
    }

    /** `deleteApiKey`: removes the row with that ID and reports how many rows went. */
    method DeleteApiKey(id: int, fault: bool) returns (r: Result<nat, StoreError>)
      requires Valid()
      modifies this`apiKeys
      ensures Valid()
      ensures fault ==> r == Failure(IoError) && apiKeys == old(apiKeys)
      ensures !fault ==>
        && r == Success(if KeyIdExists(old(apiKeys), id) then 1 else 0)
        && apiKeys == RemoveKey(old(apiKeys), id)
    {
      if fault {
        return Failure(IoError);
      }
      var affected := if KeyIdExists(apiKeys, id) then 1 else 0;
      FilterPairwise(apiKeys, OtherThan(id), DistinctApiKeys);
      forall k | k in RemoveKey(apiKeys, id) ensures 0 < k.id < nextKeyId {
        FilterMembership(apiKeys, OtherThan(id), k);
      }
      apiKeys := RemoveKey(apiKeys, id);
      r := Success(affected);
    }

    /**
     * `INSERT OR IGNORE INTO Applications (Name) VALUES (?)`, reporting `this.changes`.
     * AUTOINCREMENT draws the new ID before the UNIQUE check, and an ignored row
     * does not undo that, so the sequence advances either way.
     */
    method InsertOrIgnoreApplication(name: string) returns (changes: nat)
      requires Valid()
      modifies this`applications, this`nextApplicationId
      ensures Valid()
      ensures applications == InsertOrIgnore(old(applications), old(nextApplicationId), name, ApplicationName, NewApplication)
      ensures changes == (if NameTaken(old(applications), name, ApplicationName) then 0 else 1)
      ensures nextApplicationId == old(nextApplicationId) + 1
    {
      if NameTaken(applications, name, ApplicationName) {
        nextApplicationId := nextApplicationId + 1;
        return 0;
      }
      var row := NewApplication(nextApplicationId, name);
      PairwiseSnoc(applications, row, DistinctApplications);
      applications := applications + [row];
      nextApplicationId := nextApplicationId + 1;
      changes := 1;
    }

    /**
     * `INSERT OR IGNORE INTO Regions (Name) VALUES (?)`, reporting `this.changes`;
     * the sequence advances even when the row is ignored.
     */
    method InsertOrIgnoreRegion(name: string) returns (changes: nat)
      requires Valid()
      modifies this`regions, this`nextRegionId
      ensures Valid()
      ensures regions == InsertOrIgnore(old(regions), old(nextRegionId), name, RegionName, NewRegion)
      ensures changes == (if NameTaken(old(regions), name, RegionName) then 0 else 1)
      ensures nextRegionId == old(nextRegionId) + 1
    {
      if NameTaken(regions, name, RegionName) {
        nextRegionId := nextRegionId + 1;
        return 0;
      }
      var row := NewRegion(nextRegionId, name);
      PairwiseSnoc(regions, row, DistinctRegions);
      regions := regions + [row];
      nextRegionId := nextRegionId + 1;
      changes := 1;
    }

    /**
     * `ALTER TABLE Applications ADD COLUMN Description TEXT`: existing rows read
     * NULL in the new column; the statement fails if the column is already there.
     */
    method AddDescriptionColumn(fault: bool) returns (ok: bool)
      requires Valid()
      modifies this`hasDescriptionColumn
      ensures Valid()
      ensures ok == (!fault && !old(hasDescriptionColumn))
      ensures hasDescriptionColumn == (old(hasDescriptionColumn) || ok)
    {
      ok := !fault && !hasDescriptionColumn;
      if ok {
        hasDescriptionColumn := true;
      }
    }

    /** `INSERT INTO Applications (Name, Description) VALUES (?, ?)`, reporting `this.lastID`. */
    method InsertApplication(name: string, description: Option<string>, fault: bool)
      returns (r: Result<nat, StoreError>)
      requires Valid()
      modifies this`applications, this`nextApplicationId
      ensures Valid()
      ensures r == if fault then Failure(IoError)
                   else if !hasDescriptionColumn then Failure(NoSuchColumn)
                   else if NameTaken(old(applications), name, ApplicationName) then Failure(UniqueViolation)
                   else Success(old(nextApplicationId))
      ensures r.Failure? ==> applications == old(applications) && nextApplicationId == old(nextApplicationId)
      ensures r.Success? ==>
        && applications == old(applications) + [Application(old(nextApplicationId), name, description)]
        && nextApplicationId == old(nextApplicationId) + 1
    {
      if fault {
        return Failure(IoError);
      }
      if !hasDescriptionColumn {
        return Failure(NoSuchColumn);
      }
      if NameTaken(applications, name, ApplicationName) {
        return Failure(UniqueViolation);
      }
      var row := Application(nextApplicationId, name, description);
      PairwiseSnoc(applications, row, DistinctApplications);
      applications := applications + [row];
      r := Success(nextApplicationId);
      nextApplicationId := nextApplicationId + 1;
    }

    /**
     * `INSERT INTO Deployments (...) VALUES (...)`, reporting `this.lastID`; a
     * dangling Application_ID or Region_ID is refused only when the connection
     * enforces foreign keys.
     */
    method InsertDeployment(applicationId: int, regionId: int, date: string, time: string,
                            result: string, tag: Option<string>, fault: bool)
      returns (r: Result<nat, StoreError>)
      requires Valid()
      modifies this`deployments, this`nextDeploymentId
      ensures Valid()
      ensures r == if fault then Failure(IoError)
                   else if foreignKeys && (ApplicationById(applications, applicationId).None?
                                           || RegionById(regions, regionId).None?)
                   then Failure(ForeignKeyViolation)
                   else Success(old(nextDeploymentId))
      ensures r.Failure? ==> deployments == old(deployments) && nextDeploymentId == old(nextDeploymentId)
      ensures r.Success? ==>
        && deployments == old(deployments)
             + [Deployment(old(nextDeploymentId), applicationId, regionId, date, time, result, tag)]
        && nextDeploymentId == old(nextDeploymentId) + 1
    {
      if fault {
        return Failure(IoError);
      }
      var app := ApplicationById(applications, applicationId);
      var region := RegionById(regions, regionId);
      if foreignKeys && (app.None? || region.None?) {
        return Failure(ForeignKeyViolation);
      }
      var row := Deployment(nextDeploymentId, applicationId, regionId, date, time, result, tag);
      PairwiseSnoc(deployments, row, DistinctDeployments);
      deployments := deployments + [row];
      r := Success(nextDeploymentId);
      nextDeploymentId := nextDeploymentId + 1;
    }
  }

  /** With unique IDs, looking a row up by its own ID finds that row. */
  lemma ApplicationByOwnId(apps: seq<Application>, a: Application)
    requires Pairwise(apps, DistinctApplications) && a in apps
    ensures ApplicationById(apps, a.id) == Some(a)
  {
    var r := ApplicationById(apps, a.id);
    var i :| 0 <= i < |apps| && apps[i] == r.value;
    var j :| 0 <= j < |apps| && apps[j] == a;
  }

  lemma TouchKeepsConstraints(keys: seq<ApiKey>, i: nat, now: Timestamp)
    requires i < |keys| && Pairwise(keys, DistinctApiKeys)
    ensures Pairwise(Touch(keys, i, now), DistinctApiKeys)
    ensures forall k :: k in Touch(keys, i, now) ==> exists o :: o in keys && o.id == k.id
  {
    var t := Touch(keys, i, now);
    forall a, b | 0 <= a < b < |t| ensures DistinctApiKeys(t[a], t[b]) {
      assert DistinctApiKeys(keys[a], keys[b]);
    }
    forall k | k in t ensures exists o :: o in keys && o.id == k.id {
      var j :| 0 <= j < |t| && t[j] == k;
      assert keys[j] in keys;
    }
  }

  lemma SetActiveKeepsConstraints(keys: seq<ApiKey>, id: int, active: bool)
    requires Pairwise(keys, DistinctApiKeys)
    ensures Pairwise(SetActive(keys, id, active), DistinctApiKeys)
    ensures forall k :: k in SetActive(keys, id, active) ==> exists o :: o in keys && o.id == k.id
  {
    var t := SetActive(keys, id, active);
    forall a, b | 0 <= a < b < |t| ensures DistinctApiKeys(t[a], t[b]) {
      assert DistinctApiKeys(keys[a], keys[b]);
    }
    forall k | k in t ensures exists o :: o in keys && o.id == k.id {
      var j :| 0 <= j < |t| && t[j] == k;
      assert keys[j] in keys;
    }
  }

  /** Updating LastUsed never changes which credentials are accepted. */
  lemma TouchKeepsAcceptance(keys: seq<ApiKey>, i: nat, now: Timestamp, credential: Option<string>)
    requires i < |keys|
    ensures Accepts(Touch(keys, i, now), credential) == Accepts(keys, credential)
  {
    var t := Touch(keys, i, now);
    if credential.Some? {
      forall k | k in t ensures exists o :: o in keys && o.apiKey == k.apiKey && o.active == k.active {
        var j :| 0 <= j < |t| && t[j] == k;
        assert keys[j] in keys;
      }
      forall k | k in keys ensures exists o :: o in t && o.apiKey == k.apiKey && o.active == k.active {
        var j :| 0 <= j < |keys| && keys[j] == k;
        assert t[j] in t;
      }
    }
  }

  /**
   * Once the row with `id` is deactivated, its secret is no longer accepted:
   * no other row can hold the same secret.
   */
  lemma DeactivatedKeyRejected(keys: seq<ApiKey>, id: int, secret: string)
    requires Pairwise(keys, DistinctApiKeys)
    requires exists k :: k in keys && k.id == id && k.apiKey == secret
    ensures !Accepts(SetActive(keys, id, false), Some(secret))
  {
    var t := SetActive(keys, id, false);
    var j :| 0 <= j < |keys| && keys[j].id == id && keys[j].apiKey == secret;
    forall k | k in t ensures !(k.apiKey == secret && k.active) {
      var i :| 0 <= i < |t| && t[i] == k;
      if i != j && keys[i].id != id {
        if i < j {
          assert DistinctApiKeys(keys[i], keys[j]);
        } else {
          assert DistinctApiKeys(keys[j], keys[i]);
        }
      }
    }
  }

  /**
   * Deleting by ID removes exactly the rows with that ID and keeps the others in
   * order; with unique IDs that is one row when the ID exists and none otherwise.
   */
  lemma {:induction false} RemoveKeyExact(keys: seq<ApiKey>, id: int)
    requires Pairwise(keys, DistinctApiKeys)
    ensures forall k :: k in RemoveKey(keys, id) <==> k in keys && k.id != id
    ensures |RemoveKey(keys, id)| == |keys| - (if KeyIdExists(keys, id) then 1 else 0)
  {
    forall k ensures k in RemoveKey(keys, id) <==> k in keys && k.id != id {
      FilterMembership(keys, OtherThan(id), k);
    }
    if keys != [] {
      var t := keys[1..];
      assert Pairwise(t, DistinctApiKeys) by {
        forall a, b | 0 <= a < b < |t| ensures DistinctApiKeys(t[a], t[b]) {
          assert t[a] == keys[a + 1] && t[b] == keys[b + 1];
        }
      }
      RemoveKeyExact(t, id);
      if keys[0].id == id {
        forall k | k in t ensures OtherThan(id)(k) {
          var b :| 0 <= b < |t| && t[b] == k;
          assert DistinctApiKeys(keys[0], keys[b + 1]);
        }
        FilterKeepsAll(t, OtherThan(id));
        assert !KeyIdExists(t, id);
      } else {
        assert KeyIdExists(keys, id) <==> KeyIdExists(t, id) by {
          assert keys == [keys[0]] + t;
        }
      }
    }
  }
}
