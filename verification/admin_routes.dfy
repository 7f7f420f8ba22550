/**
 * The key-administration handlers mounted under `/api/admin`: list the keys with
 * their secrets masked, reveal one secret, create, activate or deactivate, and
 * delete a key, each answering with an HTTP status and a JSON body.
 */
module AdminRoutes {
  import opened Wrappers
  import opened Js
  import opened Store

  /** A row of GET /keys: every column of the ApiKeys row, the secret masked. */
  datatype MaskedKey = MaskedKey(
    id: nat, keyName: string, apiKey: Option<string>,
    created: Timestamp, lastUsed: Option<Timestamp>, active: bool)

  /** The JSON bodies the handlers send. */
  datatype Reply =
    | Error(error: string)
    | Keys(keys: seq<MaskedKey>)
    | FullKey(apiKey: string)
    | Created(message: string, key: NewKey)
    | Message(message: string)

  datatype Response = Response(status: nat, reply: Reply)

  /**
   * The masking of one secret: its first 8 characters, "...", its last 8
   * (`substring` clamps a negative start to 0); an empty secret shows as null.
   */
  function MaskSecret(secret: string): Option<string>
  {
    if secret == "" then None
    else Some(Substring(secret, 0, 8) + "..." + SubstringFrom(secret, |secret| - 8))
  }

  function Min(a: int, b: int): int { if a <= b then a else b }
  function Max(a: int, b: int): int { if a <= b then b else a }

  /** What the mask shows for a secret of any length: a head and a tail of at most 8 each. */
  lemma MaskSecretShape(secret: string)
    requires secret != ""
    ensures MaskSecret(secret) ==
      Some(secret[..Min(8, |secret|)] + "..." + secret[Max(0, |secret| - 8)..])
  {
  }

  /**
   * For a 64-character secret (what the generator makes) the mask is 19
   * characters: characters 0..7, "...", characters 56..63; 8..55 never appear.
   */
  lemma MaskHidesMiddle(secret: string)
    requires |secret| == 64
    ensures MaskSecret(secret) == Some(secret[..8] + "..." + secret[56..])
    ensures |MaskSecret(secret).value| == 19
  {
    MaskSecretShape(secret);
  }

  /** A secret of at most 8 characters is shown whole, twice. */
  lemma MaskRevealsShortSecret(secret: string)
    requires 0 < |secret| <= 8
    ensures MaskSecret(secret) == Some(secret + "..." + secret)
  {
    MaskSecretShape(secret);
  }

  /** `keys.map(key => ({...key, ApiKey: masked}))` */
  function MaskAll(keys: seq<ApiKey>): (r: seq<MaskedKey>)
    ensures |r| == |keys|
    ensures forall i :: 0 <= i < |keys| ==>
      && r[i].id == keys[i].id && r[i].keyName == keys[i].keyName
      && r[i].created == keys[i].created && r[i].lastUsed == keys[i].lastUsed
      && r[i].active == keys[i].active
      && r[i].apiKey == MaskSecret(keys[i].apiKey)
  {
    if keys == [] then []
    else
      var k := keys[0];
      [MaskedKey(k.id, k.keyName, MaskSecret(k.apiKey), k.created, k.lastUsed, k.active)] + MaskAll(keys[1..])
  }

  /** A listing of 64-character keys shows only the outer 8 characters of each secret. */
  lemma ListingHidesSecrets(keys: seq<ApiKey>)
    requires forall i :: 0 <= i < |keys| ==> |keys[i].apiKey| == 64
    ensures forall i :: 0 <= i < |keys| ==>
      MaskAll(keys)[i].apiKey == Some(keys[i].apiKey[..8] + "..." + keys[i].apiKey[56..])
  {
    forall i | 0 <= i < |keys|
      ensures MaskAll(keys)[i].apiKey == Some(keys[i].apiKey[..8] + "..." + keys[i].apiKey[56..])
    {
      assert keys[i] in keys;
      MaskHidesMiddle(keys[i].apiKey);
    }
  }

  /** GET /keys */
  method ListKeys(db: Database, fault: bool) returns (resp: Response)
    ensures fault ==> resp == Response(500, Error("Failed to retrieve API keys"))
    ensures !fault ==> resp == Response(200, Keys(MaskAll(db.apiKeys)))
  {
    var keys := db.GetAllApiKeys(fault);
    if keys.Failure? {
      return Response(500, Error("Failed to retrieve API keys"));
    }
    resp := Response(200, Keys(MaskAll(keys.value)));
  }

  /** GET /keys/:id/full: the unmasked secret of the row with that ID. */
  method GetFullKey(db: Database, id: int, fault: bool) returns (resp: Response)
    ensures fault ==> resp == Response(500, Error("Failed to retrieve API key"))
    ensures !fault && !KeyIdExists(db.apiKeys, id) ==> resp == Response(404, Error("API key not found"))
    ensures !fault && KeyIdExists(db.apiKeys, id) ==>
      resp.status == 200 && resp.reply.FullKey? &&
      exists k :: k in db.apiKeys && k.id == id && resp.reply.apiKey == k.apiKey
  {
    if fault {
      return Response(500, Error("Failed to retrieve API key"));
    }
    var row := KeyById(db.apiKeys, id);
    if row.None? {
      return Response(404, Error("API key not found"));
    }
    resp := Response(200, FullKey(row.value.apiKey));
  }

  /** `!keyName` is false: the body carries a non-empty key name. */
  predicate NamePresent(keyName: Option<string>)
  {
    keyName.Some? && keyName.value != ""
  }

  /** POST /keys */
  method PostKey(db: Database, keyName: Option<string>, secret: string, now: Timestamp, fault: bool)
    returns (resp: Response)
    requires db.Valid() && IsHexSecret(secret)
    modifies db`apiKeys, db`nextKeyId
    ensures db.Valid()
    ensures !NamePresent(keyName) ==>
      resp == Response(400, Error("Key name is required")) && db.apiKeys == old(db.apiKeys)
    ensures NamePresent(keyName) && (fault || SecretInUse(old(db.apiKeys), secret)) ==>
      resp == Response(500, Error("Failed to create API key")) && db.apiKeys == old(db.apiKeys)
    ensures NamePresent(keyName) && !fault && !SecretInUse(old(db.apiKeys), secret) ==>
      && resp == Response(201, Created("API key created successfully",
                                       NewKey(old(db.nextKeyId), keyName.value, secret)))
      && db.apiKeys == old(db.apiKeys) + [ApiKey(old(db.nextKeyId), keyName.value, secret, now, None, true)]
    ensures db.nextKeyId == old(db.nextKeyId) + (if resp.status == 201 then 1 else 0)
  {
    if !NamePresent(keyName) {
      return Response(400, Error("Key name is required"));
    }
    var result := db.CreateApiKey(keyName.value, secret, now, fault);
    if result.Failure? {
      return Response(500, Error("Failed to create API key"));
    }
    resp := Response(201, Created("API key created successfully", result.value));
  }

  /** PUT /keys/:id/toggle: any `active` but `undefined` is accepted, judged by truthiness. */
  method ToggleKey(db: Database, id: int, active: Value, fault: bool) returns (resp: Response)
    requires db.Valid()
    modifies db`apiKeys
    ensures db.Valid()
    ensures active == Undefined ==>
      resp == Response(400, Error("Active status is required")) && db.apiKeys == old(db.apiKeys)
    ensures active != Undefined && fault ==>
      resp == Response(500, Error("Failed to update API key")) && db.apiKeys == old(db.apiKeys)
    ensures active != Undefined && !fault ==>
      && db.apiKeys == SetActive(old(db.apiKeys), id, Truthy(active))
      && resp == if !KeyIdExists(old(db.apiKeys), id) then Response(404, Error("API key not found"))
                 else if Truthy(active) then Response(200, Message("API key activated"))
                 else Response(200, Message("API key deactivated"))
  {
    if active == Undefined {
      return Response(400, Error("Active status is required"));
    }
    var result := db.ToggleApiKeyStatus(id, active, fault);
    if result.Failure? {
      return Response(500, Error("Failed to update API key"));
    }
    if result.value == 0 {
      return Response(404, Error("API key not found"));
    }
    resp := Response(200, Message(if Truthy(active) then "API key activated" else "API key deactivated"));
  }

  /** DELETE /keys/:id */
  method DeleteKey(db: Database, id: int, fault: bool) returns (resp: Response)
    requires db.Valid()
    modifies db`apiKeys
    ensures db.Valid()
    ensures fault ==> resp == Response(500, Error("Failed to delete API key")) && db.apiKeys == old(db.apiKeys)
    ensures !fault ==>
      && db.apiKeys == RemoveKey(old(db.apiKeys), id)
      && resp == if KeyIdExists(old(db.apiKeys), id) then Response(200, Message("API key deleted successfully"))
                 else Response(404, Error("API key not found"))
  {
    var result := db.DeleteApiKey(id, fault);
    if result.Failure? {
      return Response(500, Error("Failed to delete API key"));
    }
    if result.value == 0 {
      return Response(404, Error("API key not found"));
    }
    resp := Response(200, Message("API key deleted successfully"));
  }
}
