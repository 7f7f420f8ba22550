/**
 * The request gate in front of the API: a path classifier with a fixed allow-list,
 * and the decision to pass a request on or answer 401, taken from the credential
 * the request carries and the ApiKeys table.
 */
module Auth {
  import opened Wrappers
  import opened Js
  import Store

  /** The allow-list the classifier runs `some` over. */
  const ExemptPaths: seq<string> := ["/health", "/", "/styles.css", "/admin/login", "/api/admin"]

  /** File suffixes the classifier lets through. */
  const StaticSuffixes: seq<string> := [".html", ".css", ".js", ".ico"]

  /**
   * The callback given to `some` for one allow-list entry. The suffix tests do
   * not depend on the entry, so they apply to every path whatever its prefix.
   */
  predicate MatchesEntry(path: string, entry: string)
  {
    || path == entry
    || StartsWith(path, entry + "/")
    || EndsWith(path, ".html")
    || EndsWith(path, ".css")
    || EndsWith(path, ".js")
    || EndsWith(path, ".ico")
  }

  /** `entries.some(e => MatchesEntry(path, e))` */
  predicate SomeEntry(entries: seq<string>, path: string)
  {
    entries != [] && (MatchesEntry(path, entries[0]) || SomeEntry(entries[1..], path))
  }

  /** `isExemptPath` */
  predicate IsExemptPath(path: string)
  {
    SomeEntry(ExemptPaths, path)
  }

  predicate HasStaticSuffix(path: string)
  {
    exists suffix :: suffix in StaticSuffixes && EndsWith(path, suffix)
  }

  /** `some` is true exactly when the callback accepts one of the entries. */
  lemma {:induction false} SomeEntryMeaning(entries: seq<string>, path: string)
    ensures SomeEntry(entries, path) <==> exists e :: e in entries && MatchesEntry(path, e)
  {
    if entries != [] {
      SomeEntryMeaning(entries[1..], path);
      assert entries == [entries[0]] + entries[1..];
    }
  }

  /**
   * What the classifier decides, rule by rule: an allow-list entry itself, anything
   * below an entry (the entry followed by "/"), or any path with a static suffix.
   */
  lemma ExemptPathMeaning(path: string)
    ensures IsExemptPath(path) <==>
      || path in ExemptPaths
      || (exists e :: e in ExemptPaths && StartsWith(path, e + "/"))
      || HasStaticSuffix(path)
  {
    SomeEntryMeaning(ExemptPaths, path);
    assert "/health" in ExemptPaths;
    if HasStaticSuffix(path) {
      assert MatchesEntry(path, "/health");
    }
  }

  lemma ListedPathsExempt()
    ensures forall p :: p in ExemptPaths ==> IsExemptPath(p)
  {
    forall p | p in ExemptPaths ensures IsExemptPath(p) {
      ExemptPathMeaning(p);
    }
  }

  lemma NotPrefixAt(s: string, t: string, k: nat)
    requires k < |t| && (k >= |s| || s[k] != t[k])
    ensures !StartsWith(s, t)
  {
  }

  lemma NotSuffixAt(s: string, t: string, k: nat)
    requires k < |t| && (|t| <= |s| ==> s[|s| - |t| + k] != t[k])
    ensures !EndsWith(s, t)
  {
  }

  /**
   * A path has none of the static suffixes when its last character rules them all
   * out, or it ends in "s" after a character that rules out ".css" and ".js".
   */
  lemma NoStaticSuffix(path: string)
    requires |path| >= 2
    requires path[|path| - 1] !in "lso" || (path[|path| - 1] == 's' && path[|path| - 2] !in "sj")
    ensures !HasStaticSuffix(path)
  {
    forall suffix | suffix in StaticSuffixes ensures !EndsWith(path, suffix) {
      if path[|path| - 1] != suffix[|suffix| - 1] {
        NotSuffixAt(path, suffix, |suffix| - 1);
      } else {
        NotSuffixAt(path, suffix, |suffix| - 2);
      }
    }
  }

  /**
   * Below "/api/", only the admin API is exempt by prefix: the "/" entry would need
   * a path starting with "//", and no other entry starts with "/a" followed by "p".
   */
  lemma ApiPathProtected(path: string)
    requires StartsWith(path, "/api/") && !StartsWith(path, "/api/admin/") && path != "/api/admin"
    requires !HasStaticSuffix(path)
    ensures !IsExemptPath(path)
  {
    ExemptPathMeaning(path);
    assert path[1] == "/api/"[1] == 'a' && path[2] == "/api/"[2] == 'p' by {
      assert path[..5] == "/api/";
    }
    forall e | e in ExemptPaths ensures path != e && !StartsWith(path, e + "/") {
      if e == "/health" {
        NotPrefixAt(path, e + "/", 1);
      } else if e == "/" {
        NotPrefixAt(path, e + "/", 1);
      } else if e == "/styles.css" {
        NotPrefixAt(path, e + "/", 1);
      } else if e == "/admin/login" {
        NotPrefixAt(path, e + "/", 2);
      } else {
        assert e + "/" == "/api/admin/";
      }
    }
  }

  /** By prefix, the root entry "/" exempts every path that starts with "//". */
  lemma DoubleSlashExempt(path: string)
    requires StartsWith(path, "//")
    ensures IsExemptPath(path)
  {
    ExemptPathMeaning(path);
    assert "/" in ExemptPaths && "/" + "/" == "//";
  }

  /** Paths under the admin API are exempt; a look-alike without the separator is not. */
  lemma AdminPrefixNeedsSeparator()
    ensures IsExemptPath("/api/admin/keys")
    ensures IsExemptPath("/api/admin/keys/7/toggle")
    ensures !IsExemptPath("/api/adminX")
  {
    ExemptPathMeaning("/api/admin/keys");
    assert "/api/admin" in ExemptPaths && StartsWith("/api/admin/keys", "/api/admin" + "/");
    ExemptPathMeaning("/api/admin/keys/7/toggle");
    assert StartsWith("/api/admin/keys/7/toggle", "/api/admin" + "/");
    var p := "/api/adminX";
    NoStaticSuffix(p);
    NotPrefixAt(p, "/api/admin/", 10);
    ApiPathProtected(p);
  }

  /** A protected route becomes exempt merely by ending in a static suffix. */
  lemma StaticSuffixExemptsAnyPath(path: string)
    requires HasStaticSuffix(path)
    ensures IsExemptPath(path)
  {
    ExemptPathMeaning(path);
  }

  lemma ScriptSuffixOnApiRoute()
    ensures IsExemptPath("/api/deployments.js")
  {
    assert ".js" in StaticSuffixes && EndsWith("/api/deployments.js", ".js");
    StaticSuffixExemptsAnyPath("/api/deployments.js");
  }

  /** The API routes themselves need a credential. */
  lemma ApiRoutesProtected()
    ensures !IsExemptPath("/api/deployments")
    ensures !IsExemptPath("/api/regions")
    ensures !IsExemptPath("/api/applications")
  {
    var a, b, c := "/api/deployments", "/api/regions", "/api/applications";
    NoStaticSuffix(a);
    NoStaticSuffix(b);
    NoStaticSuffix(c);
    NotPrefixAt(a, "/api/admin/", 5);
    NotPrefixAt(b, "/api/admin/", 5);
    NotPrefixAt(c, "/api/admin/", 6);
    ApiPathProtected(a);
    ApiPathProtected(b);
    ApiPathProtected(c);
  }

  /** An incoming request as the gate sees it; Node.js lower-cases header names. */
  datatype Request = Request(path: string, headers: map<string, string>, query: map<string, string>)

  /** `req.headers['x-api-key'] || req.query.apikey` */
  function Credential(req: Request): Option<string>
  {
    if "x-api-key" in req.headers && req.headers["x-api-key"] != "" then Some(req.headers["x-api-key"])
    else if "apikey" in req.query then Some(req.query["apikey"])
    else None
  }

  /** A non-empty x-api-key header is the credential, whatever the query string holds. */
  lemma HeaderOverridesQuery(path: string, headers: map<string, string>, query1: map<string, string>, query2: map<string, string>)
    requires "x-api-key" in headers && headers["x-api-key"] != ""
    ensures Credential(Request(path, headers, query1)) == Credential(Request(path, headers, query2))
    ensures Credential(Request(path, headers, query1)) == Some(headers["x-api-key"])
  {
  }

  /** An empty x-api-key header is falsy: it counts as no header at all. */
  lemma EmptyHeaderIsAbsent(path: string, headers: map<string, string>, query: map<string, string>)
    ensures Credential(Request(path, headers["x-api-key" := ""], query))
         == Credential(Request(path, headers - {"x-api-key"}, query))
  {
  }

  /** Where the middleware sends a request. */
  datatype Outcome =
    | Next                                              // the downstream handlers run
    | Reject(status: nat, error: string, message: string)  // the middleware answers itself

  /** The one 401 answer, whatever was wrong with the credential. */
  const Unauthorized: Outcome := Reject(401, "Unauthorized", "Invalid or missing API key")

  /**
   * `apiKeyAuth`: exempt paths go on without touching the store; any other path
   * goes on exactly when the credential validates, and otherwise gets the 401.
   */
  method ApiKeyAuth(db: Store.Database, req: Request, now: Store.Timestamp, fault: bool)
    returns (outcome: Outcome)
    requires db.Valid()
    modifies db`apiKeys
    ensures db.Valid()
    ensures IsExemptPath(req.path) ==> outcome == Next && db.apiKeys == old(db.apiKeys)
    ensures !IsExemptPath(req.path) ==>
      outcome == (if Store.Accepts(old(db.apiKeys), Credential(req)) && !fault then Next else Unauthorized)
    ensures !IsExemptPath(req.path) && outcome == Unauthorized ==> db.apiKeys == old(db.apiKeys)
    ensures !IsExemptPath(req.path) && outcome == Next ==>
      db.apiKeys == Store.Touch(old(db.apiKeys), Store.ActiveKeyIndex(old(db.apiKeys), Credential(req).value).value, now)
    ensures outcome == Next || outcome == Unauthorized
  {
    if IsExemptPath(req.path) {
      return Next;
    }
    var valid := db.ValidateApiKey(Credential(req), now, fault);
    if valid {
      outcome := Next;
    } else {
      outcome := Unauthorized;
    }
  }
}
