/**
 * The deployment API mounted under `/api`: record a deployment, list deployments
 * (all, by application, by region) joined with application and region names and
 * newest first, list and create applications, list regions.
 */
module Routes {
  import opened Wrappers
  import opened Js
  import opened Sequences
  import opened Store

  /** A row of the deployment listings: the IDs replaced by the joined names. */
  datatype DeploymentView = DeploymentView(
    id: nat, application: string, region: string,
    date: string, time: string, result: string, tag: Option<string>)

  /** The JSON bodies the handlers send. */
  datatype Reply =
    | Error(error: string)
    | Created(id: nat, message: string)
    | Deployments(rows: seq<DeploymentView>)
    | Applications(apps: seq<Application>)
    | ApplicationRow(app: Application)
    | Regions(regions: seq<Region>)

  datatype Response = Response(status: nat, reply: Reply)

  // ---------------------------------------------------------------------------
  // The listing query, as functions over the tables.

  /** `ORDER BY d.Date DESC, d.Time DESC`: `a` may be listed before `b`. */
  predicate NoOlder(a: Deployment, b: Deployment)
  {
    Less(b.date, a.date) || (a.date == b.date && !Less(a.time, b.time))
  }

  predicate ViewNoOlder(v: DeploymentView, w: DeploymentView)
  {
    Less(w.date, v.date) || (v.date == w.date && !Less(v.time, w.time))
  }

  lemma NoOlderTotalPreorder(s: seq<Deployment>)
    ensures TotalPreorderOn(NoOlder, s)
  {
    forall a, b | a in s && b in s ensures NoOlder(a, b) || NoOlder(b, a) {
      LessTotal(a.date, b.date);
      LessTotal(a.time, b.time);
      if Less(a.time, b.time) {
        LessAsymmetric(a.time, b.time);
      }
    }
    forall a, b, c | a in s && b in s && c in s && NoOlder(a, b) && NoOlder(b, c)
      ensures NoOlder(a, c)
    {
      if Less(c.date, b.date) && Less(b.date, a.date) {
        LessTransitive(c.date, b.date, a.date);
      }
      if a.date == b.date == c.date {
        LessTotal(a.time, b.time);
        LessTotal(b.time, c.time);
        if Less(a.time, c.time) {
          if Less(b.time, a.time) {
            LessTransitive(b.time, a.time, c.time);
          }
        }
      }
    }
  }

  /** The WHERE clause of each listing. */
  datatype Selector = AllDeployments | ByApplication(applicationId: int) | ByRegion(regionId: int)

  function Selects(sel: Selector): Deployment -> bool
  {
    match sel
    case AllDeployments => (d: Deployment) => true
    case ByApplication(id) => (d: Deployment) => d.applicationId == id
    case ByRegion(id) => (d: Deployment) => d.regionId == id
  }

  /** One deployment joined with its application and region, if both rows exist. */
  function JoinRow(apps: seq<Application>, regions: seq<Region>, d: Deployment): (r: Option<DeploymentView>)
    ensures r.Some? <==>
      (exists a :: a in apps && a.id == d.applicationId) && (exists g :: g in regions && g.id == d.regionId)
    ensures r.Some? ==>
      exists a, g :: a in apps && a.id == d.applicationId && g in regions && g.id == d.regionId &&
        r.value == DeploymentView(d.id, a.name, g.name, d.date, d.time, d.result, d.tag)
  {
    match (ApplicationById(apps, d.applicationId), RegionById(regions, d.regionId))
    case (Some(a), Some(g)) => Some(DeploymentView(d.id, a.name, g.name, d.date, d.time, d.result, d.tag))
    case _ => None
  }

  /** The deployment's application and region both exist. */
  function Joins(apps: seq<Application>, regions: seq<Region>): Deployment -> bool
  {
    (d: Deployment) => JoinRow(apps, regions, d).Some?
  }

  /** The inner joins, row by row in the order of `deps`: one row per deployment that joins. */
  function Join(apps: seq<Application>, regions: seq<Region>, deps: seq<Deployment>): (r: seq<DeploymentView>)
    ensures |r| == |Filter(deps, Joins(apps, regions))|
  {
    if deps == [] then []
    else match JoinRow(apps, regions, deps[0])
      case Some(v) => [v] + Join(apps, regions, deps[1..])
      case None => Join(apps, regions, deps[1..])
  }

  /**
   * The rows a listing returns. Rows with equal Date and Time have no order in
   * SQL; the model keeps them in table order.
   */
  function Listing(apps: seq<Application>, regions: seq<Region>, deps: seq<Deployment>, sel: Selector)
    : seq<DeploymentView>
  {
    Join(apps, regions, Sort(Filter(deps, Selects(sel)), NoOlder))
  }

  lemma {:induction false} JoinMembership(apps: seq<Application>, regions: seq<Region>, deps: seq<Deployment>, v: DeploymentView)
    ensures v in Join(apps, regions, deps) <==> exists d :: d in deps && JoinRow(apps, regions, d) == Some(v)
  {
    if deps != [] {
      JoinMembership(apps, regions, deps[1..], v);
      assert deps == [deps[0]] + deps[1..];
    }
  }

  lemma {:induction false} JoinKeepsOrder(apps: seq<Application>, regions: seq<Region>, deps: seq<Deployment>)
    requires Pairwise(deps, NoOlder)
    ensures Pairwise(Join(apps, regions, deps), ViewNoOlder)
  {
    if deps != [] {
      var t := deps[1..];
      assert Pairwise(t, NoOlder) by {
        forall i, j | 0 <= i < j < |t| ensures NoOlder(t[i], t[j]) {
          assert t[i] == deps[i + 1] && t[j] == deps[j + 1];
        }
      }
      JoinKeepsOrder(apps, regions, t);
      match JoinRow(apps, regions, deps[0])
      case None =>
      case Some(v) =>
        forall w | w in Join(apps, regions, t) ensures ViewNoOlder(v, w) {
          JoinMembership(apps, regions, t, w);
          var e :| e in t && JoinRow(apps, regions, e) == Some(w);
          var j :| 0 <= j < |t| && t[j] == e;
          assert NoOlder(deps[0], deps[j + 1]);
        }
        PairwiseCons(v, Join(apps, regions, t), ViewNoOlder);
    }
  }

  lemma {:induction false} JoinSubsequence(apps: seq<Application>, regions: seq<Region>, a: seq<Deployment>, b: seq<Deployment>)
    requires IsSubsequence(a, b)
    ensures IsSubsequence(Join(apps, regions, a), Join(apps, regions, b))
    decreases |b|
  {
    if a == [] {
    } else if a[0] == b[0] && IsSubsequence(a[1..], b[1..]) {
      JoinSubsequence(apps, regions, a[1..], b[1..]);
      var x, y := Join(apps, regions, a[1..]), Join(apps, regions, b[1..]);
      match JoinRow(apps, regions, b[0])
      case None =>
      case Some(v) =>
        assert ([v] + x)[1..] == x && ([v] + y)[1..] == y;
    } else {
      JoinSubsequence(apps, regions, a, b[1..]);
      var x, y := Join(apps, regions, a), Join(apps, regions, b[1..]);
      match JoinRow(apps, regions, b[0])
      case None =>
      case Some(w) =>
        if x != [] {
          assert ([w] + y)[1..] == y;
        }
    }
  }

  /** Every listing is ordered newest first: by Date descending, then Time descending. */
  lemma ListingNewestFirst(apps: seq<Application>, regions: seq<Region>, deps: seq<Deployment>, sel: Selector)
    ensures Pairwise(Listing(apps, regions, deps, sel), ViewNoOlder)
  {
    var s := Filter(deps, Selects(sel));
    NoOlderTotalPreorder(s);
    SortSorted(s, NoOlder);
    JoinKeepsOrder(apps, regions, Sort(s, NoOlder));
  }

  /**
   * A listing holds exactly the joined rows of the selected deployments whose
   * application and region both exist.
   */
  lemma ListingMembership(apps: seq<Application>, regions: seq<Region>, deps: seq<Deployment>, sel: Selector, v: DeploymentView)
    ensures v in Listing(apps, regions, deps, sel) <==>
      exists d :: d in deps && Selects(sel)(d) && JoinRow(apps, regions, d) == Some(v)
  {
    var s := Filter(deps, Selects(sel));
    SortPermutes(s, NoOlder);
    JoinMembership(apps, regions, Sort(s, NoOlder), v);
    forall d ensures d in Sort(s, NoOlder) <==> d in deps && Selects(sel)(d) {
      FilterMembership(deps, Selects(sel), d);
      assert d in Sort(s, NoOlder) <==> d in multiset(Sort(s, NoOlder));
      assert d in s <==> d in multiset(s);
    }
  }

  /** The by-application and by-region listings are subsequences of the full listing. */
  lemma SelectedListingIsSubsequence(apps: seq<Application>, regions: seq<Region>, deps: seq<Deployment>, sel: Selector)
    ensures IsSubsequence(Listing(apps, regions, deps, sel), Listing(apps, regions, deps, AllDeployments))
  {
    FilterKeepsAll(deps, Selects(AllDeployments));
    NoOlderTotalPreorder(deps);
    SortFilterCommute(deps, NoOlder, Selects(sel));
    FilterIsSubsequence(Sort(deps, NoOlder), Selects(sel));
    JoinSubsequence(apps, regions, Filter(Sort(deps, NoOlder), Selects(sel)), Sort(deps, NoOlder));
  }

  lemma JoinKeepsAll(apps: seq<Application>, regions: seq<Region>, deps: seq<Deployment>)
    requires ReferencesHold(apps, regions, deps)
    ensures |Join(apps, regions, deps)| == |deps|
  {
    forall d | d in deps ensures Joins(apps, regions)(d) {
      assert JoinRow(apps, regions, d).Some?;
    }
    FilterKeepsAll(deps, Joins(apps, regions));
  }

  /** With referential integrity, the full listing has one row per deployment. */
  lemma FullListingComplete(apps: seq<Application>, regions: seq<Region>, deps: seq<Deployment>)
    requires ReferencesHold(apps, regions, deps)
    ensures |Listing(apps, regions, deps, AllDeployments)| == |deps|
  {
    FilterKeepsAll(deps, Selects(AllDeployments));
    SortPermutes(deps, NoOlder);
    forall d | d in Sort(deps, NoOlder) ensures d in deps {
      assert d in multiset(Sort(deps, NoOlder));
    }
    JoinKeepsAll(apps, regions, Sort(deps, NoOlder));
  }

  /** 2024-01-02 09:00 is listed before 2024-01-01 10:00: the date decides before the time. */
  lemma LaterDateListedFirst(d1: Deployment, d2: Deployment)
    requires d1.date == "2024-01-01" && d1.time == "10:00"
    requires d2.date == "2024-01-02" && d2.time == "09:00"
    ensures Sort([d1, d2], NoOlder) == [d2, d1]
  {
    LessAt(d1.date, d2.date, 9);
    LessAsymmetric(d1.date, d2.date);
    assert !NoOlder(d1, d2);
    assert [d1, d2][1..] == [d2];
    assert Sort([d2], NoOlder) == [d2];
    assert Insert(d1, [d2], NoOlder) == [d2] + Insert(d1, [], NoOlder);
  }

  // ---------------------------------------------------------------------------
  // Handlers.

  /** `GET /deployments`, `/deployments/application/:id` and `/deployments/region/:id`. */
  method GetDeployments(db: Database, sel: Selector, fault: bool) returns (resp: Response)
    requires db.Valid()
    ensures fault ==> resp == Response(500, Error("Failed to retrieve deployments"))
    ensures !fault ==> resp == Response(200, Deployments(Listing(db.applications, db.regions, db.deployments, sel)))
  {
    if fault {
      return Response(500, Error("Failed to retrieve deployments"));
    }
    resp := Response(200, Deployments(Listing(db.applications, db.regions, db.deployments, sel)));
  }

  /** `GET /applications`: every row, in table order. */
  method GetApplications(db: Database, fault: bool) returns (resp: Response)
    requires db.Valid()
    ensures fault ==> resp == Response(500, Error("Failed to retrieve applications"))
    ensures !fault ==> resp == Response(200, Applications(db.applications))
  {
    if fault {
      return Response(500, Error("Failed to retrieve applications"));
    }
    resp := Response(200, Applications(db.applications));
  }

  /** `GET /regions`: every row, in table order. */
  method GetRegions(db: Database, fault: bool) returns (resp: Response)
    requires db.Valid()
    ensures fault ==> resp == Response(500, Error("Failed to retrieve regions"))
    ensures !fault ==> resp == Response(200, Regions(db.regions))
  {
    if fault {
      return Response(500, Error("Failed to retrieve regions"));
    }
    resp := Response(200, Regions(db.regions));
  }

  /**
   * The body of `POST /deployments`. An absent field is `None`; the IDs are
   * JSON numbers.
   */
  datatype DeploymentRequest = DeploymentRequest(
    applicationId: Option<int>, regionId: Option<int>,
    date: Option<string>, time: Option<string>, result: Option<string>,
    tag: Option<string>)

  /** A JavaScript-truthy number: present and not 0. */
  predicate IdGiven(v: Option<int>) { v.Some? && v.value != 0 }

  /** A JavaScript-truthy string: present and not empty. */
  predicate TextGiven(v: Option<string>) { v.Some? && v.value != "" }

  predicate Complete(req: DeploymentRequest)
  {
    IdGiven(req.applicationId) && IdGiven(req.regionId)
    && TextGiven(req.date) && TextGiven(req.time) && TextGiven(req.result)
  }

  /** The deployment row a complete request asks for, under the given ID. */
  function RequestedRow(req: DeploymentRequest, id: nat): Deployment
    requires Complete(req)
  {
    Deployment(id, req.applicationId.value, req.regionId.value,
               req.date.value, req.time.value, req.result.value, req.tag)
  }

  /**
   * `POST /deployments`: 400 unless the five required fields are truthy, 500
   * when the insert fails (a store fault, or a dangling reference when the
   * connection enforces foreign keys), otherwise 201 with the new ID.
   */
  method PostDeployment(db: Database, req: DeploymentRequest, fault: bool) returns (resp: Response)
    requires db.Valid()
    modifies db`deployments, db`nextDeploymentId
    ensures db.Valid()
    ensures !Complete(req) ==> resp == Response(400, Error("Missing required fields"))
    ensures Complete(req) && (fault || (db.foreignKeys &&
              (ApplicationById(db.applications, req.applicationId.value).None?
               || RegionById(db.regions, req.regionId.value).None?))) ==>
      resp == Response(500, Error("Failed to create deployment"))
    ensures resp.status != 201 ==>
      db.deployments == old(db.deployments) && db.nextDeploymentId == old(db.nextDeploymentId)
    ensures resp.status == 201 ==>
      && Complete(req)
      && resp == Response(201, Created(old(db.nextDeploymentId), "Deployment created successfully"))
      && db.deployments == old(db.deployments) + [RequestedRow(req, old(db.nextDeploymentId))]
      && db.nextDeploymentId == old(db.nextDeploymentId) + 1
    ensures Complete(req) && !fault && !(db.foreignKeys &&
              (ApplicationById(db.applications, req.applicationId.value).None?
               || RegionById(db.regions, req.regionId.value).None?)) ==>
      resp.status == 201
    ensures resp.status in {201, 400, 500}
  {
    if !Complete(req) {
      return Response(400, Error("Missing required fields"));
    }
    var r := db.InsertDeployment(req.applicationId.value, req.regionId.value,
                                 req.date.value, req.time.value, req.result.value, req.tag, fault);
    match r
    case Failure(_) =>
      resp := Response(500, Error("Failed to create deployment"));
    case Success(id) =>
      resp := Response(201, Created(id, "Deployment created successfully"));
  }

  /** Where `POST /applications` meets a store error, if anywhere. */
  datatype ApplicationFault = NoFault | CheckFails | SchemaFails | AlterFails | InsertFails | ReadBackFails

  /** `Description || null`: an empty description is stored as NULL. */
  function StoredDescription(description: Option<string>): Option<string>
  {
    if TextGiven(description) then description else None
  }

  const ReadBackFailed := Response(500, Error("Application created but failed to retrieve details"))

  /** The responses sent once the row is in the table. */
  predicate Inserted(resp: Response) { resp.status == 201 || resp == ReadBackFailed }

  /**
   * `POST /applications`: 400 without a truthy Name, 409 when the name is
   * taken, otherwise the Description column is added if missing (an ALTER that
   * fails is ignored, and the insert then fails), the row is inserted and read
   * back by its new ID and returned with 201.
   */
  method PostApplication(db: Database, name: Option<string>, description: Option<string>, fault: ApplicationFault)
    returns (resp: Response)
    requires db.Valid()
    modifies db`applications, db`nextApplicationId, db`hasDescriptionColumn
    ensures db.Valid()
    ensures !TextGiven(name) ==> resp == Response(400, Error("Application name is required"))
    ensures TextGiven(name) && fault == CheckFails ==> resp == Response(500, Error("Failed to check application"))
    ensures TextGiven(name) && fault != CheckFails && NameTaken(old(db.applications), name.value, ApplicationName) ==>
      resp == Response(409, Error("Application with this name already exists"))
    ensures resp.status in {400, 409} || (resp.status == 500 && fault in {CheckFails, SchemaFails}) ==>
      db.hasDescriptionColumn == old(db.hasDescriptionColumn)
    ensures db.hasDescriptionColumn ==
      (old(db.hasDescriptionColumn)
       || (TextGiven(name) && !NameTaken(old(db.applications), name.value, ApplicationName)
           && fault !in {CheckFails, SchemaFails, AlterFails}))
    ensures TextGiven(name) && !NameTaken(old(db.applications), name.value, ApplicationName) ==>
      match fault
      case CheckFails => true
      case SchemaFails => resp == Response(500, Error("Failed to check table schema"))
      case AlterFails =>
        if old(db.hasDescriptionColumn)
        then resp == Response(201, ApplicationRow(Application(old(db.nextApplicationId), name.value, StoredDescription(description))))
        else resp == Response(500, Error("Failed to create application"))
      case InsertFails => resp == Response(500, Error("Failed to create application")) && db.hasDescriptionColumn
      case ReadBackFails =>
        resp == ReadBackFailed && db.hasDescriptionColumn
      case NoFault =>
        resp == Response(201, ApplicationRow(Application(old(db.nextApplicationId), name.value, StoredDescription(description))))
        && db.hasDescriptionColumn
    ensures Inserted(resp) ==>
      && TextGiven(name)
      && db.applications == old(db.applications) + [Application(old(db.nextApplicationId), name.value, StoredDescription(description))]
      && db.nextApplicationId == old(db.nextApplicationId) + 1
    ensures !Inserted(resp) ==>
      db.applications == old(db.applications) && db.nextApplicationId == old(db.nextApplicationId)
  {
    if !TextGiven(name) {
      return Response(400, Error("Application name is required"));
    }
    if fault == CheckFails {
      return Response(500, Error("Failed to check application"));
    }
    if ApplicationByName(db.applications, name.value).Some? {
      return Response(409, Error("Application with this name already exists"));
    }
    if fault == SchemaFails {
      return Response(500, Error("Failed to check table schema"));
    }
    if !db.hasDescriptionColumn {
      var _ := db.AddDescriptionColumn(fault == AlterFails);
    }
    var r := db.InsertApplication(name.value, StoredDescription(description), fault == InsertFails);
    if r.Failure? {
      return Response(500, Error("Failed to create application"));
    }
    if fault == ReadBackFails {
      return ReadBackFailed;
    }
    ApplicationByOwnId(db.applications, db.applications[|db.applications| - 1]);
    var row := ApplicationById(db.applications, r.value);
    resp := Response(201, ApplicationRow(row.value));
  }
}
