/**
 * The seeding script: it fills the Applications and Regions tables with fixed
 * sample names through `INSERT OR IGNORE`, so running it again adds nothing.
 */
module Seed {
  import opened Store

  const ApplicationSeedNames: seq<string> := ["app_one", "app_two", "api_app1", "crazy_app_1"]
  const RegionSeedNames: seq<string> := ["DEV", "TEST", "PROD", "QA", "TRN"]

  /** A table's rows together with the ID its next insert will receive. */
  datatype Table<T> = Table(rows: seq<T>, next: nat)

  /**
   * One `INSERT OR IGNORE` per name, in list order. The last name is inserted
   * last, which is how the definition is unfolded. Every insert draws an ID,
   * whether or not its row is ignored.
   */
  function SeedAll<T(==)>(t: Table<T>, names: seq<string>, nameOf: T -> string, mk: (nat, string) -> T): (r: Table<T>)
    ensures |t.rows| <= |r.rows| <= |t.rows| + |names|
    ensures r.rows[..|t.rows|] == t.rows
    ensures r.next == t.next + |names|
    decreases |names|
  {
    if names == [] then t
    else
      var prev := SeedAll(t, names[..|names| - 1], nameOf, mk);
      Table(InsertOrIgnore(prev.rows, prev.next, names[|names| - 1], nameOf, mk), prev.next + 1)
  }

  /** After seeding, a name is present exactly when it was before or it is listed. */
  lemma {:induction false} SeedAllTaken<T>(t: Table<T>, names: seq<string>, nameOf: T -> string, mk: (nat, string) -> T, name: string)
    requires forall id, n :: nameOf(mk(id, n)) == n
    ensures NameTaken(SeedAll(t, names, nameOf, mk).rows, name, nameOf) <==> NameTaken(t.rows, name, nameOf) || name in names
    decreases |names|
  {
    if names != [] {
      var init, last := names[..|names| - 1], names[|names| - 1];
      assert names == init + [last];
      var prev := SeedAll(t, init, nameOf, mk);
      SeedAllTaken(t, init, nameOf, mk, name);
      SeedAllTaken(t, init, nameOf, mk, last);
      if !NameTaken(prev.rows, last, nameOf) {
        var r := SeedAll(t, names, nameOf, mk);
        assert r.rows == prev.rows + [mk(prev.next, last)];
        if NameTaken(r.rows, name, nameOf) && name != last {
          var w :| w in r.rows && nameOf(w) == name;
          assert w in prev.rows;
        }
      }
    }
  }

  /** The listed names missing from a table before seeding. */
  function Missing<T(==)>(rows: seq<T>, names: seq<string>, nameOf: T -> string): set<string>
  {
    set n | n in names && !NameTaken(rows, n, nameOf)
  }

  /** With no name listed twice, seeding adds one row per listed name that was missing. */
  lemma {:induction false} SeedAllCount<T>(t: Table<T>, names: seq<string>, nameOf: T -> string, mk: (nat, string) -> T)
    requires forall id, n :: nameOf(mk(id, n)) == n
    requires forall i, j :: 0 <= i < j < |names| ==> names[i] != names[j]
    ensures |SeedAll(t, names, nameOf, mk).rows| == |t.rows| + |Missing(t.rows, names, nameOf)|
    decreases |names|
  {
    if names == [] {
      assert Missing(t.rows, names, nameOf) == {};
    } else {
      var init, last := names[..|names| - 1], names[|names| - 1];
      assert names == init + [last];
      SeedAllCount(t, init, nameOf, mk);
      SeedAllTaken(t, init, nameOf, mk, last);
      assert last !in init;
      var before := Missing(t.rows, init, nameOf);
      if NameTaken(t.rows, last, nameOf) {
        assert Missing(t.rows, names, nameOf) == before;
      } else {
        assert Missing(t.rows, names, nameOf) == before + {last};
      }
    }
  }

  /** Seeding names that are all present adds no row (the ID sequence still advances). */
  lemma {:induction false} SeedAllPresentNoop<T>(t: Table<T>, names: seq<string>, nameOf: T -> string, mk: (nat, string) -> T)
    requires forall name :: name in names ==> NameTaken(t.rows, name, nameOf)
    ensures SeedAll(t, names, nameOf, mk).rows == t.rows
    decreases |names|
  {
    if names != [] {
      var init := names[..|names| - 1];
      assert forall name :: name in init ==> name in names;
      SeedAllPresentNoop(t, init, nameOf, mk);
      assert names[|names| - 1] in names;
    }
  }

  /** Seeding is idempotent on the rows: a second run inserts nothing. */
  lemma SeedAllIdempotent<T>(t: Table<T>, names: seq<string>, nameOf: T -> string, mk: (nat, string) -> T)
    requires forall id, name :: nameOf(mk(id, name)) == name
    ensures var once := SeedAll(t, names, nameOf, mk);
      SeedAll(once, names, nameOf, mk).rows == once.rows
  {
    forall name | name in names ensures NameTaken(SeedAll(t, names, nameOf, mk).rows, name, nameOf) {
      SeedAllTaken(t, names, nameOf, mk, name);
    }
    SeedAllPresentNoop(SeedAll(t, names, nameOf, mk), names, nameOf, mk);
  }

  /** An empty Applications table is seeded with the four sample rows, IDs 1 to 4. */
  lemma SeedEmptyApplications()
    ensures SeedAll(Table([], 1), ApplicationSeedNames, ApplicationName, NewApplication)
         == Table([NewApplication(1, "app_one"), NewApplication(2, "app_two"),
                   NewApplication(3, "api_app1"), NewApplication(4, "crazy_app_1")], 5)
  {
    var names, t := ApplicationSeedNames, Table([], 1);
    var a1, a2, a3, a4 := NewApplication(1, "app_one"), NewApplication(2, "app_two"),
                          NewApplication(3, "api_app1"), NewApplication(4, "crazy_app_1");
    assert names[..1][..0] == [] && names[..2][..1] == names[..1] && names[..3][..2] == names[..2];
    assert names[..4][..3] == names[..3] && names[..4] == names;
    assert SeedAll(t, names[..1], ApplicationName, NewApplication) == Table([a1], 2);
    assert !NameTaken([a1], "app_two", ApplicationName);
    assert SeedAll(t, names[..2], ApplicationName, NewApplication) == Table([a1, a2], 3);
    assert !NameTaken([a1, a2], "api_app1", ApplicationName);
    assert SeedAll(t, names[..3], ApplicationName, NewApplication) == Table([a1, a2, a3], 4);
    assert !NameTaken([a1, a2, a3], "crazy_app_1", ApplicationName);
  }

  /** An empty Regions table is seeded with the five sample regions, IDs 1 to 5. */
  lemma SeedEmptyRegions()
    ensures SeedAll(Table([], 1), RegionSeedNames, RegionName, NewRegion)
         == Table([Region(1, "DEV"), Region(2, "TEST"), Region(3, "PROD"), Region(4, "QA"), Region(5, "TRN")], 6)
  {
    var names, t := RegionSeedNames, Table([], 1);
    var r1, r2, r3, r4, r5 := Region(1, "DEV"), Region(2, "TEST"), Region(3, "PROD"), Region(4, "QA"), Region(5, "TRN");
    assert names[..1][..0] == [] && names[..2][..1] == names[..1] && names[..3][..2] == names[..2];
    assert names[..4][..3] == names[..3] && names[..5][..4] == names[..4] && names[..5] == names;
    assert SeedAll(t, names[..1], RegionName, NewRegion) == Table([r1], 2);
    assert !NameTaken([r1], "TEST", RegionName);
    assert SeedAll(t, names[..2], RegionName, NewRegion) == Table([r1, r2], 3);
    assert !NameTaken([r1, r2], "PROD", RegionName);
    assert SeedAll(t, names[..3], RegionName, NewRegion) == Table([r1, r2, r3], 4);
    assert !NameTaken([r1, r2, r3], "QA", RegionName);
    assert SeedAll(t, names[..4], RegionName, NewRegion) == Table([r1, r2, r3, r4], 5);
    assert !NameTaken([r1, r2, r3, r4], "TRN", RegionName);
  }

  /** `seedApplications`: one `INSERT OR IGNORE` per sample application name. */
  method SeedApplications(db: Database)
    requires db.Valid()
    modifies db`applications, db`nextApplicationId
    ensures db.Valid()
    ensures Table(db.applications, db.nextApplicationId)
         == SeedAll(Table(old(db.applications), old(db.nextApplicationId)), ApplicationSeedNames, ApplicationName, NewApplication)
  {
    var names := ApplicationSeedNames;
    ghost var start := Table(db.applications, db.nextApplicationId);
    for i := 0 to |names|
      invariant db.Valid()
      invariant Table(db.applications, db.nextApplicationId) == SeedAll(start, names[..i], ApplicationName, NewApplication)
    {
      assert names[..i + 1][..i] == names[..i];
      var _ := db.InsertOrIgnoreApplication(names[i]);
    }
    assert names[..|names|] == names;
  }

  /** `seedRegions`: one `INSERT OR IGNORE` per sample region name. */
  method SeedRegions(db: Database)
    requires db.Valid()
    modifies db`regions, db`nextRegionId
    ensures db.Valid()
    ensures Table(db.regions, db.nextRegionId)
         == SeedAll(Table(old(db.regions), old(db.nextRegionId)), RegionSeedNames, RegionName, NewRegion)
  {
    var names := RegionSeedNames;
    ghost var start := Table(db.regions, db.nextRegionId);
    for i := 0 to |names|
      invariant db.Valid()
      invariant Table(db.regions, db.nextRegionId) == SeedAll(start, names[..i], RegionName, NewRegion)
    {
      assert names[..i + 1][..i] == names[..i];
      var _ := db.InsertOrIgnoreRegion(names[i]);
    }
    assert names[..|names|] == names;
  }
}
