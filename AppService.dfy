/** The application records of the suite and the public catalog: which apps
    are available at a given instant, and the catalog of available apps, read
    through the in-memory cache. Instants are integers; the database query
    results are given as sequences. */
module AppService {
  import opened Wrappers
  import opened Cache

  /** `access_mode`: one of the three values the schemas admit. */
  datatype AccessMode = Public | Password | Sso

  /** A row of the `apps` table (creation and update timestamps left out). */
  datatype App = App(
    id: string,
    name: string,
    description: Option<string>,
    path: string,
    tags: Option<string>,
    enabled: bool,
    accessMode: AccessMode,
    passwordHash: Option<string>,
    rateLimitPerMin: Option<int>)

  /** A row of the `app_schedules` table: an availability window, either end
      of which may be open. */
  datatype Schedule = Schedule(id: nat, enabledFrom: Option<int>, enabledUntil: Option<int>, cronExpr: Option<string>)

  /** `AppOut`: what the API reports about an app. */
  datatype AppOut = AppOut(
    id: string,
    name: string,
    description: Option<string>,
    path: string,
    tags: Option<string>,
    enabled: bool,
    accessMode: AccessMode,
    rateLimitPerMin: Option<int>,
    hasPassword: bool)

  /** `AppOut.model_validate(app)` with `has_password` set as given. */
  function Out(app: App, hasPassword: bool): (o: AppOut)
    ensures o.id == app.id && o.name == app.name && o.hasPassword == hasPassword
  {
    AppOut(app.id, app.name, app.description, app.path, app.tags, app.enabled, app.accessMode, app.rateLimitPerMin, hasPassword)
  }

  /** A schedule lets the app through at `now`: not before its start and not
      after its end, both ends included. */
  predicate WindowOpen(s: Schedule, now: int) {
    !(s.enabledFrom.Some? && now < s.enabledFrom.value) && !(s.enabledUntil.Some? && now > s.enabledUntil.value)
  }

  /** `is_app_available(app, now)`: a disabled app never is; an enabled one
      is unless some schedule's window excludes `now`. The loop returns at the
      first schedule that excludes it. */
  function IsAppAvailable(app: App, schedules: seq<Schedule>, now: int): (r: bool)
    ensures r <==> app.enabled && forall k :: 0 <= k < |schedules| ==> WindowOpen(schedules[k], now)
  {
    if !app.enabled then false
    else if schedules == [] then true
    else if !WindowOpen(schedules[0], now) then false
    else IsAppAvailable(app, schedules[1..], now)
  }

  const CatalogKey: string := "public_catalog"

  /** The catalog built from the enabled apps (each with its schedules), in
      query order: the available ones, each reporting whether it has a
      password hash. */
  function Catalog(rows: seq<(App, seq<Schedule>)>, now: int): seq<AppOut> {
    if rows == [] then []
    else
      var init := Catalog(rows[..|rows| - 1], now);
      var (app, schedules) := rows[|rows| - 1];
      if IsAppAvailable(app, schedules, now) then init + [Out(app, app.passwordHash.Some?)] else init
  }

  /** An app is in the catalog exactly when it is enabled and available, and
      it reports a password exactly when it has a hash. */
  lemma {:induction false} CatalogMembers(rows: seq<(App, seq<Schedule>)>, now: int, o: AppOut)
    ensures o in Catalog(rows, now) <==>
      exists k :: 0 <= k < |rows| && IsAppAvailable(rows[k].0, rows[k].1, now) && o == Out(rows[k].0, rows[k].0.passwordHash.Some?)
  {
    if rows != [] {
      var n := |rows| - 1;
      CatalogMembers(rows[..n], now, o);
      assert forall k :: 0 <= k < n ==> rows[..n][k] == rows[k];
      if o in Catalog(rows, now) && o !in Catalog(rows[..n], now) {
        assert IsAppAvailable(rows[n].0, rows[n].1, now) && o == Out(rows[n].0, rows[n].0.passwordHash.Some?);
      }
    }
  }

  /** The catalog never lists more apps than the query returned. */
  lemma {:induction false} CatalogLength(rows: seq<(App, seq<Schedule>)>, now: int)
    ensures |Catalog(rows, now)| <= |rows|
  {
    if rows != [] {
      CatalogLength(rows[..|rows| - 1], now);
    }
  }

  /** The loop of `get_public_catalog` over the enabled apps. */
  method AvailableApps(rows: seq<(App, seq<Schedule>)>, now: int) returns (available: seq<AppOut>)
    ensures available == Catalog(rows, now)
  {
    available := [];
    var i := 0;
    while i < |rows|
      invariant 0 <= i <= |rows|
      invariant available == Catalog(rows[..i], now)
    {
      assert rows[..i + 1][..i] == rows[..i];
      var (app, schedules) := rows[i];
      if IsAppAvailable(app, schedules, now) {
        available := available + [Out(app, app.passwordHash.Some?)];
      }
      i := i + 1;
    }
    assert rows[..i] == rows;
  }

  /** `get_public_catalog(db)`. A catalog found in the cache is returned as
      it is and the query result is not consulted; otherwise the catalog is
      built from `enabledRows`, the enabled apps the query returns (a
      disabled one would be filtered out anyway), and stored
      under `public_catalog` for `ttl` seconds. `now` is the UTC instant the
      schedules are compared with, `clock` the cache's clock. */
  method GetPublicCatalog(cache: TTLCache<seq<AppOut>>, enabledRows: seq<(App, seq<Schedule>)>, now: int, clock: int, ttl: int)
    returns (catalog: seq<AppOut>)
    modifies cache
    ensures Lookup(old(cache.entries), CatalogKey, clock).Some? ==>
      catalog == Lookup(old(cache.entries), CatalogKey, clock).value && cache.entries == old(cache.entries)
    ensures Lookup(old(cache.entries), CatalogKey, clock).None? ==>
      catalog == Catalog(enabledRows, now) && cache.entries == old(cache.entries)[CatalogKey := NewEntry(catalog, ttl, clock)]
  {
    var cached := cache.Get(CatalogKey, clock);
    if cached.Some? {
      return cached.value;
    }
    catalog := AvailableApps(enabledRows, now);
    cache.Set(CatalogKey, catalog, ttl, clock);
  }

  /** `invalidate_catalog_cache()`: only the catalog's entry goes. */
  method InvalidateCatalogCache(cache: TTLCache<seq<AppOut>>)
    modifies cache
    ensures cache.entries == old(cache.entries) - {CatalogKey}
  {
    cache.Delete(CatalogKey);
  }
}
