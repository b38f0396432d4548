/** The administration endpoints over the app registry: the `apps` and
    `app_schedules` tables held as maps from app id, and the catalog cache
    that every successful change invalidates. Each handler is a method; an
    HTTP error is a `Failure` and leaves the tables as they were. The admin
    session check in front of the handlers, request validation by the
    schemas and the password hashing itself are not modelled: a new hash is
    given, and `verify_password` is a parameter. */
module Registry {
  import opened Wrappers
  import opened Strings
  import opened Cache
  import opened AppService

  /** An HTTP error: status code and detail. */
  datatype HttpError = HttpError(status: int, detail: string)

  const AppNotFound: HttpError := HttpError(404, "Aplicaci\U{00F3}n no encontrada")
  /** The server error an unhandled exception becomes. */
  const CommitFailed: HttpError := HttpError(500, "Internal Server Error")
  const ScheduleNotFound: HttpError := HttpError(404, "No se encontr\U{00F3} programaci\U{00F3}n para esta aplicaci\U{00F3}n")

  function AppExists(id: string): HttpError {
    HttpError(400, "Ya existe una aplicaci\U{00F3}n con id '" + id + "'")
  }

  /** `AppCreate`. */
  datatype AppCreate = AppCreate(
    id: string,
    name: string,
    description: Option<string>,
    path: string,
    tags: Option<string>,
    enabled: bool,
    accessMode: AccessMode,
    rateLimitPerMin: Option<int>)

  /** `AppUpdate` after `model_dump(exclude_unset=True)`: `None` for a field
      the request leaves out, `Some(None)` for an explicit null, which the
      schema accepts for every field. */
  datatype AppUpdate = AppUpdate(
    name: Option<Option<string>>,
    description: Option<Option<string>>,
    path: Option<Option<string>>,
    tags: Option<Option<string>>,
    enabled: Option<Option<bool>>,
    accessMode: Option<Option<AccessMode>>,
    rateLimitPerMin: Option<Option<int>>)

  /** No explicit null for a column declared NOT NULL (`name`, `path`,
      `enabled`, `access_mode`): only then does the commit succeed. */
  predicate Committable(u: AppUpdate) {
    && u.name != Some(None) && u.path != Some(None)
    && u.enabled != Some(None) && u.accessMode != Some(None)
  }

  /** `AppScheduleCreate`. */
  datatype ScheduleData = ScheduleData(enabledFrom: Option<int>, enabledUntil: Option<int>, cronExpr: Option<string>)

  /** `App(**app_in.model_dump())`: no password hash. */
  function Created(c: AppCreate): (a: App)
    ensures a.id == c.id && a.passwordHash.None?
  {
    App(c.id, c.name, c.description, c.path, c.tags, c.enabled, c.accessMode, None, c.rateLimitPerMin)
  }

  /** The `setattr` loop as committed: each field present in the request is
      assigned. */
  function Updated(a: App, u: AppUpdate): App
    requires Committable(u)
  {
    a.(name := u.name.GetOr(Some(a.name)).value,
       description := u.description.GetOr(a.description),
       path := u.path.GetOr(Some(a.path)).value,
       tags := u.tags.GetOr(a.tags),
       enabled := u.enabled.GetOr(Some(a.enabled)).value,
       accessMode := u.accessMode.GetOr(Some(a.accessMode)).value,
       rateLimitPerMin := u.rateLimitPerMin.GetOr(a.rateLimitPerMin))
  }

  /** The app after `set_app_password`: the new hash, and password mode. */
  function WithPassword(a: App, hash: string): App {
    a.(passwordHash := Some(hash), accessMode := Password)
  }

  /** The app after `remove_app_password`: no hash, and password mode turned
      into public; public and SSO stay. */
  function WithoutPassword(a: App): App {
    a.(passwordHash := None, accessMode := if a.accessMode == Password then Public else a.accessMode)
  }

  /** The access decision of `check_app_access` for an existing app: granted
      unless the app is in password mode with a non-empty hash, in which case
      the password must verify against the hash. */
  function AccessGranted(a: App, password: string, verify: (string, string) -> bool): bool {
    if a.accessMode != Password then true
    else if a.passwordHash.None? || a.passwordHash.value == "" then true
    else verify(password, a.passwordHash.value)
  }

  /** A row of the seed registry: the fields read from each entry (a missing
      `tags` is the empty list, a missing `enabled` is `None`). */
  datatype SeedEntry = SeedEntry(
    id: Option<string>,
    name: Option<string>,
    description: Option<string>,
    path: Option<string>,
    tags: seq<string>,
    enabled: Option<bool>)

  /** The commit of the seed succeeds: every entry has the non-null columns
      and no id appears twice. */
  predicate SeedCommits(es: seq<SeedEntry>) {
    && (forall k :: 0 <= k < |es| ==> es[k].id.Some? && es[k].name.Some? && es[k].path.Some?)
    && (forall j, k :: 0 <= j < k < |es| ==> es[j].id != es[k].id)
  }

  /** The app one seed entry becomes: tags joined with `,`, public, enabled
      unless the entry says otherwise, no hash. */
  function Seeded(e: SeedEntry): App
    requires e.id.Some? && e.name.Some? && e.path.Some?
  {
    App(e.id.value, e.name.value, e.description, e.path.value, Some(Join(",", e.tags)), e.enabled.GetOr(true), Public, None, None)
  }

  /** The apps the seed entries add, each under its id. */
  function SeededApps(es: seq<SeedEntry>): map<string, App>
    requires forall k :: 0 <= k < |es| ==> es[k].id.Some? && es[k].name.Some? && es[k].path.Some?
  {
    if es == [] then map[]
    else
      var n := |es| - 1;
      SeededApps(es[..n])[es[n].id.value := Seeded(es[n])]
  }

  /** The registry's tables. */
  class AppTable {
    var apps: map<string, App>
    /** At most one schedule per app: only the upsert creates schedules, and
        it creates one only when the app has none. */
    var schedules: map<string, Schedule>
    var nextScheduleId: nat

    constructor ()
      ensures apps == map[] && schedules == map[] && nextScheduleId == 1
    {
      apps := map[];
      schedules := map[];
      nextScheduleId := 1;
    }

    // -------------------------------------------------------------------------
    // routers/apps.py
    // -------------------------------------------------------------------------

    /** `check_app_access(app_id, password)`. */
    function CheckAppAccess(appId: string, password: string, verify: (string, string) -> bool): (r: Result<bool, HttpError>)
      reads this
      ensures appId !in apps <==> r == Failure(AppNotFound)
      ensures appId in apps && (apps[appId].accessMode != Password || apps[appId].passwordHash.None?) ==> r == Success(true)
      ensures appId in apps && apps[appId].accessMode == Password && apps[appId].passwordHash.Some? && apps[appId].passwordHash.value != "" ==>
        r == Success(verify(password, apps[appId].passwordHash.value))
    {
      if appId !in apps then Failure(AppNotFound)
      else Success(AccessGranted(apps[appId], password, verify))
    }

    /** `create_app(app_in)`: refused with 400 when the id is taken; otherwise
        the app is added, reported without a password, and the catalog cache is
        invalidated. */
    method CreateApp(c: AppCreate, cache: TTLCache<seq<AppOut>>) returns (r: Result<AppOut, HttpError>)
      modifies this, cache
      ensures c.id in old(apps) ==> r == Failure(AppExists(c.id)) && apps == old(apps) && cache.entries == old(cache.entries)
      ensures c.id !in old(apps) ==>
        && apps == old(apps)[c.id := Created(c)]
        && r == Success(Out(Created(c), false))
        && cache.entries == old(cache.entries) - {CatalogKey}
      ensures schedules == old(schedules) && nextScheduleId == old(nextScheduleId)
    {
      if c.id in apps {
        return Failure(AppExists(c.id));
      }
      var app := Created(c);
      apps := apps[c.id := app];
      InvalidateCatalogCache(cache);
      r := Success(Out(app, false));
    }

    /** `update_app(app_id, app_update)`: 404 for an unknown id. Otherwise the
        fields present in the request are assigned; an explicit null for a
        NOT NULL column makes the commit raise, so the table and the cache
        stay as they were and the request fails with a server error.
        Otherwise the cache is invalidated. */
    method UpdateApp(appId: string, u: AppUpdate, cache: TTLCache<seq<AppOut>>) returns (r: Result<AppOut, HttpError>)
      modifies this, cache
      ensures appId !in old(apps) ==> r == Failure(AppNotFound) && apps == old(apps) && cache.entries == old(cache.entries)
      ensures appId in old(apps) && !Committable(u) ==>
        r == Failure(CommitFailed) && apps == old(apps) && cache.entries == old(cache.entries)
      ensures appId in old(apps) && Committable(u) ==>
        var a := Updated(old(apps)[appId], u);
        && apps == old(apps)[appId := a]
        && r == Success(Out(a, a.passwordHash.Some?))
        && cache.entries == old(cache.entries) - {CatalogKey}
      ensures schedules == old(schedules) && nextScheduleId == old(nextScheduleId)
    {
      if appId !in apps {
        return Failure(AppNotFound);
      }
      if !Committable(u) {
        return Failure(CommitFailed);
      }
      var app := Updated(apps[appId], u);
      apps := apps[appId := app];
      InvalidateCatalogCache(cache);
      r := Success(Out(app, app.passwordHash.Some?));
    }

    /** `delete_app(app_id)`: 404 when no row is deleted; otherwise the app is
        gone and the cache invalidated. The bulk delete does not cascade to
        the app's schedule. */
    method DeleteApp(appId: string, cache: TTLCache<seq<AppOut>>) returns (r: Result<(), HttpError>)
      modifies this, cache
      ensures appId !in old(apps) ==> r == Failure(AppNotFound) && apps == old(apps) && cache.entries == old(cache.entries)
      ensures appId in old(apps) ==>
        r == Success(()) && apps == old(apps) - {appId} && cache.entries == old(cache.entries) - {CatalogKey}
      ensures schedules == old(schedules) && nextScheduleId == old(nextScheduleId)
    {
      if appId !in apps {
        return Failure(AppNotFound);
      }
      apps := apps - {appId};
      InvalidateCatalogCache(cache);
      r := Success(());
    }

    /** `set_app_password(app_id, password)`, given the new hash: the hash is
        stored and the app put in password mode. */
    method SetAppPassword(appId: string, hash: string, cache: TTLCache<seq<AppOut>>) returns (r: Result<(), HttpError>)
      modifies this, cache
      ensures appId !in old(apps) ==> r == Failure(AppNotFound) && apps == old(apps) && cache.entries == old(cache.entries)
      ensures appId in old(apps) ==>
        && r == Success(())
        && apps == old(apps)[appId := WithPassword(old(apps)[appId], hash)]
        && cache.entries == old(cache.entries) - {CatalogKey}
      ensures schedules == old(schedules) && nextScheduleId == old(nextScheduleId)
    {
      if appId !in apps {
        return Failure(AppNotFound);
      }
      var app := apps[appId].(passwordHash := Some(hash));
      if app.accessMode != Password {
        app := app.(accessMode := Password);
      }
      apps := apps[appId := app];
      InvalidateCatalogCache(cache);
      r := Success(());
    }

    /** `remove_app_password(app_id)`: the hash is cleared and password mode
        becomes public. */
    method RemoveAppPassword(appId: string, cache: TTLCache<seq<AppOut>>) returns (r: Result<(), HttpError>)
      modifies this, cache
      ensures appId !in old(apps) ==> r == Failure(AppNotFound) && apps == old(apps) && cache.entries == old(cache.entries)
      ensures appId in old(apps) ==>
        && r == Success(())
        && apps == old(apps)[appId := WithoutPassword(old(apps)[appId])]
        && cache.entries == old(cache.entries) - {CatalogKey}
      ensures schedules == old(schedules) && nextScheduleId == old(nextScheduleId)
    {
      if appId !in apps {
        return Failure(AppNotFound);
      }
      var app := apps[appId].(passwordHash := None);
      if app.accessMode == Password {
        app := app.(accessMode := Public);
      }
      apps := apps[appId := app];
      InvalidateCatalogCache(cache);
      r := Success(());
    }

    // -------------------------------------------------------------------------
    // routers/schedules.py
    // -------------------------------------------------------------------------

    /** `get_app_schedule(app_id)`: 404 for an unknown app, otherwise its
        schedule if it has one. */
    function GetAppSchedule(appId: string): (r: Result<Option<Schedule>, HttpError>)
      reads this
      ensures appId !in apps <==> r == Failure(AppNotFound)
      ensures appId in apps && appId in schedules ==> r == Success(Some(schedules[appId]))
      ensures appId in apps && appId !in schedules ==> r == Success(None)
    {
      if appId !in apps then Failure(AppNotFound)
      else if appId in schedules then Success(Some(schedules[appId]))
      else Success(None)
    }

    /** `create_or_update_schedule(app_id, schedule_data)`: 404 for an unknown
        app; an existing schedule gets the three fields overwritten and keeps
        its id; otherwise one new schedule is created. The cache is
        invalidated. */
    method CreateOrUpdateSchedule(appId: string, data: ScheduleData, cache: TTLCache<seq<AppOut>>) returns (r: Result<Schedule, HttpError>)
      modifies this, cache
      ensures appId !in old(apps) ==>
        r == Failure(AppNotFound) && schedules == old(schedules) && nextScheduleId == old(nextScheduleId)
        && cache.entries == old(cache.entries)
      ensures appId in old(apps) && appId in old(schedules) ==>
        && r == Success(Schedule(old(schedules)[appId].id, data.enabledFrom, data.enabledUntil, data.cronExpr))
        && schedules == old(schedules)[appId := r.value]
        && nextScheduleId == old(nextScheduleId)
      ensures appId in old(apps) && appId !in old(schedules) ==>
        && r == Success(Schedule(old(nextScheduleId), data.enabledFrom, data.enabledUntil, data.cronExpr))
        && schedules == old(schedules)[appId := r.value]
        && nextScheduleId == old(nextScheduleId) + 1
      ensures appId in old(apps) ==> cache.entries == old(cache.entries) - {CatalogKey}
      ensures apps == old(apps)
    {
      if appId !in apps {
        return Failure(AppNotFound);
      }
      var schedule: Schedule;
      if appId in schedules {
        schedule := schedules[appId].(enabledFrom := data.enabledFrom, enabledUntil := data.enabledUntil, cronExpr := data.cronExpr);
      } else {
        schedule := Schedule(nextScheduleId, data.enabledFrom, data.enabledUntil, data.cronExpr);
        nextScheduleId := nextScheduleId + 1;
      }
      schedules := schedules[appId := schedule];
      InvalidateCatalogCache(cache);
      r := Success(schedule);
    }

    /** `delete_schedule(app_id)`: 404 when the app has no schedule (whether
        or not the app exists); otherwise the schedule is gone and the cache
        invalidated. */
    method DeleteSchedule(appId: string, cache: TTLCache<seq<AppOut>>) returns (r: Result<(), HttpError>)
      modifies this, cache
      ensures appId !in old(schedules) ==> r == Failure(ScheduleNotFound) && schedules == old(schedules) && cache.entries == old(cache.entries)
      ensures appId in old(schedules) ==>
        r == Success(()) && schedules == old(schedules) - {appId} && cache.entries == old(cache.entries) - {CatalogKey}
      ensures apps == old(apps) && nextScheduleId == old(nextScheduleId)
    {
      if appId !in schedules {
        return Failure(ScheduleNotFound);
      }
      schedules := schedules - {appId};
      InvalidateCatalogCache(cache);
      r := Success(());
    }

    // -------------------------------------------------------------------------
    // main.py: seeding
    // -------------------------------------------------------------------------

    /** `seed_apps_from_yaml(db)`, given the registry's entries, or `None`
        when no registry file is found or it cannot be read. Nothing happens
        when the table already holds apps. The apps are added one by one and
        committed together; a commit that fails (a missing id, name or path,
        or an id given twice) leaves the table as it was. */
    method SeedApps(registry: Option<seq<SeedEntry>>)
      modifies this
      ensures old(apps) != map[] || registry.None? ==> apps == old(apps)
      ensures old(apps) == map[] && registry.Some? && !SeedCommits(registry.value) ==> apps == old(apps)
      ensures old(apps) == map[] && registry.Some? && SeedCommits(registry.value) ==> apps == SeededApps(registry.value)
      ensures schedules == old(schedules) && nextScheduleId == old(nextScheduleId)
    {
      if apps != map[] || registry.None? {
        return;
      }
      var es := registry.value;
      if !SeedCommits(es) {
        return;
      }
      var pending: map<string, App> := map[];
      var i := 0;
      while i < |es|
        invariant 0 <= i <= |es|
        invariant pending == SeededApps(es[..i])
      {
        assert es[..i + 1][..i] == es[..i];
        var e := es[i];
        pending := pending[e.id.value := Seeded(e)];
        i := i + 1;
      }
      assert es[..i] == es;
      apps := pending;
    }
  }

  // ---------------------------------------------------------------------------
  // Properties
  // ---------------------------------------------------------------------------

  /** A field the request leaves out keeps its value; a field it gives takes
      the given value. */
  lemma UpdateFields(a: App, u: AppUpdate)
    requires Committable(u)
    ensures var b := Updated(a, u);
      && b.id == a.id && b.passwordHash == a.passwordHash
      && (u.name.None? ==> b.name == a.name) && (u.name.Some? ==> Some(b.name) == u.name.value)
      && (u.description.None? ==> b.description == a.description) && (u.description.Some? ==> b.description == u.description.value)
      && (u.path.None? ==> b.path == a.path) && (u.path.Some? ==> Some(b.path) == u.path.value)
      && (u.tags.None? ==> b.tags == a.tags) && (u.tags.Some? ==> b.tags == u.tags.value)
      && (u.enabled.None? ==> b.enabled == a.enabled) && (u.enabled.Some? ==> Some(b.enabled) == u.enabled.value)
      && (u.accessMode.None? ==> b.accessMode == a.accessMode) && (u.accessMode.Some? ==> Some(b.accessMode) == u.accessMode.value)
      && (u.rateLimitPerMin.None? ==> b.rateLimitPerMin == a.rateLimitPerMin)
      && (u.rateLimitPerMin.Some? ==> b.rateLimitPerMin == u.rateLimitPerMin.value)
  {
  }

  /** Applying the same update twice is applying it once. */
  lemma UpdateIdempotent(a: App, u: AppUpdate)
    requires Committable(u)
    ensures Updated(Updated(a, u), u) == Updated(a, u)
  {
  }

  /** An app switched to password mode by an update, with no hash stored, is
      still open to everyone. */
  lemma PasswordModeWithoutHashIsOpen(a: App, u: AppUpdate, password: string, verify: (string, string) -> bool)
    requires a.passwordHash.None? && u.accessMode == Some(Some(Password)) && Committable(u)
    ensures Updated(a, u).accessMode == Password
    ensures AccessGranted(Updated(a, u), password, verify)
  {
  }

  /** After a password is set, access is exactly what verification says. */
  lemma SetPasswordGuards(a: App, hash: string, password: string, verify: (string, string) -> bool)
    requires hash != ""
    ensures AccessGranted(WithPassword(a, hash), password, verify) == verify(password, hash)
  {
  }

  /** After the password is removed, access is always granted, and removing
      it again changes nothing. */
  lemma RemovePasswordOpens(a: App, password: string, verify: (string, string) -> bool)
    ensures AccessGranted(WithoutPassword(a), password, verify)
    ensures WithoutPassword(WithoutPassword(a)) == WithoutPassword(a)
    ensures a.accessMode != Password ==> WithoutPassword(a).accessMode == a.accessMode
  {
  }

  /** Removing a password after setting one leaves a public app with no hash,
      whatever mode it had before. */
  lemma SetThenRemove(a: App, hash: string)
    ensures WithoutPassword(WithPassword(a, hash)) == a.(passwordHash := None, accessMode := Public)
  {
  }

  /** Each seeded app sits under its own id, public, without a password,
      enabled unless its entry says `enabled: false`, with its tags joined by
      `,`; no other id is seeded. */
  lemma {:induction false} SeededAppsGet(es: seq<SeedEntry>, k: nat)
    requires SeedCommits(es) && k < |es|
    ensures es[k].id.value in SeededApps(es)
    ensures var a := SeededApps(es)[es[k].id.value];
      && a == Seeded(es[k])
      && a.accessMode == Public && a.passwordHash.None?
      && a.enabled == (es[k].enabled != Some(false))
      && a.tags == Some(Join(",", es[k].tags))
  {
    var n := |es| - 1;
    assert SeedCommits(es[..n]);
    if k < n {
      assert es[..n][k] == es[k];
      SeededAppsGet(es[..n], k);
      assert es[n].id != es[k].id;
    }
  }

  /** The seeded ids are exactly the entries' ids. */
  lemma {:induction false} SeededAppsKeys(es: seq<SeedEntry>, id: string)
    requires forall k :: 0 <= k < |es| ==> es[k].id.Some? && es[k].name.Some? && es[k].path.Some?
    ensures id in SeededApps(es) <==> exists k :: 0 <= k < |es| && es[k].id == Some(id)
  {
    if es != [] {
      var n := |es| - 1;
      assert forall k :: 0 <= k < n ==> es[..n][k] == es[k];
      SeededAppsKeys(es[..n], id);
    }
  }
}
