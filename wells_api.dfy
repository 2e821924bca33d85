/** The wells route: the list of wells with their latest reading and the
    offline rule (GET), and the saving of wells with the alert-email trigger
    (POST). Database reads are inputs; database writes are modelled as the
    rows handed to the upsert and a status store that successful upserts
    update. */
module WellsApi {
  import opened Common

  // ---------------------------------------------------------------------------
  // Listing

  /** The user joined to a well row: the join arrives either as one object or
      as an array of which the first element is used. */
  datatype OwnerRow = OwnerRow(phone: Option<string>, location: Option<string>)
  datatype JoinedOwner = NoOwner | OwnerObject(owner: OwnerRow) | OwnerArray(owners: seq<OwnerRow>)

  datatype WellRow = WellRow(
    id: string, userId: string, name: string,
    panchayatName: Option<string>, villageName: Option<string>,
    lat: Option<real>, lng: Option<real>, status: Option<string>,
    createdAt: string, users: JoinedOwner)

  datatype ListedWell = ListedWell(
    id: string, userId: string, name: string,
    panchayatName: Option<string>, villageName: Option<string>,
    lat: Option<real>, lng: Option<real>, status: string,
    createdAt: string, contactPhone: Option<string>, latestMetric: Option<MetricRow>)

  /** Two hours in milliseconds. */
  const TwoHoursMs: int := 2 * 60 * 60 * 1000

  /** `MetricKey` selects the well id of a metric row. */
  function MetricKey(m: MetricRow): string { m.wellId }

  function Owner(users: JoinedOwner): Option<OwnerRow> {
    match users
    case NoOwner => None
    case OwnerObject(o) => Some(o)
    case OwnerArray(os) => if os == [] then None else Some(os[0])
  }

  /** The inactivity rule. `dateMs` reads a timestamp text as milliseconds and
      gives `None` for an invalid date (whose time is NaN). A well is offline
      when it has no reading, when the reading has an empty timestamp, or when
      the reading is more than two hours older than `nowMs`. A reading whose
      timestamp does not parse compares false and so never makes the well
      offline. */
  predicate IsOffline(latest: Option<MetricRow>, nowMs: int, dateMs: string -> Option<int>)
    ensures latest.None? ==> IsOffline(latest, nowMs, dateMs)
    ensures latest.Some? && !Truthy(latest.value.ts) ==> IsOffline(latest, nowMs, dateMs)
    ensures forall t :: latest.Some? && Truthy(latest.value.ts) && dateMs(latest.value.ts.value) == Some(t) ==>
              (IsOffline(latest, nowMs, dateMs) <==> t < nowMs - TwoHoursMs)
    ensures latest.Some? && Truthy(latest.value.ts) && dateMs(latest.value.ts.value).None? ==>
              !IsOffline(latest, nowMs, dateMs)
  {
    if latest.None? || !Truthy(latest.value.ts) then true
    else
      var t := dateMs(latest.value.ts.value);
      t.Some? && nowMs - t.value > TwoHoursMs
  }

  /** A reading exactly two hours old keeps the well online; one millisecond
      more takes it offline. */
  lemma OfflineBoundary(m: MetricRow, nowMs: int, dateMs: string -> Option<int>)
    requires Truthy(m.ts) && dateMs(m.ts.value) == Some(nowMs - TwoHoursMs)
    ensures !IsOffline(Some(m), nowMs, dateMs)
    ensures IsOffline(Some(m), nowMs + 1, dateMs)
  {
  }

  /** Once offline, a well stays offline as time passes. */
  lemma OfflineStaysOffline(latest: Option<MetricRow>, nowMs: int, laterMs: int, dateMs: string -> Option<int>)
    requires nowMs <= laterMs && IsOffline(latest, nowMs, dateMs)
    ensures IsOffline(latest, laterMs, dateMs)
  {
  }

  /** The reported status: "offline" when the inactivity rule holds, else the
      stored status, or "active" when that is empty. */
  function EffectiveStatus(offline: bool, stored: Option<string>): (s: string)
    ensures s != ""
    ensures offline ==> s == "offline"
    ensures !offline && Truthy(stored) ==> s == stored.value
    ensures !offline && !Truthy(stored) ==> s == "active"
  {
    if offline then "offline" else OrElse(stored, "active")
  }

  /** One listed well: the row's own fields, the village from the row or the
      owner's location, the owner's phone, and the latest reading. */
  function ListWell(w: WellRow, latest: Option<MetricRow>, nowMs: int, dateMs: string -> Option<int>): (l: ListedWell)
    ensures l.id == w.id && l.userId == w.userId && l.name == w.name && l.panchayatName == w.panchayatName
    ensures l.lat == w.lat && l.lng == w.lng && l.createdAt == w.createdAt && l.latestMetric == latest
    ensures l.status == EffectiveStatus(IsOffline(latest, nowMs, dateMs), w.status)
    ensures Truthy(w.villageName) ==> l.villageName == w.villageName
    ensures !Truthy(w.villageName) && Owner(w.users).Some? && Truthy(Owner(w.users).value.location) ==>
              l.villageName == Owner(w.users).value.location
    ensures l.villageName.Some? ==> Truthy(w.villageName) || (Owner(w.users).Some? && Truthy(Owner(w.users).value.location))
    ensures Owner(w.users).Some? && Truthy(Owner(w.users).value.phone) ==> l.contactPhone == Owner(w.users).value.phone
    ensures l.contactPhone.Some? ==> Owner(w.users).Some? && Truthy(Owner(w.users).value.phone)
  {
    var owner := Owner(w.users);
    var ownerLocation := if owner.Some? then owner.value.location else None;
    var ownerPhone := if owner.Some? then owner.value.phone else None;
    var villages := [w.villageName, ownerLocation];
    assert villages[0] == w.villageName && villages[1] == ownerLocation;
    ListedWell(
      w.id, w.userId, w.name, w.panchayatName,
      FirstTruthy(villages),
      w.lat, w.lng,
      EffectiveStatus(IsOffline(latest, nowMs, dateMs), w.status),
      w.createdAt,
      FirstTruthy([ownerPhone]),
      latest)
  }

  /** The rows the metrics query returns: the readings of the listed wells,
      newest first, cut at twice the number of wells. */
  function MetricsQuery(recent: seq<MetricRow>, wellCount: nat): (rows: seq<MetricRow>)
    ensures |rows| <= 2 * wellCount && |rows| <= |recent| && rows == recent[..|rows|]
    ensures |rows| == |recent| || |rows| == 2 * wellCount
  {
    if |recent| <= 2 * wellCount then recent else recent[..2 * wellCount]
  }

  /** The listing over the rows the metrics query returned: one entry per
      well, in order, each with the first (newest) of the rows carrying its
      id. */
  function Listing(wells: seq<WellRow>, metrics: seq<MetricRow>, nowMs: int, dateMs: string -> Option<int>)
    : (listed: seq<ListedWell>)
    ensures |listed| == |wells|
    ensures forall i :: 0 <= i < |wells| ==>
              listed[i] == ListWell(wells[i], FirstWithKey(metrics, MetricKey, wells[i].id), nowMs, dateMs)
  {
    if wells == [] then []
    else
      var init := Listing(wells[..|wells| - 1], metrics, nowMs, dateMs);
      var last := wells[|wells| - 1];
      assert forall i :: 0 <= i < |wells| - 1 ==> wells[..|wells| - 1][i] == wells[i];
      init + [ListWell(last, FirstWithKey(metrics, MetricKey, last.id), nowMs, dateMs)]
  }

  /** The loop of the route that builds the listing from the latest reading
      of each well. */
  method ListWells(wells: seq<WellRow>, metrics: seq<MetricRow>, nowMs: int, dateMs: string -> Option<int>)
    returns (listed: seq<ListedWell>)
    ensures listed == Listing(wells, metrics, nowMs, dateMs)
  {
    var latest: map<string, MetricRow> := map[];
    if |wells| > 0 {
      latest := FirstPerKey(metrics, MetricKey);
    }
    listed := [];
    for i := 0 to |wells|
      invariant listed == Listing(wells[..i], metrics, nowMs, dateMs)
    {
      assert wells[..i + 1][..i] == wells[..i];
      FirstPerKeyLookup(metrics, MetricKey, latest, wells[i].id);
      var m := if wells[i].id in latest then Some(latest[wells[i].id]) else None;
      listed := listed + [ListWell(wells[i], m, nowMs, dateMs)];
    }
    assert wells[..|wells|] == wells;
  }

  /** Every listed well keeps its id, name and coordinates, and is offline or
      carries a non-empty status. */
  lemma ListedWellKeepsRow(w: WellRow, latest: Option<MetricRow>, nowMs: int, dateMs: string -> Option<int>)
    ensures var l := ListWell(w, latest, nowMs, dateMs);
      && l.id == w.id && l.name == w.name && l.lat == w.lat && l.lng == w.lng
      && l.latestMetric == latest
      && (l.status == "offline" <==> IsOffline(latest, nowMs, dateMs) || w.status == Some("offline"))
  {
  }

  /** The query limit can hide a well's newest reading: the first well has
      four readings newer than the second well's one, so the four rows the
      query returns for two wells hold none of the second well, and that well
      is reported offline although its reading is current. */
  lemma LimitHidesRecentReading(dateMs: string -> Option<int>, nowMs: int)
    requires dateMs("t") == Some(nowMs)
    ensures var a := MetricRow("a", None, None, None, None, None, Some("t"));
      var b := MetricRow("b", None, None, None, None, None, Some("t"));
      var recent := [a, a, a, a, b];
      && FirstWithKey(MetricsQuery(recent, 2), MetricKey, "b") == None
      && IsOffline(FirstWithKey(MetricsQuery(recent, 2), MetricKey, "b"), nowMs, dateMs)
      && FirstWithKey(LatestPerWell(recent, ["a", "b"]), MetricKey, "b") == Some(b)
      && !IsOffline(FirstWithKey(LatestPerWell(recent, ["a", "b"]), MetricKey, "b"), nowMs, dateMs)
  {
    var a := MetricRow("a", None, None, None, None, None, Some("t"));
    var b := MetricRow("b", None, None, None, None, None, Some("t"));
    var recent := [a, a, a, a, b];
    LimitKeepsFirstFour(recent);
    NewestOfSecondWell(recent);
  }

  lemma LimitKeepsFirstFour(recent: seq<MetricRow>)
    requires |recent| == 5 && forall i :: 0 <= i < 4 ==> recent[i].wellId == "a"
    ensures FirstWithKey(MetricsQuery(recent, 2), MetricKey, "b") == None
  {
    var q := MetricsQuery(recent, 2);
    assert q == recent[..4];
    assert forall i :: 0 <= i < |q| ==> MetricKey(q[i]) != "b";
  }

  lemma NewestOfSecondWell(recent: seq<MetricRow>)
    requires |recent| == 5 && forall i :: 0 <= i < 4 ==> recent[i].wellId == "a"
    ensures FirstWithKey(LatestPerWell(recent, ["a", "b"]), MetricKey, "b") == FirstWithKey(recent, MetricKey, "b")
    ensures recent[4].wellId == "b" ==> FirstWithKey(recent, MetricKey, "b") == Some(recent[4])
  {
    LatestPerWellKeepsFirst(recent, ["a", "b"], "b");
    if recent[4].wellId == "b" {
      FirstWithKeyAt(recent, MetricKey, 4);
    }
  }

  /** The query the listing needs: the newest reading of each listed well,
      whatever the number of readings of the other wells. */
  function LatestPerWell(recent: seq<MetricRow>, ids: seq<string>): (rows: seq<MetricRow>)
    ensures |rows| <= |ids|
    ensures forall i :: 0 <= i < |rows| ==> rows[i] in recent
  {
    if ids == [] then []
    else
      var first := FirstWithKey(recent, MetricKey, ids[0]);
      (if first.Some? then [first.value] else []) + LatestPerWell(recent, ids[1..])
  }

  /** Over the corrected query, every listed well finds the same reading as
      over all its readings. */
  lemma {:induction false} LatestPerWellKeepsFirst(recent: seq<MetricRow>, ids: seq<string>, id: string)
    requires id in ids
    ensures FirstWithKey(LatestPerWell(recent, ids), MetricKey, id) == FirstWithKey(recent, MetricKey, id)
  {
    var first := FirstWithKey(recent, MetricKey, ids[0]);
    var head := if first.Some? then [first.value] else [];
    var rest := LatestPerWell(recent, ids[1..]);
    FirstWithKeyAppend(head, rest, id);
    if ids[0] != id {
      assert id in ids[1..];
      LatestPerWellKeepsFirst(recent, ids[1..], id);
    }
  }

  lemma FirstWithKeyAppend(head: seq<MetricRow>, rest: seq<MetricRow>, id: string)
    requires |head| <= 1
    ensures FirstWithKey(head + rest, MetricKey, id)
            == if head != [] && head[0].wellId == id then Some(head[0]) else FirstWithKey(rest, MetricKey, id)
  {
    if head != [] {
      assert (head + rest)[1..] == rest;
    } else {
      assert head + rest == rest;
    }
  }

  // ---------------------------------------------------------------------------
  // Saving

  datatype LatLng = LatLng(lat: Option<real>, lng: Option<real>)

  /** The readings an incoming well may carry for the alert email. */
  datatype IncomingData = IncomingData(ph: Option<real>, tds: Option<real>, temperature: Option<real>,
                                       waterLevel: Option<real>, lastUpdated: Option<string>)

  /** A well in the request body; absent fields are `None`. */
  datatype IncomingWell = IncomingWell(
    id: Option<string>, name: Option<string>, status: Option<string>,
    location: Option<LatLng>, lat: Option<real>, lng: Option<real>,
    panchayatName: Option<string>, panchayatNameAlt: Option<string>,
    villageName: Option<string>, village: Option<string>,
    data: Option<IncomingData>)

  /** The request body: a `wells` array, or the fields of one well, and the
      target user an administrator may name. */
  datatype Body = Body(wells: Option<seq<IncomingWell>>, single: IncomingWell, userId: Option<string>)

  /** The row handed to the upsert. */
  datatype UpsertRow = UpsertRow(
    id: Option<string>, userId: string, name: Option<string>,
    panchayatName: Option<string>, villageName: Option<string>,
    lat: Option<real>, lng: Option<real>, status: string)

  datatype AlertMetrics = AlertMetrics(ph: Option<real>, tds: Option<real>, temperature: Option<real>,
                                       waterLevel: Option<real>, recordedAt: string)

  /** An alert email the route asks the mailer to send. */
  datatype AlertRequest = AlertRequest(to: string, well: UpsertRow, metrics: AlertMetrics, previousStatus: Option<string>)

  /** The wells of a request: the `wells` array when there is one, else the
      body itself when it names a well, else none. */
  function IncomingWells(body: Body): (ws: seq<IncomingWell>)
    ensures body.wells.Some? ==> ws == body.wells.value
    ensures body.wells.None? && Truthy(body.single.name) ==> ws == [body.single]
    ensures body.wells.None? && !Truthy(body.single.name) ==> ws == []
  {
    if body.wells.Some? then body.wells.value
    else if Truthy(body.single.name) then [body.single]
    else []
  }

  /** The user the wells are saved for: the body's `user_id` when an
      administrator gives one, else the session's user. */
  function ActingUser(isAdmin: bool, sessionUser: string, body: Body): (u: string)
    ensures isAdmin && Truthy(body.userId) ==> u == body.userId.value
    ensures !(isAdmin && Truthy(body.userId)) ==> u == sessionUser
  {
    if isAdmin && Truthy(body.userId) then body.userId.value else sessionUser
  }

  /** The coordinates: `location` first, then the flat fields, else none. */
  function Latitude(w: IncomingWell): (r: Option<real>)
    ensures r.Some? <==> (w.location.Some? && w.location.value.lat.Some?) || w.lat.Some?
    ensures w.location.Some? && w.location.value.lat.Some? ==> r == w.location.value.lat
    ensures !(w.location.Some? && w.location.value.lat.Some?) ==> r == w.lat
  {
    var candidates := [if w.location.Some? then w.location.value.lat else None, w.lat];
    assert candidates[1] == w.lat;
    Coalesce(candidates)
  }

  function Longitude(w: IncomingWell): (r: Option<real>)
    ensures r.Some? <==> (w.location.Some? && w.location.value.lng.Some?) || w.lng.Some?
    ensures w.location.Some? && w.location.value.lng.Some? ==> r == w.location.value.lng
    ensures !(w.location.Some? && w.location.value.lng.Some?) ==> r == w.lng
  {
    var candidates := [if w.location.Some? then w.location.value.lng else None, w.lng];
    assert candidates[1] == w.lng;
    Coalesce(candidates)
  }

  /** The status saved: the incoming one, or "active" when it is empty. */
  function NewStatus(w: IncomingWell): (r: string)
    ensures r != ""
    ensures Truthy(w.status) ==> r == w.status.value
    ensures !Truthy(w.status) ==> r == "active"
  {
    OrElse(w.status, "active")
  }

  /** The row saved for an incoming well. */
  function RowOf(w: IncomingWell, actingUser: string, ownerLocation: Option<string>): (r: UpsertRow)
    ensures r.status != "" && (Truthy(w.status) ==> r.status == w.status.value)
    ensures r.lat.Some? <==> (w.location.Some? && w.location.value.lat.Some?) || w.lat.Some?
    ensures w.location.Some? && w.location.value.lat.Some? ==> r.lat == w.location.value.lat
    ensures r.id == w.id && r.userId == actingUser && r.name == w.name
    ensures r.lat == Latitude(w) && r.lng == Longitude(w)
    ensures Truthy(w.panchayatName) ==> r.panchayatName == w.panchayatName
    ensures !Truthy(w.panchayatName) ==> r.panchayatName == (if Truthy(w.panchayatNameAlt) then w.panchayatNameAlt else None)
    ensures Truthy(w.villageName) ==> r.villageName == w.villageName
    ensures !Truthy(w.villageName) && Truthy(w.village) ==> r.villageName == w.village
    ensures !Truthy(w.villageName) && !Truthy(w.village) ==>
              r.villageName == (if Truthy(ownerLocation) then ownerLocation else None)
    ensures r.villageName.None? <==> !Truthy(w.villageName) && !Truthy(w.village) && !Truthy(ownerLocation)
  {
    var villages := [w.villageName, w.village, ownerLocation];
    assert villages[0] == w.villageName && villages[1] == w.village && villages[2] == ownerLocation;
    var panchayats := [w.panchayatName, w.panchayatNameAlt];
    assert panchayats[0] == w.panchayatName && panchayats[1] == w.panchayatNameAlt;
    UpsertRow(
      w.id, actingUser, w.name,
      FirstTruthy(panchayats),
      FirstTruthy(villages),
      Latitude(w), Longitude(w), NewStatus(w))
  }

  /** The alert trigger: a warning or critical status that differs from the
      status stored before; a new well has no stored status. */
  predicate ShouldAlert(newStatus: string, previous: Option<string>)
    ensures previous == Some(newStatus) ==> !ShouldAlert(newStatus, previous)
    ensures newStatus != "warning" && newStatus != "critical" ==> !ShouldAlert(newStatus, previous)
    ensures previous.None? && (newStatus == "warning" || newStatus == "critical") ==> ShouldAlert(newStatus, previous)
    ensures previous.Some? && previous.value != newStatus && (newStatus == "warning" || newStatus == "critical")
            ==> ShouldAlert(newStatus, previous)
  {
    (newStatus == "warning" || newStatus == "critical") && previous != Some(newStatus)
  }

  /** The status stored before the upsert: looked up only when the well has
      an id, and only a stored row gives one. */
  function PreviousStatus(stored: map<string, Option<string>>, id: Option<string>): (r: Option<string>)
    ensures !Truthy(id) ==> r.None?
    ensures Truthy(id) && id.value !in stored ==> r.None?
    ensures r.Some? ==> Truthy(id) && id.value in stored && stored[id.value] == r
  {
    if Truthy(id) && id.value in stored then stored[id.value] else None
  }

  /** The state of the saving loop: the stored statuses by id, the rows saved
      so far and the alert emails requested so far. */
  datatype SaveState = SaveState(stored: map<string, Option<string>>, saved: seq<UpsertRow>, alerts: seq<AlertRequest>)

  /** The environment of one request: the acting user, the acting user's
      location and e-mail address, the upsert outcome and the current time
      as ISO text. */
  datatype SaveContext = SaveContext(
    actingUser: string, ownerLocation: Option<string>, ownerEmail: Option<string>,
    upsertOk: UpsertRow -> bool, nowIso: string)

  /** The alert for a saved row: to the owner's address, with the readings
      the incoming well carries and their time, or the current time. */
  function AlertFor(ctx: SaveContext, w: IncomingWell, row: UpsertRow, previous: Option<string>): (a: AlertRequest)
    requires Truthy(ctx.ownerEmail)
    ensures a.to == ctx.ownerEmail.value && a.to != "" && a.well == row && a.previousStatus == previous
    ensures w.data.Some? ==> a.metrics.ph == w.data.value.ph && a.metrics.tds == w.data.value.tds
                             && a.metrics.temperature == w.data.value.temperature
                             && a.metrics.waterLevel == w.data.value.waterLevel
    ensures w.data.None? ==> a.metrics.ph.None? && a.metrics.tds.None? && a.metrics.temperature.None?
                             && a.metrics.waterLevel.None? && a.metrics.recordedAt == ctx.nowIso
    ensures w.data.Some? && Truthy(w.data.value.lastUpdated) ==> a.metrics.recordedAt == w.data.value.lastUpdated.value
    ensures w.data.Some? && !Truthy(w.data.value.lastUpdated) ==> a.metrics.recordedAt == ctx.nowIso
  {
    var d := if w.data.Some? then w.data.value else IncomingData(None, None, None, None, None);
    AlertRequest(ctx.ownerEmail.value, row,
      AlertMetrics(d.ph, d.tds, d.temperature, d.waterLevel, OrElse(d.lastUpdated, ctx.nowIso)),
      previous)
  }

  /** One turn of the loop: a failed upsert changes nothing; a successful
      one records the row, stores the new status under the id, and requests
      an alert when the trigger holds and the owner has an e-mail address. */
  function SaveStep(ctx: SaveContext, s: SaveState, w: IncomingWell): (r: SaveState)
    ensures var row := RowOf(w, ctx.actingUser, ctx.ownerLocation);
      && (!ctx.upsertOk(row) ==> r == s)
      && (ctx.upsertOk(row) ==> r.saved == s.saved + [row])
      && (ctx.upsertOk(row) && Truthy(w.id) ==> r.stored == s.stored[w.id.value := Some(row.status)])
      && (!Truthy(w.id) ==> r.stored == s.stored)
      && |s.alerts| <= |r.alerts| <= |s.alerts| + 1 && r.alerts[..|s.alerts|] == s.alerts
      && (|r.alerts| > |s.alerts| <==>
            ctx.upsertOk(row) && ShouldAlert(row.status, PreviousStatus(s.stored, w.id)) && Truthy(ctx.ownerEmail))
      && (|r.alerts| > |s.alerts| ==>
            Truthy(ctx.ownerEmail) && r.alerts[|s.alerts|] == AlertFor(ctx, w, row, PreviousStatus(s.stored, w.id)))
  {
    var row := RowOf(w, ctx.actingUser, ctx.ownerLocation);
    var previous := PreviousStatus(s.stored, w.id);
    if !ctx.upsertOk(row) then s
    else
      SaveState(
        if Truthy(w.id) then s.stored[w.id.value := Some(row.status)] else s.stored,
        s.saved + [row],
        s.alerts + (if ShouldAlert(row.status, previous) && Truthy(ctx.ownerEmail)
                    then [AlertFor(ctx, w, row, previous)] else []))
  }

  /** The loop over the incoming wells, from the first to the last. */
  function SaveAll(ctx: SaveContext, s: SaveState, ws: seq<IncomingWell>): SaveState {
    if ws == [] then s else SaveStep(ctx, SaveAll(ctx, s, ws[..|ws| - 1]), ws[|ws| - 1])
  }

  /** The loop only appends to the saved rows and the alerts, and never
      forgets a stored id. */
  lemma {:induction false} SaveAllExtends(ctx: SaveContext, s: SaveState, ws: seq<IncomingWell>)
    ensures var r := SaveAll(ctx, s, ws);
      && |s.saved| <= |r.saved| <= |s.saved| + |ws| && r.saved[..|s.saved|] == s.saved
      && |s.alerts| <= |r.alerts| <= |s.alerts| + |ws| && r.alerts[..|s.alerts|] == s.alerts
      && s.stored.Keys <= r.stored.Keys
  {
    if ws != [] {
      var init := ws[..|ws| - 1];
      SaveAllExtends(ctx, s, init);
      var m := SaveAll(ctx, s, init);
      var r := SaveStep(ctx, m, ws[|ws| - 1]);
      assert r.saved[..|m.saved|] == m.saved;
      PrefixOfPrefix(r.saved, m.saved, s.saved);
      PrefixOfPrefix(r.alerts, m.alerts, s.alerts);
    }
  }

  lemma PrefixOfPrefix<T>(c: seq<T>, b: seq<T>, a: seq<T>)
    requires |a| <= |b| <= |c| && c[..|b|] == b && b[..|a|] == a
    ensures c[..|a|] == a
  {
    assert c[..|a|] == c[..|b|][..|a|];
  }

  /** A request whose every upsert fails changes nothing. */
  lemma {:induction false} SaveAllFailed(ctx: SaveContext, s: SaveState, ws: seq<IncomingWell>)
    requires forall i :: 0 <= i < |ws| ==> !ctx.upsertOk(RowOf(ws[i], ctx.actingUser, ctx.ownerLocation))
    ensures SaveAll(ctx, s, ws) == s
  {
    if ws != [] {
      var init := ws[..|ws| - 1];
      assert forall i :: 0 <= i < |init| ==> init[i] == ws[i];
      SaveAllFailed(ctx, s, init);
    }
  }

  /** The saving loop of the route. The count it reports is the number of
      incoming wells, whatever became of their upserts. */
  method SaveWells(ctx: SaveContext, stored: map<string, Option<string>>, body: Body)
    returns (count: nat, result: SaveState)
    ensures count == |IncomingWells(body)|
    ensures result == SaveAll(ctx, SaveState(stored, [], []), IncomingWells(body))
  {
    var incoming := IncomingWells(body);
    result := SaveState(stored, [], []);
    if |incoming| == 0 {
      return 0, result;
    }
    for i := 0 to |incoming|
      invariant result == SaveAll(ctx, SaveState(stored, [], []), incoming[..i])
    {
      assert incoming[..i + 1][..i] == incoming[..i];
      ghost var before := result;
      var w := incoming[i];
      var row := RowOf(w, ctx.actingUser, ctx.ownerLocation);
      var previous: Option<string> := None;
      if Truthy(w.id) && w.id.value in result.stored {
        previous := result.stored[w.id.value];
      }
      if ctx.upsertOk(row) {
        var alerts := result.alerts;
        if ShouldAlert(row.status, previous) && Truthy(ctx.ownerEmail) {
          alerts := alerts + [AlertFor(ctx, w, row, previous)];
        }
        var st := result.stored;
        if Truthy(w.id) {
          st := st[w.id.value := Some(row.status)];
        }
        result := SaveState(st, result.saved + [row], alerts);
      }
      assert previous == PreviousStatus(before.stored, w.id);
      assert result == SaveStep(ctx, before, w);
    }
    assert incoming[..|incoming|] == incoming;
    count := |incoming|;
  }

  /** An alert the route may request: for a saved warning or critical row
      whose status differs from the previous one, to the owner's address. */
  predicate AlertValid(ctx: SaveContext, a: AlertRequest) {
    && (a.well.status == "warning" || a.well.status == "critical")
    && a.previousStatus != Some(a.well.status)
    && Truthy(ctx.ownerEmail) && a.to == ctx.ownerEmail.value
  }

  /** At most one saved row and one alert per incoming well, and every alert
      is one the trigger allows. */
  lemma {:induction false} SaveAllShape(ctx: SaveContext, s: SaveState, ws: seq<IncomingWell>)
    requires forall i :: 0 <= i < |s.alerts| ==> AlertValid(ctx, s.alerts[i])
    ensures var r := SaveAll(ctx, s, ws);
      && |s.saved| <= |r.saved| <= |s.saved| + |ws|
      && |r.alerts| - |s.alerts| <= |r.saved| - |s.saved|
      && forall i :: 0 <= i < |r.alerts| ==> AlertValid(ctx, r.alerts[i])
  {
    if ws != [] {
      SaveAllShape(ctx, s, ws[..|ws| - 1]);
      SaveStepShape(ctx, SaveAll(ctx, s, ws[..|ws| - 1]), ws[|ws| - 1]);
    }
  }

  lemma SaveStepShape(ctx: SaveContext, s: SaveState, w: IncomingWell)
    requires forall i :: 0 <= i < |s.alerts| ==> AlertValid(ctx, s.alerts[i])
    ensures var r := SaveStep(ctx, s, w);
      && |s.saved| <= |r.saved| <= |s.saved| + 1
      && |r.alerts| - |s.alerts| <= |r.saved| - |s.saved|
      && forall i :: 0 <= i < |r.alerts| ==> AlertValid(ctx, r.alerts[i])
  {
  }

  /** The same warning or critical well sent twice in one request is alerted
      about at most once: the first save stores the status the second sees. */
  lemma RepeatedWellAlertsOnce(ctx: SaveContext, stored: map<string, Option<string>>, w: IncomingWell)
    requires Truthy(w.id)
    ensures |SaveAll(ctx, SaveState(stored, [], []), [w, w]).alerts| <= 1
  {
    var s0 := SaveState(stored, [], []);
    assert [w, w][..1] == [w];
    assert [w][..0] == [];
    var s1 := SaveStep(ctx, s0, w);
    assert SaveAll(ctx, s0, [w]) == s1;
    var s2 := SaveStep(ctx, s1, w);
    assert SaveAll(ctx, s0, [w, w]) == s2;
    var row := RowOf(w, ctx.actingUser, ctx.ownerLocation);
    if ctx.upsertOk(row) {
      assert PreviousStatus(s1.stored, w.id) == Some(row.status);
      assert |s2.alerts| == |s1.alerts|;
    } else {
      assert s1 == s0;
    }
  }
}
