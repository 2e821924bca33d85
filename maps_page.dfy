/** The map page: turning the rows of the wells listing into the page's well
    records, with a fallback chain and a default per reading, and the page
    state after loading. */
module MapsPage {
  import opened Common

  /** A row of the wells listing as the page receives it; absent or null
      fields are `None`. */
  datatype ApiRow = ApiRow(
    id: string, name: string,
    villageName: Option<string>, location: Option<string>,
    panchayatName: Option<string>, contactPhone: Option<string>, phone: Option<string>,
    lat: Option<real>, lng: Option<real>, status: Option<string>,
    latestMetric: Option<MetricRow>,
    ph: Option<real>, tds: Option<real>, temperature: Option<real>, waterLevel: Option<real>,
    lastTs: Option<string>)

  /** When a well was last updated: the time in a timestamp text, or the
      moment of loading. */
  datatype Stamp = At(text: string) | LoadTime

  datatype Readings = Readings(ph: real, tds: real, temperature: real, waterLevel: real,
                               turbidity: Option<real>, lastUpdated: Stamp)

  datatype WellData = WellData(
    id: string, name: string,
    village: Option<string>, panchayatName: Option<string>, contactNumber: Option<string>,
    lat: Option<real>, lng: Option<real>, status: string,
    data: Readings, history: seq<Readings>)

  const DefaultPh: real := 7.2
  const DefaultTds: real := 360.0
  const DefaultTemperature: real := 26.1
  const DefaultWaterLevel: real := 42.0

  /** A reading: the latest metric's value, else the row's, else the default. */
  function Pick(fromMetric: Option<real>, fromRow: Option<real>, dflt: real): (v: real)
    ensures fromMetric.Some? ==> v == fromMetric.value
    ensures fromMetric.None? && fromRow.Some? ==> v == fromRow.value
    ensures fromMetric.None? && fromRow.None? ==> v == dflt
  {
    var c := Coalesce([fromMetric, fromRow]);
    assert [fromMetric, fromRow][1] == fromRow;
    if c.Some? then c.value else dflt
  }

  /** The timestamp: the metric's when it is non-empty, else the row's last
      timestamp when non-empty, else the time of loading. */
  function LastUpdated(metric: Option<MetricRow>, lastTs: Option<string>): (s: Stamp)
    ensures metric.Some? && Truthy(metric.value.ts) ==> s == At(metric.value.ts.value)
    ensures !(metric.Some? && Truthy(metric.value.ts)) && Truthy(lastTs) ==> s == At(lastTs.value)
    ensures s == LoadTime <==> !(metric.Some? && Truthy(metric.value.ts)) && !Truthy(lastTs)
  {
    var t := FirstTruthy([if metric.Some? then metric.value.ts else None, lastTs]);
    assert [if metric.Some? then metric.value.ts else None, lastTs][1] == lastTs;
    if t.Some? then At(t.value) else LoadTime
  }

  /** The page's record for one row. The latest metric supplies each reading
      first, then the row, then a default (pH 7.2, TDS 360, temperature 26.1,
      water level 42); turbidity comes from the latest metric alone. The
      village is the row's village name, then its location; the status
      defaults to "active"; the history starts empty. */
  function Transform(row: ApiRow): (w: WellData)
    ensures w.id == row.id && w.name == row.name && w.lat == row.lat && w.lng == row.lng
    ensures Truthy(row.status) ==> w.status == row.status.value
    ensures !Truthy(row.status) ==> w.status == "active"
    ensures w.village.None? <==> !Truthy(row.villageName) && !Truthy(row.location)
    ensures Truthy(row.villageName) ==> w.village == row.villageName
    ensures !Truthy(row.villageName) && Truthy(row.location) ==> w.village == row.location
    ensures w.panchayatName == if Truthy(row.panchayatName) then row.panchayatName else None
    ensures Truthy(row.contactPhone) ==> w.contactNumber == row.contactPhone
    ensures !Truthy(row.contactPhone) ==> w.contactNumber == if Truthy(row.phone) then row.phone else None
    ensures w.data.lastUpdated == LastUpdated(row.latestMetric, row.lastTs)
    ensures w.data.turbidity == if row.latestMetric.Some? then row.latestMetric.value.turbidity else None
    ensures w.history == []
  {
    var m := row.latestMetric;
    var mPh := if m.Some? then m.value.ph else None;
    var mTds := if m.Some? then m.value.tds else None;
    var mTemp := if m.Some? then m.value.temperature else None;
    var mLevel := if m.Some? then m.value.waterLevel else None;
    var villages := [row.villageName, row.location];
    assert villages[1] == row.location;
    var phones := [row.contactPhone, row.phone];
    assert phones[1] == row.phone;
    WellData(
      row.id, row.name,
      FirstTruthy(villages),
      FirstTruthy([row.panchayatName]),
      FirstTruthy(phones),
      row.lat, row.lng,
      OrElse(row.status, "active"),
      Readings(
        Pick(mPh, row.ph, DefaultPh),
        Pick(mTds, row.tds, DefaultTds),
        Pick(mTemp, row.temperature, DefaultTemperature),
        Pick(mLevel, row.waterLevel, DefaultWaterLevel),
        if m.Some? then m.value.turbidity else None,
        LastUpdated(m, row.lastTs)),
      [])
  }

  /** Each reading comes from the latest metric when it has one, else from
      the row when it has one, and falls back to its default only when
      neither has it. */
  lemma DefaultsOnlyWhenMissing(row: ApiRow)
    ensures var w := Transform(row);
      var noMetric := row.latestMetric.None?;
      && (row.ph.None? && (noMetric || row.latestMetric.value.ph.None?) ==> w.data.ph == DefaultPh)
      && (row.tds.None? && (noMetric || row.latestMetric.value.tds.None?) ==> w.data.tds == DefaultTds)
      && (row.temperature.None? && (noMetric || row.latestMetric.value.temperature.None?) ==> w.data.temperature == DefaultTemperature)
      && (row.waterLevel.None? && (noMetric || row.latestMetric.value.waterLevel.None?) ==> w.data.waterLevel == DefaultWaterLevel)
      && (!noMetric && row.latestMetric.value.ph.Some? ==> w.data.ph == row.latestMetric.value.ph.value)
      && (!noMetric && row.latestMetric.value.tds.Some? ==> w.data.tds == row.latestMetric.value.tds.value)
      && (!noMetric && row.latestMetric.value.temperature.Some? ==> w.data.temperature == row.latestMetric.value.temperature.value)
      && (!noMetric && row.latestMetric.value.waterLevel.Some? ==> w.data.waterLevel == row.latestMetric.value.waterLevel.value)
      && ((noMetric || row.latestMetric.value.ph.None?) && row.ph.Some? ==> w.data.ph == row.ph.value)
      && ((noMetric || row.latestMetric.value.tds.None?) && row.tds.Some? ==> w.data.tds == row.tds.value)
      && ((noMetric || row.latestMetric.value.temperature.None?) && row.temperature.Some? ==> w.data.temperature == row.temperature.value)
      && ((noMetric || row.latestMetric.value.waterLevel.None?) && row.waterLevel.Some? ==> w.data.waterLevel == row.waterLevel.value)
  {
  }

  /** The outcome of the wells request. `wells` is `None` when the response
      has no well list. */
  datatype WellsFetch = FetchThrew | NotOk | Fetched(wells: Option<seq<ApiRow>>)

  datatype PageState = PageState(wells: seq<WellData>, selected: Option<WellData>)

  /** The records for the fetched rows, one per row and in order. */
  function TransformAll(rows: seq<ApiRow>): (ws: seq<WellData>)
    ensures |ws| == |rows| && forall i :: 0 <= i < |rows| ==> ws[i] == Transform(rows[i])
  {
    seq(|rows|, i requires 0 <= i < |rows| => Transform(rows[i]))
  }

  /** The page state after loading. Without a signed-in user, and when the
      request throws, the page shows no wells and selects none; a response
      that is not ok leaves the page as it was; otherwise the page shows one
      record per row and selects the first. A load whose page has gone
      (`cancelled`) changes nothing. */
  function Load(current: PageState, signedIn: bool, fetched: WellsFetch, cancelled: bool): (s: PageState)
    ensures cancelled ==> s == current
    ensures !cancelled && (!signedIn || fetched.FetchThrew?) ==> s == PageState([], None)
    ensures !cancelled && signedIn && fetched.NotOk? ==> s == current
    ensures !cancelled && signedIn && fetched.Fetched? ==>
              var rows := if fetched.wells.Some? then fetched.wells.value else [];
              && |s.wells| == |rows|
              && (forall i :: 0 <= i < |rows| ==> s.wells[i] == Transform(rows[i]))
              && (s.selected.None? <==> rows == [])
              && (rows != [] ==> s.selected == Some(Transform(rows[0])))
  {
    if cancelled then current
    else if !signedIn then PageState([], None)
    else match fetched
      case FetchThrew => PageState([], None)
      case NotOk => current
      case Fetched(wells) =>
        var ws := TransformAll(if wells.Some? then wells.value else []);
        PageState(ws, if ws == [] then None else Some(ws[0]))
  }

  /** The selected well, when there is one, is one of the wells shown, as
      long as that held before the load. */
  lemma SelectedIsShown(current: PageState, signedIn: bool, fetched: WellsFetch, cancelled: bool)
    requires current.selected.Some? ==> current.selected.value in current.wells
    ensures var s := Load(current, signedIn, fetched, cancelled);
      s.selected.Some? ==> s.selected.value in s.wells
  {
  }
}
