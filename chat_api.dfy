/** The chat route: the last user message of a request, the latest reading
    per well, the critical-well classifier and its answer text, the history
    limit, the list of candidate models and the reply tidying `neatFormat`. */
module ChatApi {
  import opened Common

  // ---------------------------------------------------------------------------
  // Last user message

  /** A message of the request; `content` is `None` when it is missing. */
  datatype InMessage = InMessage(role: string, content: Option<string>)

  /** The messages whose role is "user", in order. */
  function UserMessages(ms: seq<InMessage>): (us: seq<InMessage>)
    ensures |us| <= |ms|
    ensures forall i :: 0 <= i < |us| ==> us[i].role == "user"
  {
    if ms == [] then []
    else (if ms[0].role == "user" then [ms[0]] else []) + UserMessages(ms[1..])
  }

  /** The content of the last user message, or "" when there is none or its
      content is missing or empty. */
  function LastUser(ms: seq<InMessage>): (text: string)
    ensures UserMessages(ms) == [] ==> text == ""
    ensures UserMessages(ms) != [] ==> text == OrElse(UserMessages(ms)[|UserMessages(ms)| - 1].content, "")
  {
    var us := UserMessages(ms);
    if us == [] then "" else OrElse(us[|us| - 1].content, "")
  }

  lemma {:induction false} UserMessagesAppend(a: seq<InMessage>, b: seq<InMessage>)
    ensures UserMessages(a + b) == UserMessages(a) + UserMessages(b)
  {
    if a == [] {
      assert a + b == b;
    } else {
      var h := if a[0].role == "user" then [a[0]] else [];
      assert (a + b)[0] == a[0] && (a + b)[1..] == a[1..] + b;
      assert UserMessages(a + b) == h + UserMessages(a[1..] + b);
      UserMessagesAppend(a[1..], b);
      assert h + (UserMessages(a[1..]) + UserMessages(b)) == (h + UserMessages(a[1..])) + UserMessages(b);
    }
  }

  /** A new user message becomes the last user message; a message with any
      other role leaves it unchanged. */
  lemma LastUserAfter(ms: seq<InMessage>, m: InMessage)
    ensures m.role == "user" ==> LastUser(ms + [m]) == OrElse(m.content, "")
    ensures m.role != "user" ==> LastUser(ms + [m]) == LastUser(ms)
  {
    UserMessagesAppend(ms, [m]);
    assert UserMessages([m]) == if m.role == "user" then [m] else [];
    if m.role != "user" {
      assert UserMessages(ms) + [] == UserMessages(ms);
    }
  }

  // ---------------------------------------------------------------------------
  // Latest reading per well

  /** The metric query returns the newest 1000 readings of the listed wells. */
  const MetricRowLimit: nat := 1000

  function MetricKey(m: MetricRow): string { m.wellId }

  /** The latest reading of each well among the rows the query returned. */
  method LatestByWell(wellCount: nat, recent: seq<MetricRow>) returns (byWell: map<string, MetricRow>)
    ensures wellCount == 0 ==> byWell == map[]
    ensures wellCount > 0 ==>
              forall id :: (if id in byWell then Some(byWell[id]) else None)
                             == FirstWithKey(recent[..if |recent| <= MetricRowLimit then |recent| else MetricRowLimit], MetricKey, id)
  {
    byWell := map[];
    if wellCount > 0 {
      var rows := recent[..if |recent| <= MetricRowLimit then |recent| else MetricRowLimit];
      byWell := FirstPerKey(rows, MetricKey);
      forall id
        ensures (if id in byWell then Some(byWell[id]) else None) == FirstWithKey(rows, MetricKey, id)
      {
        FirstPerKeyLookup(rows, MetricKey, byWell, id);
      }
    }
  }

  // ---------------------------------------------------------------------------
  // Critical wells

  datatype ChatWell = ChatWell(id: string, name: Option<string>)

  /** Why a well is critical, with the value that shows it. */
  datatype Reason = HighTds(tds: real) | AbnormalPh(ph: real) | LowWaterLevel(level: real)

  datatype CriticalWell = CriticalWell(name: string, reasons: seq<Reason>, metrics: MetricRow)
  datatype EvaluatedWell = EvaluatedWell(name: string, metrics: Option<MetricRow>)

  /** The name shown for a well: its own, or "Well <id>" when it has none. */
  function WellName(w: ChatWell): (n: string)
    ensures n != ""
    ensures Truthy(w.name) ==> n == w.name.value
    ensures !Truthy(w.name) ==> n == "Well " + w.id
  {
    OrElse(w.name, "Well " + w.id)
  }

  /** The reasons a reading gives, in the order TDS, pH, water level: TDS
      above 1000, pH below 6.5 or above 8.5, water level below 2; a missing
      value gives no reason. */
  function Reasons(m: MetricRow): (rs: seq<Reason>)
    ensures |rs| <= 3
  {
    TdsReason(m) + PhReason(m) + LevelReason(m)
  }

  function TdsReason(m: MetricRow): seq<Reason> {
    if m.tds.Some? && m.tds.value > 1000.0 then [HighTds(m.tds.value)] else []
  }

  function PhReason(m: MetricRow): seq<Reason> {
    if m.ph.Some? && (m.ph.value < 6.5 || m.ph.value > 8.5) then [AbnormalPh(m.ph.value)] else []
  }

  function LevelReason(m: MetricRow): seq<Reason> {
    if m.waterLevel.Some? && m.waterLevel.value < 2.0 then [LowWaterLevel(m.waterLevel.value)] else []
  }

  /** Each reason is given exactly when its threshold is crossed, with the
      value that crosses it, and the reasons come in the order TDS, pH,
      water level. */
  lemma ReasonsExact(m: MetricRow)
    ensures forall v :: HighTds(v) in Reasons(m) <==> m.tds == Some(v) && v > 1000.0
    ensures forall v :: AbnormalPh(v) in Reasons(m) <==> m.ph == Some(v) && (v < 6.5 || v > 8.5)
    ensures forall v :: LowWaterLevel(v) in Reasons(m) <==> m.waterLevel == Some(v) && v < 2.0
    ensures forall i, j :: 0 <= i < j < |Reasons(m)| ==> ReasonRank(Reasons(m)[i]) < ReasonRank(Reasons(m)[j])
  {
    var t, p, l := TdsReason(m), PhReason(m), LevelReason(m);
    assert forall r :: r in Reasons(m) <==> r in t || r in p || r in l;
    assert forall r :: r in t ==> r.HighTds?;
    assert forall r :: r in p ==> r.AbnormalPh?;
    assert forall r :: r in l ==> r.LowWaterLevel?;
  }

  function ReasonRank(r: Reason): nat {
    match r
    case HighTds(_) => 0
    case AbnormalPh(_) => 1
    case LowWaterLevel(_) => 2
  }

  /** A well is critical when it has a reading that gives a reason. */
  predicate IsCritical(w: ChatWell, byWell: map<string, MetricRow>) {
    w.id in byWell && Reasons(byWell[w.id]) != []
  }

  function CriticalEntry(w: ChatWell, byWell: map<string, MetricRow>): CriticalWell
    requires w.id in byWell
  {
    CriticalWell(WellName(w), Reasons(byWell[w.id]), byWell[w.id])
  }

  /** The critical wells in well order. */
  function CriticalWells(wells: seq<ChatWell>, byWell: map<string, MetricRow>): (cs: seq<CriticalWell>)
    ensures |cs| <= |wells|
    ensures forall i :: 0 <= i < |cs| ==> cs[i].reasons != [] && cs[i].reasons == Reasons(cs[i].metrics)
  {
    if wells == [] then []
    else
      var w := wells[|wells| - 1];
      CriticalWells(wells[..|wells| - 1], byWell) + (if IsCritical(w, byWell) then [CriticalEntry(w, byWell)] else [])
  }

  /** The classification loop: every well is evaluated, with or without a
      reading; the critical ones are collected in order. */
  method ClassifyWells(wells: seq<ChatWell>, byWell: map<string, MetricRow>)
    returns (critical: seq<CriticalWell>, evaluated: seq<EvaluatedWell>)
    ensures critical == CriticalWells(wells, byWell)
    ensures |evaluated| == |wells|
    ensures forall i :: 0 <= i < |wells| ==>
              evaluated[i] == EvaluatedWell(WellName(wells[i]), if wells[i].id in byWell then Some(byWell[wells[i].id]) else None)
  {
    critical := [];
    evaluated := [];
    for i := 0 to |wells|
      invariant critical == CriticalWells(wells[..i], byWell)
      invariant |evaluated| == i
      invariant forall j :: 0 <= j < i ==>
                  evaluated[j] == EvaluatedWell(WellName(wells[j]), if wells[j].id in byWell then Some(byWell[wells[j].id]) else None)
    {
      assert wells[..i + 1][..i] == wells[..i];
      var w := wells[i];
      var name := WellName(w);
      if w.id !in byWell {
        evaluated := evaluated + [EvaluatedWell(name, None)];
        continue;
      }
      var m := byWell[w.id];
      var reasons := Reasons(m);
      if |reasons| > 0 {
        critical := critical + [CriticalWell(name, reasons, m)];
      }
      evaluated := evaluated + [EvaluatedWell(name, Some(m))];
    }
    assert wells[..|wells|] == wells;
  }

  /** The critical wells of two lists one after the other are those of the
      first list followed by those of the second: the report keeps the order
      of the wells and lists each critical well once for each time it occurs. */
  lemma {:induction false} CriticalWellsAppend(a: seq<ChatWell>, b: seq<ChatWell>, byWell: map<string, MetricRow>)
    ensures CriticalWells(a + b, byWell) == CriticalWells(a, byWell) + CriticalWells(b, byWell)
  {
    if b == [] {
      assert a + b == a;
    } else {
      var init := b[..|b| - 1];
      CriticalWellsAppend(a, init, byWell);
      assert (a + b)[..|a + b| - 1] == a + init;
      assert (a + b)[|a + b| - 1] == b[|b| - 1];
    }
  }

  /** A single well is reported iff it is critical, with its own entry. */
  lemma CriticalWellsOne(w: ChatWell, byWell: map<string, MetricRow>)
    ensures CriticalWells([w], byWell) == if IsCritical(w, byWell) then [CriticalEntry(w, byWell)] else []
  {
    assert [w][..0] == [];
  }

  /** The critical list holds exactly the critical wells, so it is never
      longer than the list of evaluated wells; their order and multiplicity
      follow from `CriticalWellsAppend` and `CriticalWellsOne`. */
  lemma {:induction false} CriticalWellsExact(wells: seq<ChatWell>, byWell: map<string, MetricRow>)
    ensures |CriticalWells(wells, byWell)| <= |wells|
    ensures forall i :: 0 <= i < |wells| && IsCritical(wells[i], byWell) ==>
              CriticalEntry(wells[i], byWell) in CriticalWells(wells, byWell)
    ensures forall c :: c in CriticalWells(wells, byWell) ==>
              exists i :: 0 <= i < |wells| && IsCritical(wells[i], byWell) && c == CriticalEntry(wells[i], byWell)
  {
    if wells != [] {
      var init := wells[..|wells| - 1];
      CriticalWellsExact(init, byWell);
      forall i | 0 <= i < |wells| - 1
        ensures wells[i] == init[i]
      {
      }
    }
  }

  // ---------------------------------------------------------------------------
  // Answer text

  /** JavaScript's number-to-text conversions: `String(x)`, `x.toFixed(1)`
      and `x.toFixed(2)`. */
  datatype NumberText = NumberText(plain: real -> string, fixed1: real -> string, fixed2: real -> string)

  const Dash: string := "—"

  function ReasonText(f: NumberText, r: Reason): string {
    match r
    case HighTds(v) => "High TDS (" + f.plain(v) + " ppm)"
    case AbnormalPh(v) => "Abnormal pH (" + f.fixed2(v) + ")"
    case LowWaterLevel(v) => "Low water level (" + f.fixed2(v) + " m)"
  }

  function ReasonTexts(f: NumberText, rs: seq<Reason>): (ts: seq<string>)
    ensures |ts| == |rs| && forall i :: 0 <= i < |rs| ==> ts[i] == ReasonText(f, rs[i])
  {
    seq(|rs|, i requires 0 <= i < |rs| => ReasonText(f, rs[i]))
  }

  /** The six lines of the `k`-th (from 0) critical well. */
  function EntryLines(f: NumberText, k: nat, c: CriticalWell): (ls: seq<string>)
    ensures |ls| == 6
    ensures ls[0] == DecimalText(k + 1) + ". " + c.name
    ensures ls[1] == "   Reasons: " + Join(ReasonTexts(f, c.reasons), "; ")
    ensures c.metrics.tds.Some? ==> ls[2] == "   TDS: " + f.plain(c.metrics.tds.value) + " ppm"
    ensures c.metrics.tds.None? ==> ls[2] == "   TDS: " + Dash
    ensures c.metrics.temperature.Some? ==> ls[3] == "   Temp: " + f.fixed1(c.metrics.temperature.value) + "°C"
    ensures c.metrics.temperature.None? ==> ls[3] == "   Temp: " + Dash
    ensures c.metrics.waterLevel.Some? ==> ls[4] == "   Water Level: " + f.fixed2(c.metrics.waterLevel.value) + " m"
    ensures c.metrics.waterLevel.None? ==> ls[4] == "   Water Level: " + Dash
    ensures c.metrics.ph.Some? ==> ls[5] == "   pH Level: " + f.fixed2(c.metrics.ph.value)
    ensures c.metrics.ph.None? ==> ls[5] == "   pH Level: " + Dash
  {
    var m := c.metrics;
    [ DecimalText(k + 1) + ". " + c.name,
      "   Reasons: " + Join(ReasonTexts(f, c.reasons), "; "),
      "   TDS: " + (if m.tds.Some? then f.plain(m.tds.value) + " ppm" else Dash),
      "   Temp: " + (if m.temperature.Some? then f.fixed1(m.temperature.value) + "°C" else Dash),
      "   Water Level: " + (if m.waterLevel.Some? then f.fixed2(m.waterLevel.value) + " m" else Dash),
      "   pH Level: " + (if m.ph.Some? then f.fixed2(m.ph.value) else Dash) ]
  }

  /** The six-line block of each critical well, numbered from 1. */
  function Entries(f: NumberText, cs: seq<CriticalWell>): (bs: seq<seq<string>>)
    ensures |bs| == |cs|
    ensures forall i :: 0 <= i < |cs| ==> bs[i] == EntryLines(f, i, cs[i])
  {
    seq(|cs|, i requires 0 <= i < |cs| => EntryLines(f, i, cs[i]))
  }

  function Flatten(bs: seq<seq<string>>): seq<string> {
    if bs == [] then [] else bs[0] + Flatten(bs[1..])
  }

  /** Blocks of six lines flatten to six lines each, block `i` starting at
      line `6 * i`. */
  lemma {:induction false} FlattenBlocks(bs: seq<seq<string>>)
    requires forall j :: 0 <= j < |bs| ==> |bs[j]| == 6
    ensures |Flatten(bs)| == 6 * |bs|
    ensures forall i, j :: 0 <= i < |bs| && 0 <= j < 6 ==> Flatten(bs)[6 * i + j] == bs[i][j]
  {
    if bs != [] {
      FlattenBlocks(bs[1..]);
      forall i, j | 0 <= i < |bs| && 0 <= j < 6
        ensures Flatten(bs)[6 * i + j] == bs[i][j]
      {
        if i > 0 {
          assert Flatten(bs)[6 * i + j] == Flatten(bs[1..])[6 * (i - 1) + j];
          assert bs[1..][i - 1] == bs[i];
        }
      }
    }
  }

  const Thresholds: string := "Thresholds used: TDS >1000 ppm, pH <6.5 or >8.5, Water Level <2 m."

  /** The lines of the critical-wells report: a header with both counts, the
      six lines of each critical well, and the thresholds. */
  function ReportLines(f: NumberText, critical: seq<CriticalWell>, evaluated: nat): (ls: seq<string>)
    ensures |ls| >= 2 && ls[|ls| - 1] == Thresholds
    ensures ls[0] == "Critical Wells (" + DecimalText(|critical|) + " of " + DecimalText(evaluated) + " evaluated):"
  {
    ["Critical Wells (" + DecimalText(|critical|) + " of " + DecimalText(evaluated) + " evaluated):"]
    + Flatten(Entries(f, critical)) + [Thresholds]
  }

  /** The report has a header with both counts, six lines per critical well
      and the thresholds last; the `i`-th critical well's block starts with
      its number `i + 1` and its name. */
  lemma ReportLinesShape(f: NumberText, critical: seq<CriticalWell>, evaluated: nat)
    ensures var ls := ReportLines(f, critical, evaluated);
      && |ls| == 2 + 6 * |critical|
      && ls[0] == "Critical Wells (" + DecimalText(|critical|) + " of " + DecimalText(evaluated) + " evaluated):"
      && ls[|ls| - 1] == Thresholds
      && (forall i, j :: 0 <= i < |critical| && 0 <= j < 6 ==> ls[1 + 6 * i + j] == EntryLines(f, i, critical[i])[j])
      && forall i :: 0 <= i < |critical| ==> ls[1 + 6 * i] == DecimalText(i + 1) + ". " + critical[i].name
  {
    var bs := Entries(f, critical);
    FlattenBlocks(bs);
    var header := "Critical Wells (" + DecimalText(|critical|) + " of " + DecimalText(evaluated) + " evaluated):";
    var body := Flatten(bs);
    Framed(header, body, Thresholds);
    forall i, j | 0 <= i < |critical| && 0 <= j < 6
      ensures ([header] + body + [Thresholds])[1 + 6 * i + j] == EntryLines(f, i, critical[i])[j]
    {
      assert body[6 * i + j] == bs[i][j];
    }
    forall i | 0 <= i < |critical|
      ensures ([header] + body + [Thresholds])[1 + 6 * i] == DecimalText(i + 1) + ". " + critical[i].name
    {
      assert body[6 * i + 0] == bs[i][0];
    }
  }

  /** Lines framed by a first and a last line. */
  lemma Framed(first: string, body: seq<string>, last: string)
    ensures var ls := [first] + body + [last];
      |ls| == |body| + 2 && ls[0] == first && ls[|ls| - 1] == last
      && forall k :: 0 <= k < |body| ==> ls[k + 1] == body[k]
  {
  }

  /** The answer to "which wells are critical": a fixed text without wells,
      the number evaluated when none is critical, else the report. */
  function CriticalAnswer(f: NumberText, wellCount: nat, critical: seq<CriticalWell>, evaluated: nat): (a: string)
    ensures wellCount == 0 ==> a == "No wells are available to evaluate."
    ensures wellCount > 0 && critical == [] ==>
              a == "No critical wells detected among " + DecimalText(evaluated) + " wells evaluated."
    ensures wellCount > 0 && critical != [] ==> a == Join(ReportLines(f, critical, evaluated), "\n")
  {
    if wellCount == 0 then "No wells are available to evaluate."
    else if critical == [] then "No critical wells detected among " + DecimalText(evaluated) + " wells evaluated."
    else Join(ReportLines(f, critical, evaluated), "\n")
  }

  // ---------------------------------------------------------------------------
  // History limit and candidate models

  /** The `limit` of a history request: 50 by default, kept within 1..200. */
  function HistoryLimit(param: Option<string>): (limit: int)
    ensures 1 <= limit <= 200
    ensures !Truthy(param) ==> limit == 50
    ensures forall p :: Truthy(param) && ParseInt(param.value) == Some(p) && 1 <= p <= 200 ==> limit == p
    ensures forall p :: Truthy(param) && ParseInt(param.value) == Some(p) && p > 200 ==> limit == 200
    ensures forall p :: Truthy(param) && ParseInt(param.value) == Some(p) && p < 0 ==> limit == 1
    ensures Truthy(param) && (ParseInt(param.value).None? || ParseInt(param.value) == Some(0)) ==> limit == 50
  {
    LimitParam(param, 50, 1, 200)
  }

  /** The index of the first occurrence of `x` in `xs`. */
  function FirstIndex(xs: seq<string>, x: string): (k: nat)
    requires x in xs
    ensures k < |xs| && xs[k] == x && forall j :: 0 <= j < k ==> xs[j] != x
  {
    if xs[0] == x then 0
    else
      var k := FirstIndex(xs[1..], x);
      assert forall j :: 1 <= j < |xs| ==> xs[j] == xs[1..][j - 1];
      k + 1
  }

  /** A first occurrence inside a prefix is the first occurrence in the whole. */
  lemma FirstIndexPrefix(xs: seq<string>, n: nat, x: string)
    requires n <= |xs| && x in xs[..n]
    ensures x in xs && FirstIndex(xs[..n], x) == FirstIndex(xs, x)
  {
    var k' := FirstIndex(xs[..n], x);
    assert xs[k'] == x;
    var k := FirstIndex(xs, x);
    assert k <= k';
    assert xs[..n][k] == x;
  }

  /** The distinct elements in order of first occurrence (`Array.from(new Set(xs))`). */
  function Distinct(xs: seq<string>): (ds: seq<string>)
    ensures forall x :: x in ds <==> x in xs
    ensures forall i, j :: 0 <= i < j < |ds| ==> ds[i] != ds[j]
    ensures xs != [] ==> ds != [] && ds[0] == xs[0]
    ensures |ds| <= |xs|
  {
    if xs == [] then []
    else
      var init := Distinct(xs[..|xs| - 1]);
      assert forall x :: x in xs <==> x in xs[..|xs| - 1] || x == xs[|xs| - 1];
      if xs[|xs| - 1] in init then init else init + [xs[|xs| - 1]]
  }

  /** The elements of `ds` come in the order of their first occurrences in `xs`. */
  predicate InFirstOccurrenceOrder(xs: seq<string>, ds: seq<string>)
    requires forall i :: 0 <= i < |ds| ==> ds[i] in xs
  {
    forall i, j :: 0 <= i < j < |ds| ==> FirstIndex(xs, ds[i]) < FirstIndex(xs, ds[j])
  }

  /** The distinct elements come in the order of their first occurrences. */
  lemma {:induction false} DistinctKeepsFirstOccurrenceOrder(xs: seq<string>)
    ensures forall i :: 0 <= i < |Distinct(xs)| ==> Distinct(xs)[i] in xs
    ensures InFirstOccurrenceOrder(xs, Distinct(xs))
  {
    if xs != [] {
      var n := |xs| - 1;
      var init := xs[..n];
      var di := Distinct(init);
      DistinctKeepsFirstOccurrenceOrder(init);
      OrderInLongerList(xs, n, di);
      if xs[n] !in di {
        assert xs[n] !in init;
        assert FirstIndex(xs, xs[n]) == n;
        OrderAppend(xs, di, xs[n]);
        assert Distinct(xs) == di + [xs[n]];
      } else {
        assert Distinct(xs) == di;
      }
    }
  }

  /** The order of first occurrences in a prefix is their order in the whole,
      and they all lie inside the prefix. */
  lemma OrderInLongerList(xs: seq<string>, n: nat, ds: seq<string>)
    requires n <= |xs| && forall i :: 0 <= i < |ds| ==> ds[i] in xs[..n]
    requires InFirstOccurrenceOrder(xs[..n], ds)
    ensures forall i :: 0 <= i < |ds| ==> ds[i] in xs && FirstIndex(xs, ds[i]) < n
    ensures InFirstOccurrenceOrder(xs, ds)
  {
    forall i | 0 <= i < |ds|
      ensures ds[i] in xs && FirstIndex(xs, ds[i]) == FirstIndex(xs[..n], ds[i]) < n
    {
      FirstIndexPrefix(xs, n, ds[i]);
    }
  }

  /** Appending an element whose first occurrence comes after those of the
      list keeps the order. */
  lemma OrderAppend(xs: seq<string>, ds: seq<string>, x: string)
    requires x in xs && forall i :: 0 <= i < |ds| ==> ds[i] in xs
    requires InFirstOccurrenceOrder(xs, ds)
    requires forall i :: 0 <= i < |ds| ==> FirstIndex(xs, ds[i]) < FirstIndex(xs, x)
    ensures forall i :: 0 <= i < |ds + [x]| ==> (ds + [x])[i] in xs
    ensures InFirstOccurrenceOrder(xs, ds + [x])
  {
    var e := ds + [x];
    assert forall i :: 0 <= i < |ds| ==> e[i] == ds[i];
  }

  const Flash: string := "gemini-1.5-flash"
  const Pro: string := "gemini-1.5-pro"

  /** The models to try: the configured one (flash when unset), then flash and
      pro, without repeats. */
  function CandidateModels(configured: Option<string>): (ms: seq<string>)
    ensures ms != [] && ms[0] == OrElse(configured, Flash)
    ensures Flash in ms && Pro in ms
    ensures forall i, j :: 0 <= i < j < |ms| ==> ms[i] != ms[j]
    ensures forall m :: m in ms ==> m == OrElse(configured, Flash) || m == Flash || m == Pro
    ensures |ms| == if OrElse(configured, Flash) in {Flash, Pro} then 2 else 3
    ensures var r := OrElse(configured, Flash);
      ms == if r == Flash then [Flash, Pro] else if r == Pro then [Pro, Flash] else [r, Flash, Pro]
  {
    var requested := OrElse(configured, Flash);
    DistinctCandidates(requested);
    Distinct([requested, Flash, Pro])
  }

  lemma DistinctCandidates(requested: string)
    ensures var ms := Distinct([requested, Flash, Pro]);
      && |ms| == (if requested in {Flash, Pro} then 2 else 3)
      && ms == if requested == Flash then [Flash, Pro] else if requested == Pro then [Pro, Flash] else [requested, Flash, Pro]
  {
    var xs := [requested, Flash, Pro];
    assert xs[..2][..1] == [requested];
    assert xs[..2] == [requested, Flash];
    assert [requested][..0] == [];
  }

  // ---------------------------------------------------------------------------
  // neatFormat
  //
  // The scan and the lemmas about visible characters are stated for any
  // whitespace class `isWs`; the reply tidying uses JavaScript's `IsSpace`.

  /** The metric labels, in the order the pattern tries them. */
  const Labels: seq<string> := ["TDS:", "Temp:", "Temperature:", "Water Level:", "pH Level:", "pH:"]

  predicate StartsWith(s: string, p: string) {
    |p| <= |s| && s[..|p|] == p
  }

  /** Every label is non-empty and starts with a character that is not
      whitespace. */
  predicate LabelsVisible(ls: seq<string>, isWs: char -> bool) {
    forall l :: l in ls ==> l != [] && !isWs(l[0])
  }

  lemma LabelsStartVisible()
    ensures LabelsVisible(Labels, IsSpace)
  {
    assert Labels == ["TDS:", "Temp:", "Temperature:", "Water Level:", "pH Level:", "pH:"];
  }

  /** The first label of `ls` that `s` starts with. */
  function FirstLabel(s: string, ls: seq<string>): (l: Option<string>)
    ensures l.Some? ==> l.value in ls && StartsWith(s, l.value)
    ensures l.None? ==> forall i :: 0 <= i < |ls| ==> !StartsWith(s, ls[i])
  {
    if ls == [] then None
    else if StartsWith(s, ls[0]) then Some(ls[0])
    else
      var r := FirstLabel(s, ls[1..]);
      assert forall i :: 1 <= i < |ls| ==> ls[i] == ls[1..][i - 1];
      r
  }

  /** The length of the whitespace run at the start of `s`. */
  function SpaceRun(s: string, isWs: char -> bool): (n: nat)
    ensures n <= |s| && forall i :: 0 <= i < n ==> isWs(s[i])
    ensures n < |s| ==> !isWs(s[n])
  {
    if s != [] && isWs(s[0]) then 1 + SpaceRun(s[1..], isWs) else 0
  }

  /** `text.replace(/(\s+)(TDS:|...|pH:)/g, '\n$2')`. At a whitespace
      character the greedy run can only be followed by a label when it is the
      whole run, so the match is tried on the whole run; when it fails the
      scan moves one character on. After a match the scan resumes behind the
      label. */
  function BreakBeforeLabels(s: string): string {
    BreakBefore(s, Labels, IsSpace)
  }

  /** The label of `ls` that follows the whitespace run at the start of `s`,
      if there is a run and a (non-empty) label behind it. */
  function LabelAfterSpace(s: string, ls: seq<string>, isWs: char -> bool): (l: Option<string>)
    ensures l.Some? ==> SpaceRun(s, isWs) > 0 && l.value != [] && SpaceRun(s, isWs) + |l.value| <= |s|
  {
    var n := SpaceRun(s, isWs);
    if n > 0 then
      match FirstLabel(s[n..], ls)
      case Some(l) => if l != [] then Some(l) else None
      case None => None
    else None
  }

  /** The label found is one of `ls` and stands right behind the run. */
  lemma LabelAfterSpaceMatches(s: string, ls: seq<string>, isWs: char -> bool)
    requires LabelAfterSpace(s, ls, isWs).Some?
    ensures var n, lbl := SpaceRun(s, isWs), LabelAfterSpace(s, ls, isWs).value;
      lbl in ls && n + |lbl| <= |s| && s[n..n + |lbl|] == lbl
  {
    var n, lbl := SpaceRun(s, isWs), LabelAfterSpace(s, ls, isWs).value;
    assert StartsWith(s[n..], lbl);
    assert s[n..][..|lbl|] == s[n..n + |lbl|];
  }

  /** The replacement text `'\n$2'`. */
  function Replacement(lbl: string): string {
    "\n" + lbl
  }

  /** One step of the scan at the start of a non-empty `s`: the text
      emitted and the number of characters consumed. */
  function ScanStep(s: string, ls: seq<string>, isWs: char -> bool): (r: (string, nat))
    requires s != []
    ensures 1 <= r.1 <= |s|
  {
    match LabelAfterSpace(s, ls, isWs)
    case Some(l) => (Replacement(l), SpaceRun(s, isWs) + |l|)
    case None => ([s[0]], 1)
  }

  /** Where no whitespace run is followed by a label, the scan copies one
      character; where one is, it emits a line break and the label and
      consumes the run and the label. */
  lemma ScanStepCases(s: string, ls: seq<string>, isWs: char -> bool)
    requires s != []
    ensures LabelAfterSpace(s, ls, isWs).None? ==> ScanStep(s, ls, isWs) == ([s[0]], 1)
    ensures LabelAfterSpace(s, ls, isWs).Some? ==>
              var l := LabelAfterSpace(s, ls, isWs).value;
              ScanStep(s, ls, isWs) == ("\n" + l, SpaceRun(s, isWs) + |l|)
  {
  }

  /** The scan behind `BreakBeforeLabels`, for a list of labels `ls`. */
  function BreakBefore(s: string, ls: seq<string>, isWs: char -> bool): string
    decreases |s|
  {
    if s == [] then []
    else
      var st := ScanStep(s, ls, isWs);
      st.0 + BreakBefore(s[st.1..], ls, isWs)
  }

  /** When a line break counts as whitespace, the scan only ever moves
      whitespace: the visible characters are kept, in order. */
  lemma {:induction false} BreakBeforeVisible(s: string, ls: seq<string>, isWs: char -> bool)
    requires isWs('\n')
    ensures Visible(BreakBefore(s, ls, isWs), isWs) == Visible(s, isWs)
    decreases |s|
  {
    if s != [] {
      var st := ScanStep(s, ls, isWs);
      var rest := BreakBefore(s[st.1..], ls, isWs);
      BreakBeforeVisible(s[st.1..], ls, isWs);
      assert BreakBefore(s, ls, isWs) == st.0 + rest;
      match LabelAfterSpace(s, ls, isWs)
      case Some(l) =>
        LabelAfterSpaceMatches(s, ls, isWs);
        VisibleBreak(s, SpaceRun(s, isWs), l, rest, isWs);
      case None =>
        VisibleCons(s, rest, isWs);
    }
  }

  /** The length of the run of newlines at the start of `s`. */
  function NewlineRun(s: string): (n: nat)
    ensures n <= |s| && forall i :: 0 <= i < n ==> s[i] == '\n'
    ensures n < |s| ==> s[n] != '\n'
  {
    if s != [] && s[0] == '\n' then 1 + NewlineRun(s[1..]) else 0
  }

  /** `text.replace(/\n{2,}/g, '\n\n')`. */
  function CollapseNewlines(s: string): string
    decreases |s|
  {
    if s == [] then []
    else
      var n := NewlineRun(s);
      if n >= 2 then "\n\n" + CollapseNewlines(s[n..])
      else [s[0]] + CollapseNewlines(s[1..])
  }

  /** A run of two or more line breaks becomes exactly two. */
  lemma CollapseRun(k: nat, s: string)
    requires k >= 2 && (s == [] || s[0] != '\n')
    ensures CollapseNewlines(seq(k, _ => '\n') + s) == "\n\n" + CollapseNewlines(s)
  {
    var t := seq(k, _ => '\n') + s;
    assert forall i :: 0 <= i < k ==> t[i] == '\n';
    assert k < |t| ==> t[k] == s[0];
    assert NewlineRun(t) == k;
    assert t[k..] == s;
  }

  /** Any other character, and a line break that is not followed by
      another, is kept as it is. */
  lemma CollapseKeeps(c: char, s: string)
    requires !(c == '\n' && s != [] && s[0] == '\n')
    ensures CollapseNewlines([c] + s) == [c] + CollapseNewlines(s)
  {
    var t := [c] + s;
    assert t[1..] == s;
    assert NewlineRun(t) < 2;
  }

  /** The reply tidying: an empty text is returned as it is; otherwise each
      whitespace run before a metric label becomes one line break, runs of
      two or more line breaks become exactly two, and the ends are trimmed. */
  function NeatFormat(text: string): (r: string)
    ensures text == "" ==> r == ""
    ensures r != [] ==> !IsSpace(r[0]) && !IsSpace(r[|r| - 1])
  {
    if text == "" then text else Trim(CollapseNewlines(BreakBeforeLabels(text)))
  }

  /** The characters of `s` that are not whitespace. */
  function Visible(s: string, isWs: char -> bool): (v: string)
    ensures |v| <= |s|
  {
    if s == [] then [] else (if isWs(s[0]) then [] else [s[0]]) + Visible(s[1..], isWs)
  }

  lemma {:induction false} VisibleAppend(a: string, b: string, isWs: char -> bool)
    ensures Visible(a + b, isWs) == Visible(a, isWs) + Visible(b, isWs)
  {
    if a == [] {
      assert a + b == b;
    } else {
      var h := if isWs(a[0]) then [] else [a[0]];
      assert (a + b)[0] == a[0] && (a + b)[1..] == a[1..] + b;
      assert Visible(a + b, isWs) == h + Visible(a[1..] + b, isWs);
      VisibleAppend(a[1..], b, isWs);
      assert h + (Visible(a[1..], isWs) + Visible(b, isWs)) == (h + Visible(a[1..], isWs)) + Visible(b, isWs);
    }
  }

  lemma {:induction false} VisibleOfSpaces(s: string, isWs: char -> bool)
    requires forall i :: 0 <= i < |s| ==> isWs(s[i])
    ensures Visible(s, isWs) == []
  {
    if s != [] {
      VisibleOfSpaces(s[1..], isWs);
    }
  }

  /** Splitting `s` at `n`. */
  lemma VisibleSplit(s: string, n: nat, isWs: char -> bool)
    requires n <= |s|
    ensures Visible(s, isWs) == Visible(s[..n], isWs) + Visible(s[n..], isWs)
  {
    assert s == s[..n] + s[n..];
    VisibleAppend(s[..n], s[n..], isWs);
  }

  /** Replacing a whitespace run before `lbl` by one line break keeps the
      visible characters. */
  lemma VisibleBreak(s: string, n: nat, lbl: string, x: string, isWs: char -> bool)
    requires isWs('\n')
    requires n + |lbl| <= |s| && s[n..n + |lbl|] == lbl
    requires forall i :: 0 <= i < n ==> isWs(s[i])
    requires Visible(x, isWs) == Visible(s[n + |lbl|..], isWs)
    ensures Visible(Replacement(lbl) + x, isWs) == Visible(s, isWs)
  {
    VisibleAfterSpaces(s, n, isWs);
    var rest := s[n..];
    VisibleSplit(rest, |lbl|, isWs);
    assert rest[|lbl|..] == s[n + |lbl|..];
    assert rest[..|lbl|] == lbl;
    VisibleNewlineFront(lbl, x, isWs);
  }

  /** Leading whitespace is not visible. */
  lemma VisibleAfterSpaces(s: string, n: nat, isWs: char -> bool)
    requires n <= |s| && forall i :: 0 <= i < n ==> isWs(s[i])
    ensures Visible(s, isWs) == Visible(s[n..], isWs)
  {
    VisibleSplit(s, n, isWs);
    VisibleOfSpaces(s[..n], isWs);
  }

  lemma VisibleNewlineFront(lbl: string, x: string, isWs: char -> bool)
    requires isWs('\n')
    ensures Visible(Replacement(lbl) + x, isWs) == Visible(lbl, isWs) + Visible(x, isWs)
  {
    assert "\n" + lbl + x == "\n" + (lbl + x);
    VisibleAppend("\n", lbl + x, isWs);
    VisibleAppend(lbl, x, isWs);
  }

  lemma VisibleCons(s: string, x: string, isWs: char -> bool)
    requires s != [] && Visible(x, isWs) == Visible(s[1..], isWs)
    ensures Visible([s[0]] + x, isWs) == Visible(s, isWs)
  {
    VisibleAppend([s[0]], x, isWs);
    VisibleSplit(s, 1, isWs);
  }

  /** Collapsing line breaks removes only line breaks. */
  lemma {:induction false} CollapseNewlinesVisible(s: string, isWs: char -> bool)
    requires isWs('\n')
    ensures Visible(CollapseNewlines(s), isWs) == Visible(s, isWs)
    decreases |s|
  {
    if s != [] {
      var n := NewlineRun(s);
      if n >= 2 {
        CollapseNewlinesVisible(s[n..], isWs);
        VisibleSplit(s, n, isWs);
        VisibleOfSpaces(s[..n], isWs);
        VisibleAppend("\n\n", CollapseNewlines(s[n..]), isWs);
        VisibleOfSpaces("\n\n", isWs);
      } else {
        CollapseNewlinesVisible(s[1..], isWs);
        VisibleAppend([s[0]], CollapseNewlines(s[1..]), isWs);
        VisibleSplit(s, 1, isWs);
      }
    }
  }

  /** Trimming removes only whitespace. */
  lemma TrimVisible(s: string)
    ensures Visible(Trim(s), IsSpace) == Visible(s, IsSpace)
  {
    TrimStartVisible(s);
    TrimEndVisible(TrimStart(s));
  }

  lemma TrimStartVisible(s: string)
    ensures Visible(TrimStart(s), IsSpace) == Visible(s, IsSpace)
  {
    var t := TrimStart(s);
    VisibleSplit(s, |s| - |t|, IsSpace);
    VisibleOfSpaces(s[..|s| - |t|], IsSpace);
  }

  lemma TrimEndVisible(t: string)
    ensures Visible(TrimEnd(t), IsSpace) == Visible(t, IsSpace)
  {
    var u := TrimEnd(t);
    VisibleSplit(t, |u|, IsSpace);
    VisibleOfSpaces(t[|u|..], IsSpace);
  }

  /** The tidying only ever changes whitespace: the visible characters of the
      reply are kept, in order. */
  lemma NeatFormatKeepsVisible(text: string)
    ensures Visible(NeatFormat(text), IsSpace) == Visible(text, IsSpace)
  {
    if text != "" {
      assert IsSpace('\n');
      BreakBeforeVisible(text, Labels, IsSpace);
      CollapseNewlinesVisible(BreakBeforeLabels(text), IsSpace);
      TrimVisible(CollapseNewlines(BreakBeforeLabels(text)));
    }
  }

  /** No three line breaks in a row. */
  predicate NoTripleBreak(s: string) {
    forall i :: 0 <= i && i + 2 < |s| ==> !(s[i] == '\n' && s[i + 1] == '\n' && s[i + 2] == '\n')
  }
  /** After collapsing, no run of line breaks is longer than two, and the
      text starts with a line break only if the input did. */
  lemma {:induction false} CollapseNewlinesShape(s: string)
    ensures NoTripleBreak(CollapseNewlines(s))
    ensures CollapseNewlines(s) != [] && CollapseNewlines(s)[0] == '\n' ==> s != [] && s[0] == '\n'
    ensures s != [] ==> CollapseNewlines(s) != []
    ensures s != [] && s[0] != '\n' ==> CollapseNewlines(s)[0] == s[0]
    decreases |s|
  {
    if s != [] {
      var n := NewlineRun(s);
      if n >= 2 {
        CollapseNewlinesShape(s[n..]);
        var r := CollapseNewlines(s[n..]);
        assert n < |s| ==> s[n..][0] != '\n';
        assert r != [] ==> r[0] != '\n';
        assert CollapseNewlines(s) == "\n\n" + r;
      } else {
        CollapseNewlinesShape(s[1..]);
        var r := CollapseNewlines(s[1..]);
        assert CollapseNewlines(s) == [s[0]] + r;
        if s[0] == '\n' {
          assert n == 1;
          assert |s| > 1 ==> s[1] != '\n';
          assert r != [] ==> r[0] != '\n';
        }
      }
    }
  }

  /** A suffix of a text without three line breaks in a row has none either. */
  lemma NoTripleBreakDrop(s: string, i: nat)
    requires i <= |s| && NoTripleBreak(s)
    ensures NoTripleBreak(s[i..])
  {
    forall k | 0 <= k && k + 2 < |s| - i
      ensures !(s[i..][k] == '\n' && s[i..][k + 1] == '\n' && s[i..][k + 2] == '\n')
    {
      assert s[i..][k] == s[i + k] && s[i..][k + 1] == s[i + k + 1] && s[i..][k + 2] == s[i + k + 2];
    }
  }

  /** So does a prefix. */
  lemma NoTripleBreakTake(s: string, j: nat)
    requires j <= |s| && NoTripleBreak(s)
    ensures NoTripleBreak(s[..j])
  {
    forall k | 0 <= k && k + 2 < j
      ensures !(s[..j][k] == '\n' && s[..j][k + 1] == '\n' && s[..j][k + 2] == '\n')
    {
      assert s[..j][k] == s[k] && s[..j][k + 1] == s[k + 1] && s[..j][k + 2] == s[k + 2];
    }
  }

  /** The tidied reply has no leading or trailing whitespace and never three
      line breaks in a row. */
  lemma NeatFormatShape(text: string)
    ensures var r := NeatFormat(text);
      && (text == "" ==> r == "")
      && (r != [] ==> !IsSpace(r[0]) && !IsSpace(r[|r| - 1]))
      && NoTripleBreak(r)
  {
    if text != "" {
      var c := CollapseNewlines(BreakBeforeLabels(text));
      CollapseNewlinesShape(BreakBeforeLabels(text));
      TrimNoTripleBreak(c);
    }
  }

  /** Trimming keeps a text free of three line breaks in a row. */
  lemma TrimNoTripleBreak(c: string)
    requires NoTripleBreak(c)
    ensures NoTripleBreak(Trim(c))
  {
    TrimStartNoTripleBreak(c);
    TrimEndNoTripleBreak(TrimStart(c));
  }

  lemma TrimStartNoTripleBreak(c: string)
    requires NoTripleBreak(c)
    ensures NoTripleBreak(TrimStart(c))
  {
    NoTripleBreakDrop(c, |c| - |TrimStart(c)|);
  }

  lemma TrimEndNoTripleBreak(t: string)
    requires NoTripleBreak(t)
    ensures NoTripleBreak(TrimEnd(t))
  {
    NoTripleBreakTake(t, |TrimEnd(t)|);
  }

  /** A text without whitespace comes back unchanged. */
  lemma {:induction false} NeatFormatPlainText(text: string)
    requires forall i :: 0 <= i < |text| ==> !IsSpace(text[i])
    ensures NeatFormat(text) == text
  {
    if text != "" {
      BreakBeforePlain(text, Labels, IsSpace);
      CollapseNewlinesPlain(text);
    }
  }

  lemma {:induction false} BreakBeforePlain(s: string, ls: seq<string>, isWs: char -> bool)
    requires forall i :: 0 <= i < |s| ==> !isWs(s[i])
    ensures BreakBefore(s, ls, isWs) == s
    decreases |s|
  {
    if s != [] {
      BreakBeforePlain(s[1..], ls, isWs);
      assert SpaceRun(s, isWs) == 0;
      assert ScanStep(s, ls, isWs) == ([s[0]], 1);
      assert BreakBefore(s, ls, isWs) == [s[0]] + s[1..];
    }
  }

  lemma {:induction false} CollapseNewlinesPlain(s: string)
    requires forall i :: 0 <= i < |s| ==> !IsSpace(s[i])
    ensures CollapseNewlines(s) == s
    decreases |s|
  {
    if s != [] {
      CollapseNewlinesPlain(s[1..]);
    }
  }

  /** A whitespace run before a label becomes one line break. */
  lemma BreakBeforeLabel(space: string, rest: string, ls: seq<string>, isWs: char -> bool)
    requires space != [] && forall i :: 0 <= i < |space| ==> isWs(space[i])
    requires LabelsVisible(ls, isWs) && FirstLabel(rest, ls).Some?
    ensures var l := FirstLabel(rest, ls).value;
      BreakBefore(space + rest, ls, isWs) == Replacement(l) + BreakBefore(rest[|l|..], ls, isWs)
  {
    var s := space + rest;
    var l := FirstLabel(rest, ls).value;
    var n := |space| + |l|;
    ScanStepAtLabel(space, rest, ls, isWs);
    assert ScanStep(s, ls, isWs) == (Replacement(l), n);
    BreakBeforeStepAt(s, ls, isWs, Replacement(l), n);
    assert BreakBefore(s, ls, isWs) == Replacement(l) + BreakBefore(s[n..], ls, isWs);
    DropAfterPrefix(space, rest, |l|);
    assert s[n..] == rest[|l|..];
  }

  /** At a whitespace run before a label, the scan emits the replacement
      and consumes the run and the label. */
  lemma ScanStepAtLabel(space: string, rest: string, ls: seq<string>, isWs: char -> bool)
    requires space != [] && forall i :: 0 <= i < |space| ==> isWs(space[i])
    requires LabelsVisible(ls, isWs) && FirstLabel(rest, ls).Some?
    ensures var l := FirstLabel(rest, ls).value;
      |l| <= |rest| && ScanStep(space + rest, ls, isWs) == (Replacement(l), |space| + |l|)
  {
    LabelAfterSpacePrefix(space, rest, ls, isWs);
  }

  lemma BreakBeforeStepAt(s: string, ls: seq<string>, isWs: char -> bool, out: string, n: nat)
    requires s != [] && ScanStep(s, ls, isWs) == (out, n)
    ensures n <= |s| && BreakBefore(s, ls, isWs) == out + BreakBefore(s[n..], ls, isWs)
  {
  }

  lemma DropAfterPrefix(a: string, b: string, k: nat)
    requires k <= |b|
    ensures (a + b)[|a| + k..] == b[k..]
  {
  }

  lemma LabelAfterSpacePrefix(space: string, rest: string, ls: seq<string>, isWs: char -> bool)
    requires space != [] && forall i :: 0 <= i < |space| ==> isWs(space[i])
    requires LabelsVisible(ls, isWs) && FirstLabel(rest, ls).Some?
    ensures SpaceRun(space + rest, isWs) == |space|
    ensures LabelAfterSpace(space + rest, ls, isWs).Some?
    ensures LabelAfterSpace(space + rest, ls, isWs).value == FirstLabel(rest, ls).value
  {
    var s := space + rest;
    var l := FirstLabel(rest, ls).value;
    assert rest[0] == l[0];
    SpaceRunPrefix(space, rest, isWs);
    assert s[|space|..] == rest;
  }

  lemma {:induction false} SpaceRunPrefix(space: string, rest: string, isWs: char -> bool)
    requires forall i :: 0 <= i < |space| ==> isWs(space[i])
    requires rest != [] && !isWs(rest[0])
    ensures SpaceRun(space + rest, isWs) == |space|
  {
    if space != [] {
      assert (space + rest)[1..] == space[1..] + rest;
      SpaceRunPrefix(space[1..], rest, isWs);
    }
  }
}
