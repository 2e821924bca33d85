/** The mailer: the SMTP transport settings taken from the environment, the
    verification and password-reset messages, and the text of the alert
    e-mail sent when a well turns warning or critical. Sending itself, the
    HTML body and the string conversions (`encodeURIComponent`,
    `toUpperCase`, `toFixed`, `toLocaleString`) are outside the model: the
    conversions are parameters. */
module Mailer {
  import opened Common

  datatype Auth = Auth(user: string, pass: Option<string>)

  /** The transport settings; `port` is `None` when `SMTP_PORT` does not
      parse (NaN). */
  datatype Transport = Transport(host: string, port: Option<int>, secure: bool, auth: Option<Auth>)

  /** The transport: an error when `SMTP_HOST` is unset or empty; the port
      parsed from `SMTP_PORT` with 587 by default; a secure connection exactly
      on port 465; credentials only when `SMTP_USER` is set. */
  function GetTransport(env: Env): (t: Result<Transport>)
    ensures t.Err? <==> !Truthy(EnvVar(env, "SMTP_HOST"))
    ensures t.Err? ==> t.message == "SMTP_HOST not set"
    ensures t.Ok? ==> t.value.host == env["SMTP_HOST"]
    ensures t.Ok? ==> t.value.port == ParseInt(OrElse(EnvVar(env, "SMTP_PORT"), "587"))
    ensures t.Ok? ==> (t.value.secure <==> t.value.port == Some(465))
    ensures t.Ok? ==> (t.value.auth.Some? <==> Truthy(EnvVar(env, "SMTP_USER")))
    ensures t.Ok? && t.value.auth.Some? ==> t.value.auth.value == Auth(env["SMTP_USER"], EnvVar(env, "SMTP_PASS"))
  {
    var host := EnvVar(env, "SMTP_HOST");
    if !Truthy(host) then Err("SMTP_HOST not set")
    else
      var port := ParseInt(OrElse(EnvVar(env, "SMTP_PORT"), "587"));
      var user := EnvVar(env, "SMTP_USER");
      Ok(Transport(host.value, port, port == Some(465),
                   if Truthy(user) then Some(Auth(user.value, EnvVar(env, "SMTP_PASS"))) else None))
  }

  /** Without `SMTP_PORT` the transport uses port 587, unencrypted. */
  lemma DefaultPort(env: Env)
    requires Truthy(EnvVar(env, "SMTP_HOST")) && !Truthy(EnvVar(env, "SMTP_PORT"))
    ensures GetTransport(env).Ok? && GetTransport(env).value.port == Some(587)
    ensures !GetTransport(env).value.secure
  {
    ParsePort587();
  }

  lemma ParsePort587()
    ensures ParseInt("587") == Some(587)
  {
    var s := "587";
    assert TrimStart(s) == s;
    DigitPrefixOfDigits(s);
    assert s[..2] == "58" && s[..2][..1] == "5" && s[..2][..1][..0] == "";
    assert DigitsValue("5") == 5;
    assert DigitsValue("58") == 58;
    assert DigitsValue(s) == 587;
  }

  // ---------------------------------------------------------------------------
  // Account messages

  datatype Mail = Mail(from: string, to: string, subject: string, text: string)

  /** The application's base address, `http://localhost:3000` by default. */
  function AppBase(env: Env): string {
    OrElse(EnvVar(env, "NEXT_PUBLIC_APP_URL"), "http://localhost:3000")
  }

  /** The link of a verification message. */
  function VerifyUrl(env: Env, token: string, encode: string -> string): (url: string)
  {
    AppBase(env) + "/auth/verify?token=" + encode(token)
  }

  /** The link of a password-reset message. */
  function ResetUrl(env: Env, token: string, encode: string -> string): (url: string)
  {
    AppBase(env) + "/auth/reset?token=" + encode(token)
  }

  /** The two links never coincide: behind the same base they differ in
      their path. */
  lemma VerifyAndResetDiffer(env: Env, t1: string, t2: string, encode: string -> string)
    ensures VerifyUrl(env, t1, encode) != ResetUrl(env, t2, encode)
  {
    var b := AppBase(env);
    var v := VerifyUrl(env, t1, encode);
    var r := ResetUrl(env, t2, encode);
    assert v[|b| + 6] == 'v' && r[|b| + 6] == 'r';
  }

  function AccountSender(env: Env): string {
    OrElse(EnvVar(env, "MAIL_FROM"), "no-reply@ecowell.local")
  }

  /** The verification message, or the transport's error. */
  function VerificationMail(env: Env, to: string, token: string, encode: string -> string): (m: Result<Mail>)
    ensures m.Err? <==> GetTransport(env).Err?
    ensures m.Ok? ==> m.value.to == to && m.value.text == "Click to verify: " + VerifyUrl(env, token, encode)
    ensures m.Ok? ==> m.value.from == AccountSender(env)
    ensures m.Ok? ==> m.value.subject == "Verify your EcoWell email"
  {
    var url := VerifyUrl(env, token, encode);
    var t := GetTransport(env);
    if t.Err? then Err(t.message)
    else Ok(Mail(AccountSender(env), to, "Verify your EcoWell email", "Click to verify: " + url))
  }

  /** The password-reset message, or the transport's error. */
  function ResetMail(env: Env, to: string, token: string, encode: string -> string): (m: Result<Mail>)
    ensures m.Err? <==> GetTransport(env).Err?
    ensures m.Ok? ==> m.value.to == to && m.value.from == AccountSender(env)
    ensures m.Ok? ==> m.value.subject == "Reset your EcoWell password"
    ensures m.Ok? ==> m.value.text == "You requested a password reset. If this was you, click to reset: "
                                      + ResetUrl(env, token, encode) + ". If not, ignore this email."
  {
    var url := ResetUrl(env, token, encode);
    var t := GetTransport(env);
    if t.Err? then Err(t.message)
    else Ok(Mail(AccountSender(env), to, "Reset your EcoWell password",
                 "You requested a password reset. If this was you, click to reset: " + url + ". If not, ignore this email."))
  }

  // ---------------------------------------------------------------------------
  // Alert e-mail

  datatype AlertWell = AlertWell(id: string, name: string, status: string,
                                 panchayatName: Option<string>, villageName: Option<string>,
                                 lat: Option<real>, lng: Option<real>)

  datatype AlertMetrics = AlertMetrics(ph: Option<real>, tds: Option<real>, temperature: Option<real>,
                                       waterLevel: Option<real>, recordedAt: Option<string>)

  /** The string conversions the message uses: a number in a template, a
      number with five decimals, upper case, `encodeURIComponent`, and a
      timestamp in the local format. */
  datatype Conversions = Conversions(number: real -> string, fixed5: real -> string,
                                     upper: string -> string, encode: string -> string,
                                     localTime: string -> string)

  /** The village and panchayat names that are present and non-empty,
      joined by ", ". */
  function LocationBits(w: AlertWell): (s: string)
    ensures !Truthy(w.villageName) && !Truthy(w.panchayatName) ==> s == ""
    ensures Truthy(w.villageName) && !Truthy(w.panchayatName) ==> s == w.villageName.value
    ensures !Truthy(w.villageName) && Truthy(w.panchayatName) ==> s == w.panchayatName.value
    ensures Truthy(w.villageName) && Truthy(w.panchayatName) ==> s == w.villageName.value + ", " + w.panchayatName.value
  {
    var parts := (if Truthy(w.villageName) then [w.villageName.value] else [])
                 + (if Truthy(w.panchayatName) then [w.panchayatName.value] else []);
    assert |parts| == 2 ==> Join(parts, ", ") == parts[0] + ", " + parts[1] by {
      if |parts| == 2 {
        assert parts == [parts[0]] + [parts[1]];
        JoinCons(parts[0], [parts[1]], ", ");
      }
    }
    Join(parts, ", ")
  }

  /** The coordinates, only when both are known. */
  function Coord(c: Conversions, w: AlertWell): (s: string)
    ensures s != "" <==> w.lat.Some? && w.lng.Some?
    ensures w.lat.Some? && w.lng.Some? ==> s == "(" + c.fixed5(w.lat.value) + ", " + c.fixed5(w.lng.value) + ")"
  {
    if w.lat.Some? && w.lng.Some? then "(" + c.fixed5(w.lat.value) + ", " + c.fixed5(w.lng.value) + ")" else ""
  }

  /** The status line: the change from the previous status when there is a
      different one, else the status alone. */
  function TransitionLine(c: Conversions, status: string, previous: Option<string>): (s: string)
    ensures Truthy(previous) && previous.value != status ==>
              s == "Status changed: " + c.upper(previous.value) + " → " + c.upper(status)
    ensures !(Truthy(previous) && previous.value != status) ==> s == "Status: " + c.upper(status)
  {
    if Truthy(previous) && previous.value != status then "Status changed: " + c.upper(previous.value) + " → " + c.upper(status)
    else "Status: " + c.upper(status)
  }

  /** The label, value and unit of each metric row, in display order. */
  function MetricTable(m: AlertMetrics): seq<(string, Option<real>, string)> {
    [("pH Level: ", m.ph, ""), ("TDS: ", m.tds, " ppm"), ("Temperature: ", m.temperature, " °C"),
     ("Water Level: ", m.waterLevel, " m")]
  }

  /** The rows of the table whose value is present. */
  function PresentRows(c: Conversions, table: seq<(string, Option<real>, string)>): (rows: seq<string>)
    ensures |rows| <= |table|
  {
    if table == [] then []
    else
      var (labelText, v, unit) := table[0];
      (if v.Some? then [labelText + c.number(v.value) + unit] else []) + PresentRows(c, table[1..])
  }

  /** The row of one metric, when it is present. */
  function Row(c: Conversions, labelText: string, v: Option<real>, unit: string): seq<string> {
    if v.Some? then [labelText + c.number(v.value) + unit] else []
  }

  lemma PresentRowsOfTable(c: Conversions, m: AlertMetrics)
    ensures PresentRows(c, MetricTable(m))
            == Row(c, "pH Level: ", m.ph, "") + Row(c, "TDS: ", m.tds, " ppm")
               + Row(c, "Temperature: ", m.temperature, " °C") + Row(c, "Water Level: ", m.waterLevel, " m")
  {
    var t := MetricTable(m);
    var r1 := Row(c, "pH Level: ", m.ph, "");
    var r2 := Row(c, "TDS: ", m.tds, " ppm");
    var r3 := Row(c, "Temperature: ", m.temperature, " °C");
    var r4 := Row(c, "Water Level: ", m.waterLevel, " m");
    assert t[1..][1..][1..][1..] == [];
    assert PresentRows(c, t[1..][1..][1..]) == r4;
    assert PresentRows(c, t[1..][1..]) == r3 + r4;
    assert PresentRows(c, t[1..]) == r2 + (r3 + r4);
    assert PresentRows(c, t) == r1 + (r2 + (r3 + r4));
    assert r1 + (r2 + (r3 + r4)) == r1 + r2 + r3 + r4;
  }

  /** The four guarded pushes that build the metric rows. */
  method MetricRows(c: Conversions, m: AlertMetrics) returns (rows: seq<string>)
    ensures rows == PresentRows(c, MetricTable(m))
  {
    rows := [];
    if m.ph.Some? {
      var text := "pH Level: " + c.number(m.ph.value);
      assert text + "" == text;
      rows := rows + [text];
    }
    if m.tds.Some? { rows := rows + ["TDS: " + c.number(m.tds.value) + " ppm"]; }
    if m.temperature.Some? { rows := rows + ["Temperature: " + c.number(m.temperature.value) + " °C"]; }
    if m.waterLevel.Some? { rows := rows + ["Water Level: " + c.number(m.waterLevel.value) + " m"]; }
    PresentRowsOfTable(c, m);
  }

  /** One row per present metric, in the order pH, TDS, temperature, water
      level; none when no metric is present. */
  lemma MetricRowsExact(c: Conversions, m: AlertMetrics)
    ensures |PresentRows(c, MetricTable(m))| == (if m.ph.Some? then 1 else 0) + (if m.tds.Some? then 1 else 0)
              + (if m.temperature.Some? then 1 else 0) + (if m.waterLevel.Some? then 1 else 0)
    ensures m.ph.Some? ==> PresentRows(c, MetricTable(m))[0] == "pH Level: " + c.number(m.ph.value)
    ensures m.waterLevel.Some? ==> var rows := PresentRows(c, MetricTable(m));
              rows[|rows| - 1] == "Water Level: " + c.number(m.waterLevel.value) + " m"
  {
    PresentRowsOfTable(c, m);
    var front := Row(c, "pH Level: ", m.ph, "") + Row(c, "TDS: ", m.tds, " ppm")
                 + Row(c, "Temperature: ", m.temperature, " °C");
    var last := Row(c, "Water Level: ", m.waterLevel, " m");
    if m.ph.Some? {
      var text := "pH Level: " + c.number(m.ph.value);
      assert text + "" == text;
      assert (front + last)[0] == text;
    }
    if m.waterLevel.Some? {
      assert (front + last)[|front + last| - 1] == last[0];
    }
  }

  const NoMetrics: string := "No recent metrics available."

  function MetricsSection(rows: seq<string>): (s: string)
    ensures rows == [] ==> s == NoMetrics
    ensures rows != [] ==> s == Join(rows, "\n")
  {
    if rows == [] then NoMetrics else Join(rows, "\n")
  }

  const CriticalGuidance: string := "Immediate attention recommended. Consider water quality testing, cleaning, or restricting usage until parameters stabilize."
  const WarningGuidance: string := "Monitor the well closely. Plan preventive maintenance if adverse trends continue."

  /** The guidance depends on nothing but whether the status is critical. */
  function Guidance(status: string): (g: string)
    ensures g == CriticalGuidance <==> status == "critical"
    ensures g == WarningGuidance <==> status != "critical"
  {
    if status == "critical" then CriticalGuidance else WarningGuidance
  }

  /** The subject names the product, then the well, then its status in
      upper case. */
  function AlertSubject(c: Conversions, w: AlertWell): (s: string)
    ensures var n, u := |w.name|, c.upper(w.status);
      && |s| == 15 + n + 4 + |u|
      && s[..15] == "EcoWell Alert: " && s[15..15 + n] == w.name
      && s[15 + n..15 + n + 4] == " is " && s[15 + n + 4..] == u
  {
    "EcoWell Alert: " + w.name + " is " + c.upper(w.status)
  }

  /** The link to the well on the map page. */
  function ManageUrl(env: Env, c: Conversions, id: string): (url: string)
  {
    AppBase(env) + "/maps?well=" + c.encode(id)
  }

  /** The plain-text body of the alert e-mail. */
  function AlertText(env: Env, c: Conversions, w: AlertWell, metrics: Option<AlertMetrics>, previous: Option<string>,
                     rows: seq<string>): (text: string)
    ensures var head, tail := "Well: " + w.name + "\n", "\n\nView: " + ManageUrl(env, c, w.id);
      && |head| + |tail| <= |text|
      && text[..|head|] == head && text[|text| - |tail|..] == tail
  {
    var m := if metrics.Some? then metrics.value else AlertMetrics(None, None, None, None, None);
    var recorded := if Truthy(m.recordedAt) then "Recorded: " + c.localTime(m.recordedAt.value) + "\n" else "";
    var loc := LocationBits(w);
    var head := "Well: " + w.name + "\n";
    var middle := TransitionLine(c, w.status, previous)
      + "\nLocation: " + (if loc != "" then loc else "N/A") + " " + Coord(c, w)
      + "\n\nMetrics:\n" + MetricsSection(rows) + "\n" + recorded
      + "\nGuidance: " + Guidance(w.status);
    var tail := "\n\nView: " + ManageUrl(env, c, w.id);
    Bracketed(head, middle, tail);
    head + middle + tail
  }

  lemma Bracketed(head: string, middle: string, tail: string)
    ensures var t := head + middle + tail;
      |head| + |tail| <= |t| && t[..|head|] == head && t[|t| - |tail|..] == tail
  {
    var t := head + middle + tail;
    assert t[..|head|] == head;
    assert t[|t| - |tail|..] == tail;
  }

  /** The alert e-mail, or the transport's error: it goes to the recipient
      from `MAIL_FROM` (`alerts@ecowell.local` by default) under the alert
      subject, its metric rows built from the metrics given (none when no
      metrics are given). */
  method AlertMail(env: Env, c: Conversions, to: string, w: AlertWell, metrics: Option<AlertMetrics>,
                   previous: Option<string>) returns (mail: Result<Mail>)
    ensures mail.Err? <==> GetTransport(env).Err?
    ensures mail.Ok? ==> mail.value == Mail(
              OrElse(EnvVar(env, "MAIL_FROM"), "alerts@ecowell.local"), to, AlertSubject(c, w),
              AlertText(env, c, w, metrics, previous,
                        PresentRows(c, MetricTable(if metrics.Some? then metrics.value else AlertMetrics(None, None, None, None, None)))))
  {
    var t := GetTransport(env);
    if t.Err? {
      return Err(t.message);
    }
    var m := if metrics.Some? then metrics.value else AlertMetrics(None, None, None, None, None);
    var rows := MetricRows(c, m);
    mail := Ok(Mail(OrElse(EnvVar(env, "MAIL_FROM"), "alerts@ecowell.local"), to, AlertSubject(c, w),
                    AlertText(env, c, w, metrics, previous, rows)));
  }
}
