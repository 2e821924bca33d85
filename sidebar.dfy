/** The sidebar's metric badges and the chat panel's history expansion. */
module Sidebar {
  import opened Common

  // ---------------------------------------------------------------------------
  // Metric badges

  datatype MetricKind = Ph | Tds | Temperature | WaterLevel
  datatype Badge = Good | Warning | Critical

  /** The badge of a reading. pH and temperature have an inner good band inside
      a wider warning band; TDS is good up to 300 and warning up to 500; the
      water level is good from 40 and warning from 30. All bounds are
      inclusive, and anything outside the warning band is critical. */
  function MetricStatus(value: real, kind: MetricKind): (b: Badge)
    ensures kind == Ph ==> (b == Good <==> 6.5 <= value <= 8.5) && (b == Critical <==> !(6.0 <= value <= 9.0))
    ensures kind == Tds ==> (b == Good <==> value <= 300.0) && (b == Critical <==> value > 500.0)
    ensures kind == Temperature ==> (b == Good <==> 15.0 <= value <= 25.0) && (b == Critical <==> !(10.0 <= value <= 30.0))
    ensures kind == WaterLevel ==> (b == Good <==> value >= 40.0) && (b == Critical <==> value < 30.0)
  {
    match kind
    case Ph =>
      if 6.5 <= value <= 8.5 then Good else if 6.0 <= value <= 9.0 then Warning else Critical
    case Tds =>
      if value <= 300.0 then Good else if value <= 500.0 then Warning else Critical
    case Temperature =>
      if 15.0 <= value <= 25.0 then Good else if 10.0 <= value <= 30.0 then Warning else Critical
    case WaterLevel =>
      if value >= 40.0 then Good else if value >= 30.0 then Warning else Critical
  }

  function Severity(b: Badge): nat {
    match b
    case Good => 0
    case Warning => 1
    case Critical => 2
  }

  /** More dissolved solids never give a milder badge. */
  lemma TdsSeverityMonotone(x: real, y: real)
    requires x <= y
    ensures Severity(MetricStatus(x, Tds)) <= Severity(MetricStatus(y, Tds))
  {
  }

  /** A lower water level never gives a milder badge. */
  lemma WaterLevelSeverityAntitone(x: real, y: real)
    requires x <= y
    ensures Severity(MetricStatus(y, WaterLevel)) <= Severity(MetricStatus(x, WaterLevel))
  {
  }

  /** For pH and temperature the badge grows milder towards the middle: a
      reading between two others is at most as severe as the worse of them. */
  lemma BandedSeverityBetween(kind: MetricKind, x: real, y: real, z: real)
    requires kind == Ph || kind == Temperature
    requires x <= y <= z
    ensures Severity(MetricStatus(y, kind)) <= Severity(MetricStatus(x, kind))
         || Severity(MetricStatus(y, kind)) <= Severity(MetricStatus(z, kind))
  {
  }

  // ---------------------------------------------------------------------------
  // Chat history

  datatype ChatRole = User | Assistant
  datatype ChatMessage = ChatMessage(role: ChatRole, content: string)

  /** A stored chat row as it arrives in JSON; a field that is not a string
      is `None`. */
  datatype HistoryRow = HistoryRow(role: Option<string>, content: Option<string>, response: Option<string>)

  /** The result of the history request. */
  datatype HistoryFetch = FetchThrew | NotOk | NoMessageArray | Rows(rows: seq<HistoryRow>)

  const Greeting: string := "Hi! I'm your EcoWell AI assistant. Ask me about water quality, recent trends, or request a summary."

  /** `typeof v === 'string' ? v : ''`. */
  function TextOf(v: Option<string>): string {
    if v.Some? then v.value else ""
  }

  /** The messages one row contributes: an assistant row its content; any
      other row its content as the user's message, then its response as the
      assistant's; empty texts contribute nothing. */
  function RowMessages(row: HistoryRow): (ms: seq<ChatMessage>)
    ensures row.role == Some("assistant") ==>
              ms == (if TextOf(row.content) != "" then [ChatMessage(Assistant, TextOf(row.content))] else [])
    ensures row.role != Some("assistant") ==>
              ms == (if TextOf(row.content) != "" then [ChatMessage(User, TextOf(row.content))] else [])
                  + (if TextOf(row.response) != "" then [ChatMessage(Assistant, TextOf(row.response))] else [])
  {
    var content := TextOf(row.content);
    var response := TextOf(row.response);
    if row.role == Some("assistant") then
      if content != "" then [ChatMessage(Assistant, content)] else []
    else
      (if content != "" then [ChatMessage(User, content)] else [])
      + (if response != "" then [ChatMessage(Assistant, response)] else [])
  }

  /** The rows' messages, row after row. */
  function Expanded(rows: seq<HistoryRow>): (ms: seq<ChatMessage>)
    ensures forall m :: m in ms ==> exists i :: 0 <= i < |rows| && m in RowMessages(rows[i])
    ensures forall i, m :: 0 <= i < |rows| && m in RowMessages(rows[i]) ==> m in ms
  {
    FlatMapMembers(RowMessages, rows);
    FlatMap(RowMessages, rows)
  }

  /** The history shown: the expanded rows, or the greeting alone when they
      expand to nothing. */
  function History(rows: seq<HistoryRow>): (h: seq<ChatMessage>)
    ensures h != []
    ensures Expanded(rows) == [] ==> h == [ChatMessage(Assistant, Greeting)]
    ensures Expanded(rows) != [] ==> h == Expanded(rows)
  {
    var e := Expanded(rows);
    if e == [] then [ChatMessage(Assistant, Greeting)] else e
  }

  /** The expansion of a concatenation is the concatenation of expansions. */
  lemma ExpandedAppend(a: seq<HistoryRow>, b: seq<HistoryRow>)
    ensures Expanded(a + b) == Expanded(a) + Expanded(b)
  {
    FlatMapAppend(RowMessages, a, b);
  }

  /** Every expanded message has text, and each row gives at most two. */
  lemma {:induction false} ExpandedShape(rows: seq<HistoryRow>)
    ensures |Expanded(rows)| <= 2 * |rows|
    ensures forall i :: 0 <= i < |Expanded(rows)| ==> Expanded(rows)[i].content != ""
  {
    if rows != [] {
      ExpandedShape(rows[..|rows| - 1]);
    }
  }

  /** The history is the greeting exactly when no row has a non-empty text
      that the expansion keeps. */
  lemma {:induction false} ExpandedEmpty(rows: seq<HistoryRow>)
    ensures Expanded(rows) == [] <==> forall i :: 0 <= i < |rows| ==> RowMessages(rows[i]) == []
  {
    if rows != [] {
      ExpandedEmpty(rows[..|rows| - 1]);
      assert forall i :: 0 <= i < |rows| - 1 ==> rows[..|rows| - 1][i] == rows[i];
    }
  }

  /** The loop that builds the history from the fetched rows. */
  method ExpandHistory(rows: seq<HistoryRow>) returns (hist: seq<ChatMessage>)
    ensures hist == History(rows)
  {
    hist := [];
    for i := 0 to |rows|
      invariant hist == Expanded(rows[..i])
    {
      assert rows[..i + 1][..i] == rows[..i];
      var row := rows[i];
      var content := TextOf(row.content);
      var response := TextOf(row.response);
      if row.role == Some("assistant") {
        if content != "" {
          hist := hist + [ChatMessage(Assistant, content)];
        }
      } else {
        if content != "" {
          hist := hist + [ChatMessage(User, content)];
        }
        if response != "" {
          hist := hist + [ChatMessage(Assistant, response)];
        }
      }
    }
    assert rows[..|rows|] == rows;
    if |hist| == 0 {
      hist := hist + [ChatMessage(Assistant, Greeting)];
    }
  }

  /** The messages after the history request: the built history when the
      request returned a message array, the current messages otherwise. */
  method LoadHistory(current: seq<ChatMessage>, fetched: HistoryFetch) returns (messages: seq<ChatMessage>)
    ensures fetched.Rows? ==> messages == History(fetched.rows)
    ensures !fetched.Rows? ==> messages == current
  {
    messages := current;
    if fetched.Rows? {
      messages := ExpandHistory(fetched.rows);
    }
  }
}
