/** The notifications route, in its fallback form: notifications built from
    the newest chat rows, typed as alerts by keywords, with a bounded body. */
module NotificationsApi {
  import opened Common

  /** A chat row as the route reads it. */
  datatype ChatRow = ChatRow(id: string, response: Option<string>, content: Option<string>,
                             username: Option<string>, createdAt: string)

  datatype Kind = Alert | Info

  datatype Notification = Notification(id: string, title: string, body: string, kind: Kind,
                                       createdAt: string, username: Option<string>)

  /** The `limit` of a request: 20 by default, kept within 1..100. */
  function NotificationLimit(param: Option<string>): (limit: int)
    ensures 1 <= limit <= 100
    ensures !Truthy(param) ==> limit == 20
    ensures forall p :: Truthy(param) && ParseInt(param.value) == Some(p) && 1 <= p <= 100 ==> limit == p
    ensures forall p :: Truthy(param) && ParseInt(param.value) == Some(p) && p > 100 ==> limit == 100
    ensures forall p :: Truthy(param) && ParseInt(param.value) == Some(p) && p < 0 ==> limit == 1
    ensures Truthy(param) && (ParseInt(param.value).None? || ParseInt(param.value) == Some(0)) ==> limit == 20
  {
    LimitParam(param, 20, 1, 100)
  }

  /** The chat rows the query returns: the newest `2 * limit`. */
  function RecentRows(newestFirst: seq<ChatRow>, limit: nat): (rows: seq<ChatRow>)
    ensures |rows| <= 2 * limit && |rows| <= |newestFirst| && rows == newestFirst[..|rows|]
    ensures |newestFirst| >= 2 * limit ==> |rows| == 2 * limit
    ensures |newestFirst| <= 2 * limit ==> rows == newestFirst
  {
    if |newestFirst| <= 2 * limit then newestFirst else newestFirst[..2 * limit]
  }

  // ---------------------------------------------------------------------------
  // Keyword typing

  /** ASCII lower case; the case-insensitive pattern folds no other letter to
      one of its ASCII letters. */
  function Lower(c: char): char {
    if 'A' <= c <= 'Z' then (c as int + 32) as char else c
  }

  predicate WordAt(text: string, i: nat, w: string) {
    i + |w| <= |text| && forall k :: 0 <= k < |w| ==> Lower(text[i + k]) == w[k]
  }

  /** `n` whitespace characters (at least one) after the four letters of
      "high" at `i`, then "tds". */
  predicate SpacesThenTds(text: string, i: nat, n: nat) {
    1 <= n && i + 4 + n <= |text|
    && (forall k :: i + 4 <= k < i + 4 + n ==> IsSpace(text[k]))
    && WordAt(text, i + 4 + n, "tds")
  }

  /** "high", one or more whitespace characters, "tds", at `i`. */
  ghost predicate HighTdsAt(text: string, i: nat) {
    WordAt(text, i, "high") && exists n :: SpacesThenTds(text, i, n)
  }

  /** The keyword pattern matches at `i`. */
  ghost predicate KeywordAt(text: string, i: nat) {
    WordAt(text, i, "critical") || WordAt(text, i, "alert") || WordAt(text, i, "warning")
    || HighTdsAt(text, i) || WordAt(text, i, "unsafe")
  }

  /** The pattern `/critical|alert|warning|high\s+tds|unsafe/i` occurs. */
  ghost predicate MentionsAlert(text: string) {
    exists i :: 0 <= i < |text| && KeywordAt(text, i)
  }

  /** Whether `text` at `i` has "high", a whitespace run and "tds": since "t"
      is not whitespace, only the whole run can be followed by "tds". */
  function HighTdsFrom(text: string, i: nat): (b: bool)
    ensures b <==> HighTdsAt(text, i)
  {
    if !WordAt(text, i, "high") then false
    else
      var n := SpaceRun(text, i + 4);
      var found := n >= 1 && WordAt(text, i + 4 + n, "tds");
      OnlyWholeRun(text, i, n);
      found
  }

  lemma OnlyWholeRun(text: string, i: nat, n: nat)
    requires i + 4 + n <= |text| || n == 0
    requires forall k :: i + 4 <= k < i + 4 + n ==> IsSpace(text[k])
    requires i + 4 + n < |text| ==> !IsSpace(text[i + 4 + n])
    ensures (exists m :: SpacesThenTds(text, i, m)) <==> n >= 1 && WordAt(text, i + 4 + n, "tds")
  {
    var j := i + 4;
    if n >= 1 && WordAt(text, j + n, "tds") {
      assert SpacesThenTds(text, i, n);
    }
    forall m: nat | SpacesThenTds(text, i, m)
      ensures m == n
    {
      // A longer run would make the character after this one whitespace;
      // a shorter one would make the "t" of "tds" whitespace.
      assert WordAt(text, i + 4 + m, "tds");
      assert Lower(text[(i + 4 + m) + 0]) == "tds"[0] == 't';
    }
  }

  /** The length of the whitespace run of `text` from `j`. */
  function SpaceRun(text: string, j: nat): (n: nat)
    ensures j + n <= |text| || n == 0
    ensures forall k :: j <= k < j + n ==> IsSpace(text[k])
    ensures j + n < |text| ==> !IsSpace(text[j + n])
    decreases |text| - j
  {
    if j < |text| && IsSpace(text[j]) then 1 + SpaceRun(text, j + 1) else 0
  }

  /** The scan for the pattern from position `i` on. */
  function MentionsAlertFrom(text: string, i: nat): (b: bool)
    ensures b <==> exists k :: i <= k < |text| && KeywordAt(text, k)
    decreases |text| - i
  {
    if i >= |text| then false
    else
      var here := WordAt(text, i, "critical") || WordAt(text, i, "alert") || WordAt(text, i, "warning")
                  || HighTdsFrom(text, i) || WordAt(text, i, "unsafe");
      assert here <==> KeywordAt(text, i);
      here || MentionsAlertFrom(text, i + 1)
  }

  /** The type of a notification: an alert exactly when the pattern occurs. */
  function KindOf(text: string): (k: Kind)
    ensures k == Alert <==> MentionsAlert(text)
  {
    if MentionsAlertFrom(text, 0) then Alert else Info
  }

  // ---------------------------------------------------------------------------
  // Notifications

  const MaxBody: nat := 280

  /** The body: the text when it has at most 280 characters, else its first
      277 characters and an ellipsis. */
  function Body(text: string): (b: string)
    ensures |b| <= MaxBody
    ensures |text| <= MaxBody ==> b == text
    ensures |text| > MaxBody ==> b == text[..277] + "…"
  {
    if |text| > MaxBody then text[..277] + "…" else text
  }

  /** The text of a row: the response, else the content, else "". */
  function TextOf(r: ChatRow): (t: string)
    ensures Truthy(r.response) ==> t == r.response.value
    ensures !Truthy(r.response) && Truthy(r.content) ==> t == r.content.value
    ensures t == "" <==> !Truthy(r.response) && !Truthy(r.content)
  {
    OrElse(r.response, OrElse(r.content, ""))
  }

  /** The notification a row gives, none for a row without text. */
  function Notify(r: ChatRow): (n: Option<Notification>)
    ensures n.None? <==> !Truthy(r.response) && !Truthy(r.content)
    ensures n.Some? ==> n.value.id == r.id && n.value.createdAt == r.createdAt
    ensures n.Some? ==> (n.value.kind == Alert <==> MentionsAlert(TextOf(r)))
    ensures n.Some? ==> (n.value.title == "Health Alert" <==> n.value.kind == Alert)
    ensures n.Some? ==> |n.value.body| <= MaxBody && n.value.body == Body(TextOf(r))
    ensures n.Some? ==> n.value.title == (if n.value.kind == Alert then "Health Alert" else "Update")
    ensures n.Some? ==> n.value.username == r.username
  {
    var text := TextOf(r);
    if text == "" then None
    else
      var kind := KindOf(text);
      Some(Notification(r.id, if kind == Alert then "Health Alert" else "Update", Body(text), kind,
                        r.createdAt, r.username))
  }

  /** The notification of a row as a list: one, or none without text. */
  function NotifyList(r: ChatRow): (ns: seq<Notification>)
    ensures |ns| <= 1
  {
    if Notify(r).Some? then [Notify(r).value] else []
  }

  /** The notifications of the rows that have text, in row order. */
  function Synthesized(rows: seq<ChatRow>): (ns: seq<Notification>)
    ensures |ns| <= |rows|
  {
    SynthesizedLength(rows);
    FlatMap(NotifyList, rows)
  }

  lemma {:induction false} SynthesizedLength(rows: seq<ChatRow>)
    ensures |FlatMap(NotifyList, rows)| <= |rows|
  {
    if rows != [] {
      SynthesizedLength(rows[..|rows| - 1]);
    }
  }

  /** Synthesizing respects concatenation, so the notifications keep the
      order of their rows. */
  lemma SynthesizedAppend(a: seq<ChatRow>, b: seq<ChatRow>)
    ensures Synthesized(a + b) == Synthesized(a) + Synthesized(b)
  {
    FlatMapAppend(NotifyList, a, b);
  }

  /** Every notification comes from a row with text, and every row with text
      gives one. */
  lemma SynthesizedExact(rows: seq<ChatRow>)
    ensures forall n :: n in Synthesized(rows) ==> exists i :: 0 <= i < |rows| && Notify(rows[i]) == Some(n)
    ensures forall i :: 0 <= i < |rows| && Notify(rows[i]).Some? ==> Notify(rows[i]).value in Synthesized(rows)
  {
    FlatMapMembers(NotifyList, rows);
    forall n | n in Synthesized(rows)
      ensures exists i :: 0 <= i < |rows| && Notify(rows[i]) == Some(n)
    {
      var i :| 0 <= i < |rows| && n in NotifyList(rows[i]);
    }
  }

  /** The route's answer: the notifications of the newest `2 * limit` rows,
      at most `limit` of them. */
  function Notifications(newestFirst: seq<ChatRow>, limit: nat): (ns: seq<Notification>)
    ensures |ns| <= limit && |ns| <= |Synthesized(RecentRows(newestFirst, limit))|
    ensures ns == Synthesized(RecentRows(newestFirst, limit))[..|ns|]
    ensures forall i :: 0 <= i < |ns| ==> |ns[i].body| <= MaxBody
    ensures |Synthesized(RecentRows(newestFirst, limit))| <= limit ==> ns == Synthesized(RecentRows(newestFirst, limit))
    ensures |Synthesized(RecentRows(newestFirst, limit))| > limit ==> |ns| == limit
  {
    var all := Synthesized(RecentRows(newestFirst, limit));
    var ns := if |all| <= limit then all else all[..limit];
    SynthesizedBodies(RecentRows(newestFirst, limit));
    ns
  }

  lemma {:induction false} SynthesizedBodies(rows: seq<ChatRow>)
    ensures forall i :: 0 <= i < |Synthesized(rows)| ==> |Synthesized(rows)[i].body| <= MaxBody
  {
    if rows != [] {
      var init := rows[..|rows| - 1];
      SynthesizedBodies(init);
      assert Synthesized(rows) == Synthesized(init) + NotifyList(rows[|rows| - 1]);
    }
  }
}
