# EcoWell core in Dafny

EcoWell is a web application for managing village wells. It keeps a list of
wells with their owners and their latest sensor readings (pH, TDS,
temperature, water level). It marks wells as offline when they go quiet,
mails alerts to the owner when a well turns critical, and plans a greedy
inspection route across the wells. It also has a chat assistant that answers
"which wells are critical" from the latest readings and feeds a notification
list.

This project models the decision logic of that core and proves properties of
it. Each source file becomes one Dafny module:

- `RoutePlanner` (`route_planner.dfy`) models the route planner of the
  sidebar: excluding wells, the starting point (device position or centroid),
  the nearest-neighbour loop, total distance and travel time, and the Google
  Maps directions link.
- `Sidebar` (`sidebar.dfy`) models the metric badges of the sidebar and the
  expansion of the chat history into user and assistant bubbles.
- `WellsApi` (`wells_api.dfy`) models the wells API. Its GET side lists wells
  with their latest reading and the offline rule. Its POST side saves wells
  and raises alert e-mails on status transitions.
- `ChatApi` (`chat_api.dfy`) models the chat API:
  - the last user message;
  - the latest reading per well;
  - the critical-wells classifier and its report;
  - the history limit;
  - the model fallback list;
  - the `neatFormat` text formatter.
- `NotificationsApi` (`notifications_api.dfy`) models notifications
  synthesized from recent chat rows: the alert keywords, the 280-character
  body and the limits.
- `MapsPage` (`maps_page.dfy`) models the map page's transformation of API
  rows into map markers, and its loading states.
- `Mailer` (`mailer.dfy`) models the SMTP transport configuration and the
  text of the verification, reset and alert e-mails.
- `EnvGuard` (`env_guard.dfy`) models the check for required Supabase
  variables and the redacted environment snapshot.
- `UserContext` (`user_context.dfy`) models the signed-in user session as a
  class: the role computation, refresh, sign-out and the load on mount.
- `Utils` (`utils.dfy`) models the three-colour LED derived from a distance
  reading and its CSS class.
- `Common` (`common.dfy`) holds what several modules share: environment
  lookup, JavaScript truthiness, `trim`, `parseInt`, clamped query limits,
  and the "first row per key" fold.

Collaborators the code cannot see are parameters:

- the database (rows are inputs);
- the clock (`nowMs`) and date parsing (`dateMs`);
- the great-circle distance (`dist`);
- number formatting, URL encoding and upper-casing;
- the outcome of each upsert.

Readings are real numbers.

## Model

| member | source | states |
|---|---|---|
| RoutePlanner.Toggled | components/sidebar.tsx:465-471 | toggling an id flips whether that id is excluded and leaves every other id as it was |
| RoutePlanner.ToggleTwice | components/sidebar.tsx:465-471 | toggling the same well twice restores the exclusion set |
| RoutePlanner.ActiveWells | components/sidebar.tsx:516 | an excluded well never appears among the active wells; every other well appears exactly as often as in the list; with nothing excluded the list is kept as it is |
| RoutePlanner.ActiveWellsAppend | components/sidebar.tsx:516 | filtering distributes over concatenation, so the active wells keep the order of the list |
| RoutePlanner.Mean | components/sidebar.tsx:535-537 | the mean of a non-empty list is not below every element and not above every element; the mean of one value is that value |
| RoutePlanner.MeanWithinRange | components/sidebar.tsx:535-537 | some element times the count is at most the sum, and some element times the count is at least the sum |
| RoutePlanner.MeanBounds | components/sidebar.tsx:535-537 | the sum divided by the count lies between the smallest and the largest element |
| RoutePlanner.Centroid | components/sidebar.tsx:534-538 | the centroid's latitude and longitude each lie within the range of the active wells; a single well is its own centroid |
| RoutePlanner.StartPoint | components/sidebar.tsx:529-538 | the route starts at the device position when it is known, otherwise at the centroid of the active wells |
| RoutePlanner.NearestIndex | components/sidebar.tsx:542-548 | the chosen well is at least as near as every remaining well, and every earlier well is strictly farther (ties go to the first) |
| RoutePlanner.ScanNearest | components/sidebar.tsx:543-548 | the inner scan finds exactly the nearest index and its distance |
| RoutePlanner.RemoveAt | components/sidebar.tsx:549 | splicing removes exactly one occurrence of the chosen well |
| RoutePlanner.Greedy | components/sidebar.tsx:539-553 | the nearest-neighbour route has one stop per remaining well |
| RoutePlanner.Plan | components/sidebar.tsx:516-554 | the plan has one stop per active well, and it is empty iff every well is excluded |
| RoutePlanner.Visited | components/sidebar.tsx:549-550 | the wells of a route, stop by stop |
| RoutePlanner.GreedyIsPermutation | components/sidebar.tsx:542-552 | the nearest-neighbour route visits every remaining well exactly once |
| RoutePlanner.GreedyLegs | components/sidebar.tsx:549-551 | each stop's distance from the previous stop is the distance from the start or from the previous well |
| RoutePlanner.NearestIndexIsNearest | components/sidebar.tsx:543-548 | the well at the nearest index is nearest among all wells still to be visited |
| RoutePlanner.GreedyIsNearest | components/sidebar.tsx:542-552 | every stop of the route is a nearest unvisited well as seen from the previous stop |
| RoutePlanner.SingleWellRoute | components/sidebar.tsx:542-552 | one well gives a one-stop route whose leg is that well's distance from the start |
| RoutePlanner.PlanVisitsIncludedWells | components/sidebar.tsx:516-554 | the planned route visits exactly the wells that are not excluded, each once, starting from the start point |
| RoutePlanner.RouteOrder | components/sidebar.tsx:525-554 | the imperative planner (empty case, start point, while loop) yields the specified plan |
| RoutePlanner.VisitGreedily | components/sidebar.tsx:539-553 | the while loop that repeatedly picks and splices the nearest well produces the greedy route |
| RoutePlanner.GreedyAdvance | components/sidebar.tsx:549-551 | one iteration of the loop preserves "stops so far + greedy route of the rest = whole route" |
| RoutePlanner.GreedyStep | components/sidebar.tsx:543-551 | the greedy route of a non-empty pool starts with the nearest well, followed by the route of the rest from that well |
| RoutePlanner.DistancesFromPosition | components/sidebar.tsx:517-522 | without a position there are no distances; with one, each active well is paired with its distance from the position |
| RoutePlanner.TotalDistance | components/sidebar.tsx:557 | an empty route totals 0; a route whose legs are all non-negative totals at least 0; a one-stop route totals its one leg |
| RoutePlanner.GreedyTotalIsPathLength | components/sidebar.tsx:557 | the total distance is the length of the path through the visited wells, and it is non-negative when distances are |
| RoutePlanner.EstimatedMinutes | components/sidebar.tsx:586 | the time estimate corresponds to 40 km/h, is non-negative for a non-negative distance, and is zero for zero distance |
| RoutePlanner.EmptyPlan | components/sidebar.tsx:526-586 | when all wells are excluded the route is empty, with zero distance and zero minutes |
| RoutePlanner.FindByName | components/sidebar.tsx:565 | `wells.find` by name: the result is the first well in the list with that name, or nothing exactly when no well has the name |
| RoutePlanner.StopCoords | components/sidebar.tsx:566 | each stop is written as its own well's "lat,lng" |
| RoutePlanner.CoordsByName | components/sidebar.tsx:563-567 | at most one coordinate text per stop, and exactly one per stop when every stop is among the wells searched |
| RoutePlanner.LinkFromCoords | components/sidebar.tsx:568-582 | no link iff there are no coordinates; the destination is the last coordinate; the waypoints are the earlier ones joined by "\|", absent for a single coordinate; an origin iff the position is known |
| RoutePlanner.DirectionsAsWritten | components/sidebar.tsx:560-582 | no link for an empty route; when every stop is among the wells searched, a link iff the route is non-empty; an origin iff the position is known |
| RoutePlanner.Directions | components/sidebar.tsx:560-574 | there is a link iff the route is non-empty; the destination is the last stop; waypoints are the earlier stops joined by "\|", present iff there is more than one stop; there is an origin iff the position is known |
| RoutePlanner.DirectionsUrl | components/sidebar.tsx:571-582 | the four branches of the source give one layout: the base URL, the encoded origin when there is one, the encoded destination, the encoded waypoints when there are any, then the driving travel mode |
| RoutePlanner.DuplicateNameLinksWrongWell | components/sidebar.tsx:563-567 | with two wells of the same name, the link built by name lookup points at the excluded well rather than the one on the route |
| RoutePlanner.PlanOfSecondWell | components/sidebar.tsx:516-554 | excluding the first of two wells plans a route through the second only |
| RoutePlanner.LinkOfOneStop | components/sidebar.tsx:563-574 | for a one-stop route, the link built by name points at the found well's coordinates |
| RoutePlanner.FindByUniqueName | components/sidebar.tsx:565 | when names are unique, looking a well up by its name finds that well |
| RoutePlanner.CoordsAgreeOnUniqueNames | components/sidebar.tsx:563-567 | when names are unique, the coordinates found by name are the stops' own coordinates |
| RoutePlanner.DirectionsAgreeOnUniqueNames | components/sidebar.tsx:560-582 | when names are unique, the link built by name equals the link built from the stops themselves |
| Sidebar.MetricStatus | components/sidebar.tsx:66-84 | for each metric, the badge is good or critical exactly within the stated bands; the remainder is warning |
| Sidebar.TdsSeverityMonotone | components/sidebar.tsx:72-75 | a higher TDS never gets a milder badge |
| Sidebar.WaterLevelSeverityAntitone | components/sidebar.tsx:80-83 | a higher water level never gets a worse badge |
| Sidebar.BandedSeverityBetween | components/sidebar.tsx:68-79 | for pH and temperature, a value between two others is never worse than both of them |
| Sidebar.RowMessages | components/sidebar.tsx:700-709 | an assistant row yields its non-empty content; a user row yields its non-empty content, then its non-empty response as an assistant bubble |
| Sidebar.Expanded | components/sidebar.tsx:699-710 | every bubble of the expansion comes from some row, and every bubble of every row is in the expansion |
| Sidebar.History | components/sidebar.tsx:699-713 | the history is never empty: the expanded rows, or the greeting alone when they expand to nothing |
| Sidebar.ExpandedAppend | components/sidebar.tsx:699-710 | rows expand independently: expanding a concatenation concatenates the expansions |
| Sidebar.ExpandedShape | components/sidebar.tsx:699-710 | each row yields at most two bubbles, and no bubble is empty |
| Sidebar.ExpandedEmpty | components/sidebar.tsx:699-713 | the expansion is empty iff every row yields nothing |
| Sidebar.ExpandHistory | components/sidebar.tsx:699-713 | the loop over the fetched rows builds exactly the specified history |
| Sidebar.LoadHistory | components/sidebar.tsx:694-716 | a successful fetch replaces the messages with the history; any failure leaves them unchanged |
| WellsApi.OfflineBoundary | app/api/wells/route.ts:62-66 | a reading exactly two hours old is still online; one millisecond later the well is offline |
| WellsApi.OfflineStaysOffline | app/api/wells/route.ts:62-66 | once a well is offline it stays offline as time passes |
| WellsApi.IsOffline | app/api/wells/route.ts:62-66 | a well with no reading or an empty timestamp is offline; with a timestamp parsed to t it is offline iff t is more than two hours before now; a timestamp that does not parse never makes it offline |
| WellsApi.EffectiveStatus | app/api/wells/route.ts:67 | an offline well reports "offline"; otherwise its stored status, or "active" when none is stored |
| WellsApi.ListWell | app/api/wells/route.ts:58-81 | a listed well copies the id, owner id, name, panchayat, coordinates, creation time and latest reading; its status is the effective status; its village is the row's, else the owner's location, else missing; its contact phone is the owner's phone when non-empty, else missing |
| WellsApi.MetricsQuery | app/api/wells/route.ts:42-47 | the metrics query returns the newest-first prefix of the readings with exactly min(number of readings, twice the number of wells) rows |
| WellsApi.Listing | app/api/wells/route.ts:58-81 | one listed well per well row, each built from that row and its latest reading |
| WellsApi.ListWells | app/api/wells/route.ts:49-81 | folding the metrics and mapping the wells yields the specified listing |
| WellsApi.ListedWellKeepsRow | app/api/wells/route.ts:58-81 | a listed well keeps the row's id, name and coordinates; its status is "offline" iff the offline rule holds or the stored status is offline; it carries the latest reading |
| WellsApi.LimitHidesRecentReading | app/api/wells/route.ts:42-66 | with two wells and five readings (four of the first well, then one fresh reading of the second), the second well is listed offline |
| WellsApi.LimitKeepsFirstFour | app/api/wells/route.ts:42-47 | the 2·n limit keeps only the first four readings of that input |
| WellsApi.LatestPerWell | app/api/wells/route.ts:40-47 | a per-well latest query returns at most one reading per well, each taken from the readings |
| WellsApi.LatestPerWellKeepsFirst | app/api/wells/route.ts:40-55 | a per-well latest query keeps each well's newest reading |
| WellsApi.NewestOfSecondWell | app/api/wells/route.ts:40-55 | on the input above, the per-well query keeps the second well's fresh reading |
| WellsApi.FirstWithKeyAppend | app/api/wells/route.ts:49-55 | the first reading for a well in a concatenation comes from the head when the head has one |
| WellsApi.IncomingWells | app/api/wells/route.ts:106 | a `wells` array is taken as given; otherwise the body is one well when it has a name, and no well when it has none |
| WellsApi.ActingUser | app/api/wells/route.ts:107-109 | only an admin may act for the `userId` in the body; everyone else acts as themselves |
| WellsApi.Latitude | app/api/wells/route.ts:119 | `location.lat` when present, else the flat `lat`; missing only when both are |
| WellsApi.Longitude | app/api/wells/route.ts:120 | `location.lng` when present, else the flat `lng`; missing only when both are |
| WellsApi.NewStatus | app/api/wells/route.ts:121 | the sent status when non-empty, else "active"; never empty |
| WellsApi.RowOf | app/api/wells/route.ts:119-141 | the upserted row keeps the id and name and belongs to the acting user; its status is the new status; its coordinates are the latitude and longitude above; its panchayat is `panchayat_name`, else `panchayatName`, else missing; its village is `village_name`, else `village`, else the owner's location, else missing |
| WellsApi.PreviousStatus | app/api/wells/route.ts:122-131 | no previous status without an id or without a stored row for it; otherwise the stored row's status |
| WellsApi.ShouldAlert | app/api/wells/route.ts:147 | alerts iff the new status is warning or critical and differs from the previous one: no alert for an unchanged status or any other status; a warning or critical status alerts for a new well (no previous status) and for one whose previous status was different |
| WellsApi.AlertFor | app/api/wells/route.ts:149-172 | the alert goes to the owner's non-empty e-mail and describes the upserted row with the previous status; it copies the four readings from the sent data (none without data) and is recorded at the data's time, else now |
| WellsApi.SaveStep | app/api/wells/route.ts:117-177 | a failed upsert changes nothing; a successful one appends the row and, for a well with an id, records its status; one alert is added iff the upsert succeeded, the status calls for an alert against the previous one and the owner has an e-mail, and that alert is the one built for this well, its row and its previous status |
| WellsApi.SaveWells | app/api/wells/route.ts:110-182 | the saving loop reports as many wells as were sent, and its result is the specified fold over the incoming wells |
| WellsApi.SaveAllExtends | app/api/wells/route.ts:117-181 | saving a list only appends to the saved rows and to the alerts, at most one of each per well, and never forgets a stored id |
| WellsApi.SaveAllFailed | app/api/wells/route.ts:142-145 | when every upsert fails, nothing is saved, recorded or alerted |
| WellsApi.SaveAllShape | app/api/wells/route.ts:142-177 | failed upserts are skipped; there is at most one alert per saved well; every alert goes to the owner and names a critical or warning status that differs from the previous one |
| WellsApi.SaveStepShape | app/api/wells/route.ts:117-177 | the same for a single well |
| WellsApi.RepeatedWellAlertsOnce | app/api/wells/route.ts:122-147 | sending the same well twice in one request alerts at most once, because the second save sees the first one's status |
| ChatApi.UserMessages | app/api/chat/route.ts:25 | the filtered messages are all user messages, and no more than the input |
| ChatApi.LastUser | app/api/chat/route.ts:25 | the question is the content of the last user message, or empty when there is none |
| ChatApi.UserMessagesAppend | app/api/chat/route.ts:25 | filtering distributes over concatenation |
| ChatApi.LastUserAfter | app/api/chat/route.ts:25 | appending a user message makes it the question; appending any other message leaves the question unchanged |
| ChatApi.LatestByWell | app/api/chat/route.ts:86-94 | there are no readings without wells; otherwise each well maps to its first (newest) reading among the first 1000 rows, and a well without one is absent |
| ChatApi.Reasons | app/api/chat/route.ts:194-198 | there are at most three reasons |
| ChatApi.WellName | app/api/chat/route.ts:191 | the well's name when non-empty, else "Well " and the id; never empty |
| ChatApi.ReasonsExact | app/api/chat/route.ts:194-198 | high TDS iff TDS > 1000; abnormal pH iff pH < 6.5 or > 8.5; low water iff level < 2; always in that order |
| ChatApi.ClassifyWells | app/api/chat/route.ts:189-200 | the loop lists the critical wells in order and evaluates every well, with or without a reading |
| ChatApi.CriticalWells | app/api/chat/route.ts:189-200 | no more critical wells than wells; each critical well has non-empty reasons, which are the reasons of its reading |
| ChatApi.CriticalWellsAppend | app/api/chat/route.ts:189-200 | the critical wells of two lists one after the other are those of the first followed by those of the second, so the report keeps the wells' order and multiplicity |
| ChatApi.CriticalWellsOne | app/api/chat/route.ts:192-199 | a single well is reported, with its name, reasons and reading, iff it is critical |
| ChatApi.CriticalWellsExact | app/api/chat/route.ts:189-200 | a well is reported critical iff it has a reading with at least one reason, and each report carries that well's name and reasons |
| ChatApi.ReasonTexts | app/api/chat/route.ts:194-210 | each reason is rendered in the order of the reasons |
| ChatApi.EntryLines | app/api/chat/route.ts:209-216 | each critical well contributes six lines: its number from one and its name; "Reasons:" with the reason texts joined by "; "; then TDS, temperature, water level and pH, each with its unit or "—" when the reading is missing |
| ChatApi.Entries | app/api/chat/route.ts:208-216 | one block of lines per critical well, numbered by position |
| ChatApi.FlattenBlocks | app/api/chat/route.ts:208-216 | joining six-line blocks gives six lines per block, line j of block i at 6·i + j |
| ChatApi.ReportLines | app/api/chat/route.ts:207-218 | the first line is the header with the critical and evaluated counts written in decimal, and the last line is the thresholds line |
| ChatApi.ReportLinesShape | app/api/chat/route.ts:206-218 | the report has a header with the counts, then for the i-th critical well its six entry lines at 1 + 6·i .. 6 + 6·i, the first numbering it i + 1 with its name, and the threshold line last |
| ChatApi.Framed | app/api/chat/route.ts:206-218 | a header and a footer around a body place the body at offset one |
| ChatApi.CriticalAnswer | app/api/chat/route.ts:201-220 | no wells, no critical wells, and the report are the three answers, chosen by well and critical counts |
| ChatApi.HistoryLimit | app/api/chat/route.ts:286 | the history limit is within 1..200: a missing or empty parameter, unparsable text or 0 gives 50; a parsed value within 1..200 is kept, above 200 gives 200, below 0 gives 1 |
| ChatApi.Distinct | app/api/chat/route.ts:149-153 | deduplication keeps exactly the same members, without repeats, starting with the first element |
| ChatApi.FirstIndex | app/api/chat/route.ts:149-153 | the index of the first occurrence of a value in a list |
| ChatApi.DistinctKeepsFirstOccurrenceOrder | app/api/chat/route.ts:149-153 | the deduplicated list is ordered by first occurrence in the input, as a `Set` iterates |
| ChatApi.CandidateModels | app/api/chat/route.ts:148-153 | exactly [flash, pro] when flash is configured or nothing is, [pro, flash] when pro is configured, and [configured, flash, pro] otherwise |
| ChatApi.DistinctCandidates | app/api/chat/route.ts:149-153 | deduplicating [requested, flash, pro] gives [flash, pro], [pro, flash] or all three in that order |
| ChatApi.LabelsStartVisible | app/api/chat/route.ts:419 | no metric label starts with whitespace |
| ChatApi.FirstLabel | app/api/chat/route.ts:419 | the label found is one of the labels and starts the text; nothing is found iff no label starts it |
| ChatApi.SpaceRun | app/api/chat/route.ts:419 | the run of whitespace at the front is maximal |
| ChatApi.LabelAfterSpace | app/api/chat/route.ts:419 | a match needs at least one whitespace character, followed by a label that fits within the text |
| ChatApi.LabelAfterSpaceMatches | app/api/chat/route.ts:419 | a match means the text continues with that label right after the whitespace run |
| ChatApi.ScanStep | app/api/chat/route.ts:419-420 | each step of the replacement consumes at least one character |
| ChatApi.ScanStepCases | app/api/chat/route.ts:419-420 | a step copies one character when no whitespace run followed by a label starts the text; otherwise it emits a line break and the label and consumes the run and the label |
| ChatApi.BreakBeforeVisible | app/api/chat/route.ts:419-420 | breaking lines before labels changes only whitespace |
| ChatApi.BreakBeforeLabel | app/api/chat/route.ts:419-420 | whitespace followed by a label is replaced by one line break before the label |
| ChatApi.BreakBeforeStepAt | app/api/chat/route.ts:419-420 | the replacement proceeds left to right: the text emitted by one step, then the replacement of the rest |
| ChatApi.BreakBeforePlain | app/api/chat/route.ts:419-420 | text without whitespace passes through the replacement unchanged |
| ChatApi.LabelAfterSpacePrefix | app/api/chat/route.ts:419 | whitespace in front of a label is matched as a whole, with that label |
| ChatApi.SpaceRunPrefix | app/api/chat/route.ts:419 | the whitespace run stops at the first non-whitespace character |
| ChatApi.NewlineRun | app/api/chat/route.ts:422 | the run of line breaks at the front is maximal |
| ChatApi.CollapseRun | app/api/chat/route.ts:422 | a run of two or more line breaks becomes exactly two |
| ChatApi.CollapseKeeps | app/api/chat/route.ts:422 | a character that does not start a run of line breaks is copied as is |
| ChatApi.CollapseNewlinesShape | app/api/chat/route.ts:422 | after collapsing there are never three line breaks in a row, and the first character is kept |
| ChatApi.CollapseNewlinesVisible | app/api/chat/route.ts:422 | collapsing line breaks changes only whitespace |
| ChatApi.CollapseNewlinesPlain | app/api/chat/route.ts:422 | text without whitespace is left unchanged |
| ChatApi.Visible | app/api/chat/route.ts:416-424 | the non-whitespace characters of a text are no more than the text |
| ChatApi.VisibleAppend | app/api/chat/route.ts:416-424 | the visible characters of a concatenation concatenate |
| ChatApi.VisibleOfSpaces | app/api/chat/route.ts:416-424 | whitespace has no visible characters |
| ChatApi.VisibleSplit | app/api/chat/route.ts:416-424 | the visible characters split at any index |
| ChatApi.VisibleAfterSpaces | app/api/chat/route.ts:416-424 | leading whitespace contributes nothing visible |
| ChatApi.VisibleNewlineFront | app/api/chat/route.ts:420 | the inserted line break contributes nothing visible |
| ChatApi.VisibleBreak | app/api/chat/route.ts:419-420 | replacing whitespace and a label by a break and the label keeps the visible characters |
| ChatApi.VisibleCons | app/api/chat/route.ts:419-420 | copying one character keeps the visible characters |
| ChatApi.TrimStartVisible | app/api/chat/route.ts:423 | trimming the front changes only whitespace |
| ChatApi.TrimEndVisible | app/api/chat/route.ts:423 | trimming the end changes only whitespace |
| ChatApi.TrimVisible | app/api/chat/route.ts:423 | trimming changes only whitespace |
| ChatApi.NeatFormatKeepsVisible | app/api/chat/route.ts:416-424 | formatting never adds, drops or reorders a visible character |
| ChatApi.NoTripleBreakDrop | app/api/chat/route.ts:422-423 | a suffix keeps the "no three line breaks" property |
| ChatApi.NoTripleBreakTake | app/api/chat/route.ts:422-423 | a prefix keeps the "no three line breaks" property |
| ChatApi.TrimStartNoTripleBreak | app/api/chat/route.ts:422-423 | trimming the front keeps the property |
| ChatApi.TrimEndNoTripleBreak | app/api/chat/route.ts:422-423 | trimming the end keeps the property |
| ChatApi.TrimNoTripleBreak | app/api/chat/route.ts:422-423 | trimming keeps the property |
| ChatApi.NeatFormatShape | app/api/chat/route.ts:416-424 | empty text is returned as is; the result has no whitespace at either end and never three line breaks in a row |
| ChatApi.NeatFormat | app/api/chat/route.ts:416-424 | empty text is returned as is; otherwise the result has no whitespace at either end |
| ChatApi.NeatFormatPlainText | app/api/chat/route.ts:416-424 | text without whitespace is returned unchanged |
| NotificationsApi.NotificationLimit | app/api/notifications/route.ts:12 | the limit is within 1..100: a missing or empty parameter, unparsable text or 0 gives 20; a parsed value within 1..100 is kept, above 100 gives 100, below 0 gives 1 |
| NotificationsApi.RecentRows | app/api/notifications/route.ts:31-35 | the query returns the newest rows: exactly twice the limit when that many exist, and all of them otherwise |
| NotificationsApi.HighTdsFrom | app/api/notifications/route.ts:41 | "high", whitespace, "tds" is matched at a position iff it occurs there, ignoring case |
| NotificationsApi.OnlyWholeRun | app/api/notifications/route.ts:41 | the whitespace in "high tds" can be matched only as the whole run |
| NotificationsApi.SpaceRun | app/api/notifications/route.ts:41 | the whitespace run from a position is maximal |
| NotificationsApi.MentionsAlertFrom | app/api/notifications/route.ts:41 | the scan finds an alert keyword iff one occurs at or after the position |
| NotificationsApi.KindOf | app/api/notifications/route.ts:41 | a text is an alert iff it mentions critical, alert, warning, high tds or unsafe, in any case |
| NotificationsApi.Body | app/api/notifications/route.ts:43 | the body is at most 280 characters: the text itself, or its first 277 characters and an ellipsis |
| NotificationsApi.TextOf | app/api/notifications/route.ts:38 | the response when non-empty, else the content when non-empty, else empty; empty iff both are |
| NotificationsApi.Notify | app/api/notifications/route.ts:37-44 | a row gives no notification iff it has neither response nor content; otherwise the notification keeps the row's id, time and username; its body is the shortened text; it is an alert iff the text mentions an alert keyword; its title is "Health Alert" for an alert and "Update" otherwise |
| NotificationsApi.NotifyList | app/api/notifications/route.ts:36-46 | a row gives at most one notification |
| NotificationsApi.Synthesized | app/api/notifications/route.ts:36-46 | there are no more notifications than rows |
| NotificationsApi.SynthesizedLength | app/api/notifications/route.ts:36-46 | the same for the flattened list |
| NotificationsApi.SynthesizedAppend | app/api/notifications/route.ts:36-46 | rows are turned into notifications independently |
| NotificationsApi.SynthesizedExact | app/api/notifications/route.ts:36-46 | every notification comes from some row, and every row with text gives one |
| NotificationsApi.SynthesizedBodies | app/api/notifications/route.ts:36-46 | every body is at most 280 characters |
| NotificationsApi.Notifications | app/api/notifications/route.ts:31-47 | the response is the first `limit` notifications of the recent rows: all of them when there are at most `limit`, exactly `limit` otherwise; every body is at most 280 characters |
| MapsPage.Pick | app/maps/page.tsx:46-49 | a metric's value wins over the row's value, which wins over the default |
| MapsPage.LastUpdated | app/maps/page.tsx:51 | the reading's time wins over the row's last time; "now" only when both are missing |
| MapsPage.Transform | app/maps/page.tsx:34-55 | a marker keeps the row's id, name and coordinates; its status is the row's when non-empty, else `active`; its village is `village_name`, else `location`, else missing; its panchayat is the row's when non-empty; its contact is `contact_phone`, else `phone`, else missing; its time is the last update; turbidity comes from the reading; it starts with no history |
| MapsPage.DefaultsOnlyWhenMissing | app/maps/page.tsx:46-49 | each of pH, TDS, temperature and water level is the reading's value when present, else the row's value when present, else the default |
| MapsPage.TransformAll | app/maps/page.tsx:34 | one marker per row, in order |
| MapsPage.Load | app/maps/page.tsx:21-62 | a cancelled load changes nothing; no user or a thrown fetch clears the wells; a failed response keeps them; a success replaces them with one marker per row and selects the first, none for no rows |
| MapsPage.SelectedIsShown | app/maps/page.tsx:56 | after a load, the selected well, if any, is one of the wells shown |
| Utils.Led3 | lib/utils.ts:16-22 | no colour for a missing or non-numeric distance; green iff at most 16; red iff at least 20; orange otherwise |
| Utils.Led3Monotone | lib/utils.ts:16-22 | a larger distance never gives a milder colour |
| Utils.Led3ColorToBg | lib/utils.ts:24-35 | green, orange and red give the emerald, amber and red background classes; no colour gives gray |
| Utils.Led3ColorToBgInjective | lib/utils.ts:24-35 | distinct LED states map to distinct CSS classes |
| Mailer.GetTransport | lib/mailer.ts:4-15 | the transport fails iff `SMTP_HOST` is unset; the port is `SMTP_PORT` or 587; secure iff the port is 465; authentication iff `SMTP_USER` is set |
| Mailer.DefaultPort | lib/mailer.ts:8-12 | without `SMTP_PORT` the port is 587 and the connection is not secure |
| Mailer.ParsePort587 | lib/mailer.ts:8 | the default port text parses to 587 |
| Mailer.VerifyAndResetDiffer | lib/mailer.ts:19-34 | a verification link never equals a reset link |
| Mailer.VerificationMail | lib/mailer.ts:17-30 | the mail fails iff the transport fails; otherwise it goes to the user from the account sender, with the subject "Verify your EcoWell email" and the verification link |
| Mailer.ResetMail | lib/mailer.ts:32-44 | the mail fails iff the transport fails; otherwise it goes to the user from the account sender, with the subject "Reset your EcoWell password" and the reset link |
| Mailer.LocationBits | lib/mailer.ts:74 | the village and panchayat, whichever are set, joined by ", " |
| Mailer.Coord | lib/mailer.ts:75 | coordinates are shown iff both latitude and longitude are known, as "(lat, lng)" with five decimals each |
| Mailer.TransitionLine | lib/mailer.ts:77-79 | a transition is shown iff a different previous status is known; otherwise only the new status |
| Mailer.PresentRows | lib/mailer.ts:81-85 | only the present metrics are listed |
| Mailer.PresentRowsOfTable | lib/mailer.ts:81-85 | the rows are the present metrics, in table order |
| Mailer.MetricRows | lib/mailer.ts:81-85 | the loop builds exactly the present rows |
| Mailer.MetricRowsExact | lib/mailer.ts:81-85 | one row per present metric, in the order pH, TDS, temperature, water level |
| Mailer.MetricsSection | lib/mailer.ts:87 | a placeholder when there are no metrics, otherwise the rows one per line |
| Mailer.Guidance | lib/mailer.ts:91-93 | the critical guidance iff the status is "critical", the warning guidance otherwise |
| Mailer.AlertSubject | lib/mailer.ts:95 | the subject is "EcoWell Alert: ", the well's name, " is " and the upper-cased status, in that order |
| Mailer.AlertText | lib/mailer.ts:96 | the text starts with the well's name line and ends with the "View:" line carrying the manage link |
| Mailer.AlertMail | lib/mailer.ts:69-115 | the alert fails iff the transport fails; otherwise it goes to the owner from `MAIL_FROM` or the default sender, with the subject and text built from the parts above |
| EnvGuard.Unset | lib/env-guard.ts:15 | the missing names are exactly the required names that are unset or empty |
| EnvGuard.UnsetIsSubsequence | lib/env-guard.ts:15 | the missing names keep the order of the required list |
| EnvGuard.UnsetDistinct | lib/env-guard.ts:15 | the missing names are not repeated |
| EnvGuard.ValidateSupabaseEnv | lib/env-guard.ts:9-17 | the report is ok iff nothing is missing; the missing list is exactly the unset required variables, in order and without repeats |
| EnvGuard.Redact | lib/env-guard.ts:29 | an unset value stays unset; a set one shows at most its first six characters, then an ellipsis |
| EnvGuard.RedactHidesTail | lib/env-guard.ts:29 | two secrets that share their first six characters redact identically |
| EnvGuard.RedactedEnvSnapshot | lib/env-guard.ts:28-35 | the URL is shown as is; both keys are redacted; the model name is present only when set |
| UserContext.ComputeRole | components/user-context.tsx:27-32 | no user has no role; a user is admin iff their email is the admin email (or its default), otherwise panchayat |
| UserContext.AdminsShareEmail | components/user-context.tsx:29-31 | any two admins have the same email |
| UserContext.Session.constructor | components/user-context.tsx:24-26 | a new session has no user and no role, and is loading |
| UserContext.Session.Refresh | components/user-context.tsx:34-45 | the user is the fetched one, or none when the fetch fails; the role follows the user; loading is untouched |
| UserContext.Session.SignOut | components/user-context.tsx:47-50 | signing out refreshes the session the same way |
| UserContext.Session.MountLoad | components/user-context.tsx:52-63 | a mounted session ends up with the fetched user and stops loading; an unmounted one is left alone |
| UserContext.UseUser | components/user-context.tsx:17-21 | outside a provider the hook fails with its message; inside it returns the session |
| Common.EnvVar | lib/mailer.ts:5-6 | an environment lookup finds a value iff the name is set |
| Common.OrElse | app/api/chat/route.ts:148 | `s \|\| d`: the value when non-empty, else the default; never empty when the default is not |
| Common.FirstTruthy | app/maps/page.tsx:40-42 | `a \|\| b \|\| …` yields the first non-empty candidate, or nothing iff all are empty |
| Common.Coalesce | app/api/wells/route.ts:119-120 | `a ?? b ?? …` yields the first present candidate, or nothing iff all are missing |
| Common.Join | app/api/chat/route.ts:219 | joining no parts gives the empty text; a non-empty first part gives a non-empty result |
| Common.JoinCons | lib/mailer.ts:74 | joining a first part onto the rest gives the part alone when nothing follows, else the part, the separator and the join of the rest |
| Common.FlatMapMembers | app/api/notifications/route.ts:36-46 | an element of a flattened map comes from some input, and every element of every input is present |
| Common.FlatMapAppend | app/api/notifications/route.ts:36-46 | a flattened map distributes over concatenation |
| Common.TrimStart | app/api/chat/route.ts:423 | trimming the front removes exactly the leading whitespace |
| Common.TrimEnd | app/api/chat/route.ts:423 | trimming the end removes exactly the trailing whitespace |
| Common.Trim | app/api/chat/route.ts:423 | a trimmed text starts and ends with non-whitespace, and it is the slice of the input that starts right after the leading whitespace |
| Common.TrimDropsOnlySpace | app/api/chat/route.ts:423 | everything trimming removes, before and after the result, is whitespace |
| Common.TrimOfPlain | app/api/chat/route.ts:423 | text without whitespace is left unchanged |
| Common.DigitChar | app/api/chat/route.ts:286 | a digit character has the digit's value |
| Common.DigitPrefix | app/api/chat/route.ts:286 | the digits `parseInt` reads form the longest leading run of digits |
| Common.DecimalText | app/api/chat/route.ts:207-209 | a number is written as a non-empty string of digits |
| Common.DecimalTextValue | app/api/chat/route.ts:207-209 | the digits written for a number have that number's value |
| Common.DigitPrefixOfDigits | app/api/chat/route.ts:286 | a string of digits is read whole |
| Common.ParseInt | app/api/chat/route.ts:286 | `parseInt(s, 10)`: whitespace alone does not parse; a negative result needs a minus sign after the leading whitespace |
| Common.ParseDigits | app/api/chat/route.ts:286 | a non-empty string of digits parses to its decimal value |
| Common.ParseDecimalText | app/api/chat/route.ts:286 | `parseInt` of the decimal text of a number gives that number back |
| Common.LimitParam | app/api/chat/route.ts:286 | the limit is within bounds; a missing value gives the clamped default; a non-zero parsed value is clamped into the bounds (kept when within them); unparsable text or 0 falls back to the clamped default |
| Common.FirstPerKey | app/api/wells/route.ts:49-55 | the fold has a key iff some row has it, and each key's value is a row with that key |
| Common.FirstWithKey | app/api/chat/route.ts:91-93 | the first row with a key, or nothing iff no row has the key |
| Common.FirstWithKeyAt | app/api/chat/route.ts:91-93 | a row preceded by no row with its key is the first with that key |
| Common.FirstPerKeyLookup | app/api/chat/route.ts:91-93 | looking a key up in the fold gives the first row with that key, because a later row never overwrites an earlier one |

## Left out

- The chat route's intent regex, which decides when the critical-wells report is produced (app/api/chat/route.ts:185), is not modelled. Neither are the Gemini calls, prompts and streaming (app/api/chat/route.ts:97-183 and the streaming branch). The classifier and the answer are modelled as they are computed once that branch is taken.
- Session cookies, session-table lookups and every SQL or Supabase query are left out. Their results are inputs to the model.
- The notifications route's branch that reads a dedicated `notifications` table (app/api/notifications/route.ts:15-28) is left out: it returns the table's rows unchanged.
- Great-circle distance (`haversine`) is the parameter `dist`. If it returned NaN, the source would keep index 0 and record a leg of 0; that case is not modelled.
- Coordinates, readings and distances are exact reals, not IEEE doubles. `toFixed`, `toLocaleString`, `encodeURIComponent` and `toUpperCase` are parameters of the model.
- `Date.now()` is the parameter `nowMs`, and `new Date(ts).getTime()` is the parameter `dateMs`.
- RoutePlanner.RouteOrder: a stop records the whole well, whereas the source records only its name. The name lookup that this forces is modelled separately (see Findings).
- Sidebar.MetricStatus: the `default: 'good'` case is absent, because the metric kind is a closed type.
- WellsApi.SaveWells: each alert e-mail looks up the owner's address in the source. The model uses one owner address per request, plus whether that lookup succeeded. A failed lookup of the previous status is treated as having no previous status.
- WellsApi.SaveWells: the upsert's outcome is the parameter `upsertOk`. Database errors other than a failed upsert are not modelled.
- ChatApi.Reasons: `Number(...)` conversion of stored values is not modelled; readings are reals already.
- EnvGuard.Redact: lengths count characters, not UTF-16 code units.
- NotificationsApi.Body: the same simplification applies to the 277/280 limits.
- The development-mode console warning of `validateSupabaseEnv` (lib/env-guard.ts:19-25) is left out, since it is logging only.
- Mailer: the HTML body of each e-mail is left out; the plain-text body is modelled. Sending itself (`transport.sendMail`) is I/O.
- Mailer.AlertText: only the first line and the closing link line are stated; the lines between are stated through their parts (`LocationBits`, `Coord`, `TransitionLine`, `MetricsSection`, `Guidance`). The manage, verify and reset links have no contracts of their own; they appear in the contracts of the mails and in `VerifyAndResetDiffer`.
- Common.ParseInt: the contract states the whitespace and sign cases only; the digits read are stated by `DigitPrefix`, `ParseDigits` and `ParseDecimalText`.
- UserContext.Session: the five-minute refresh timer (components/user-context.tsx:65-66) is left out. It is never cleared on unmount in the source.
- React rendering, the rest of the component state, animations and geolocation retries are left out.
- Utils.Led3: JavaScript numbers are NaN, the two infinities and exact finite reals; rounding and negative zero are not modelled.

## Findings

| source | as written | input that shows it | evidently intended | confidence | as-written member | corrected member |
|---|---|---|---|---|---|---|
| components/sidebar.tsx:563-567 | the directions link finds each stop's coordinates by looking the well up by NAME in all wells, including excluded ones | wells w1 at (0,0) and w2 at (1,1), both named "Well 1"; w1 excluded; no position — the route visits w2, but the link's destination is w1's coordinates | the link uses the coordinates of the well actually visited | not executed | RoutePlanner.DirectionsAsWritten (shown by RoutePlanner.DuplicateNameLinksWrongWell) | RoutePlanner.Directions (agreement on unique names: RoutePlanner.DirectionsAgreeOnUniqueNames) |
| app/api/wells/route.ts:42-47 | the latest reading of each well is taken from the newest 2·(number of wells) readings of all wells together | two wells a and b; readings newest first a,a,a,a,b, the b reading fresh — the limit 4 drops b's only reading, so b is listed offline | each well's own newest reading is used | not executed | WellsApi.MetricsQuery (shown by WellsApi.LimitHidesRecentReading) | WellsApi.LatestPerWell (proved by WellsApi.LatestPerWellKeepsFirst) |
