# Open Tag Manager: report aggregation and its API rules, modelled in Dafny

Open Tag Manager collects page events with a tag script. It turns the events into reports (URL link
graphs, URL and event tables, time series, goal-conversion counters), and it serves them and the
configuration behind them through two HTTP APIs: the admin API and the client API. This project is a
functional model of that core, with proofs about it. Each source file of the core has its own module.

- **Report aggregation** (`admin_stats`, `grouping`, `time_series`, `url`, `naming`): the merge loops
  of the admin stats routes. This covers the URL list, `url_links`, `url_table` with its averages,
  `event_table`, the time-series windows, `normalize_url` and the report object names. `grouping`
  holds the one first-seen group-by that every merge loop is an instance of.
- **Client views** (`url_tree`, `graph_util`, `graph_skip`, `stat_id`, `client_stats`): the path tree
  and path sample of `UrlTree.js`, and the graph helpers of `GraphUril.js`. That is `getUrls`,
  `filterByUrl`, `mergeSameId`, `lookupPath`, the two URL conversions, and `skipData` with
  `findRelatedEdge`. Also the report-name parser of `StatId.js`, and the client API's filtered URL
  view and default job range.
- **Retrievers** (`retriever_base`, `goal_query`, `goal_result`, `usage`, `data_retriever_app`,
  `log_formatter`):
  - Athena polling with its ten attempts, and the usage key.
  - The goal predicates of the term retriever, the daily retriever and the goal plugin.
  - The date-keyed upsert and sort of goal results.
  - The monthly usage rollup, and the BigQuery stats job's window and document.
  - The CloudFront log reformatter.
- **API rules** (`permission`, `client_access`, `container_routes`, `goal_routes`, `container_users`,
  `admin_users`, `json_data`): the permission decorators and `has_role`, and the configuration and
  container lookups. Also the container, goal and membership CRUD rules as functions from a store to
  an answer and a new store, and the paging and row transforms of the container-users reports.

Stores (S3 objects, DynamoDB tables, the Cognito pool) are maps passed in and returned. Athena and
BigQuery results are row sequences, or functions from attempt number to query state. The clock,
`uuid4` and `random.choices` are parameters. A Python exception is an explicit `None`, `Raised` or
`500` outcome. Integers are unbounded; where Python or JavaScript truncates (`int(ms / 1000)`), the
model says so explicitly (`Calendar.TruncDiv`).

Where the code and its description differ, the model follows the code:
- `normalize_url` is described as idempotent. It is not, for text without a scheme: `a` becomes
  `://a` and then `://://a` (`Url.NormalizeNotIdempotentWithoutScheme`). It is a fixed point on
  normalized URLs with a scheme (`Url.NormalizeFixedPoint`).
- The path tree is described as keeping `/a` and `/a/` apart. `getTree` drops one trailing empty
  segment, so they mark the same node (`UrlTree.TrailingSlash`).
- Usage of a container-users query is described as recorded when the execution first succeeds.
  The code records it whenever a result page is requested without a paging token, so requesting
  the first page twice records it twice (`ContainerUsers.UsageOnFirstPageOnly`).

Where the code has a bug (listed under "## Findings"), one member models the code as written and a
lemma exhibits the input that shows the bug. The operations built on top of it use the corrected
definition: `AdminStats.MergeTable` and `AdminStats.UrlTable` maximise `max_plt`,
`GoalQuery.TermQuery` and `GoalQuery.DailyQuery` carry `GoalQuery.Tests`, and `GoalQuery.PluginQuery`
carries `GoalQuery.PluginTests`. Each of these is listed under "## Left out".

## Model

| member | source | states |
|---|---|---|
| Url.SchemeLength | admin_api/chalicelib/stats_routes.py:19 | a scheme is recognised exactly when the text before the first ':' is a letter followed by letters, digits, '+', '-' or '.' (the scheme rule of section 3.1 of RFC 3986) |
| Url.SplitNetloc | admin_api/chalicelib/stats_routes.py:19 | the authority is taken only after a leading "//" and runs up to the first '/', '?' or '#'; authority and remainder rebuild the input |
| Url.PathPart | admin_api/chalicelib/stats_routes.py:19-20 | the path keeps no query and no fragment: it is the longest prefix free of '?' and '#' |
| Url.PathPartViaFragment | admin_api/chalicelib/stats_routes.py:19-20 | removing the fragment first and then the query leaves the same path as cutting at the first '?' or '#' |
| Url.CutParamsRejoin | admin_api/chalicelib/stats_routes.py:19-20 | cutting `;params` off the last path segment loses nothing: path = kept part + ';' + params |
| Url.CutParamsClean | admin_api/chalicelib/stats_routes.py:19-20 | after the cut no params remain on the last segment, and a path without them is kept whole |
| Url.PathAndParams | admin_api/chalicelib/stats_routes.py:19-20 | the parsed path has no query or fragment and, for schemes that use params, no trailing params |
| Url.SchemeOf | admin_api/chalicelib/stats_routes.py:19-20 | the reported scheme is empty or a valid scheme |
| Url.Parse | admin_api/chalicelib/stats_routes.py:19-20 | the components: a valid or empty scheme; an authority without '/', '?', '#'; a path without query or fragment that starts with '/' whenever an authority is present |
| Url.Stem | admin_api/chalicelib/stats_routes.py:20 | scheme + "://" + netloc + path never contains '?' or '#' |
| Url.NormalizeUrl | admin_api/chalicelib/stats_routes.py:13-22 | None exactly for a missing or empty value; the "undefined" sentinel in any letter case is returned unchanged; anything else becomes scheme://netloc+path, so query and fragment are gone |
| Url.NormalizeIdempotent | admin_api/chalicelib/stats_routes.py:13-22 | normalizing a URL that has a scheme twice gives the same as once |
| Url.NormalizeFixedPoint | admin_api/chalicelib/stats_routes.py:13-22 | `scheme://rest` with a lower-case scheme and no '?', '#' or ';' is already normalized |
| Url.NormalizeNotIdempotentWithoutScheme | admin_api/chalicelib/stats_routes.py:13-22 | without a scheme the function is not idempotent: a bare word w becomes "://w" and then "://://w" |
| Url.ParseSchemeless | admin_api/chalicelib/stats_routes.py:19 | a URL whose first ':' does not end a scheme has no scheme and, without a leading '/', no authority |
| Url.PlainPath | admin_api/chalicelib/stats_routes.py:19-20 | text without '?', '#' or ';' is its own path |
| Url.TokenizeRender | client_apis/chalicelib/stats_routes.py:27-31 | turning `{name}` placeholders into holes loses nothing: the tokens render back to the template |
| Url.FillMatches | client_apis/chalicelib/stats_routes.py:27-31 | every filling of the holes with values of the allowed shape (no '/', at least the minimum length) is matched |
| Url.MatchesFill | client_apis/chalicelib/stats_routes.py:27-31 | every match is such a filling (the converse) |
| Url.MatchUrl | client_apis/chalicelib/stats_routes.py:27-31 | False for a missing URL; otherwise a full match of the template with each `{name}` standing for one or more non-'/' characters, also allowing one final newline as Python's `$` does |
| Url.MatchUrlFill | client_apis/chalicelib/stats_routes.py:27-31 | a template with its placeholders filled by non-empty '/'-free values matches |
| Url.MatchUrlOnlyFills | client_apis/chalicelib/stats_routes.py:27-31 | a URL matches only if it is such a filling (possibly followed by one newline) |
| AdminStats.ObjectNameInjective | admin_api/chalicelib/stats_routes.py:37-44 | the report key depends only on organisation, container, the two stamps and the suffix; two ranges of valid times with four-digit years give the same key only when they are equal, so re-running a range overwrites its own report and no other |
| AdminStats.ToLinks | admin_api/chalicelib/stats_routes.py:129-133 | each query row becomes one link row with both URLs normalized, in order |
| AdminStats.Present | admin_api/chalicelib/stats_routes.py:124-127 | a normalized URL contributes itself when present and nothing when missing |
| AdminStats.Mentioned | admin_api/chalicelib/stats_routes.py:122-127 | the URLs a row contributes are exactly its present url and p_url |
| AdminStats.CollectUrls | admin_api/chalicelib/stats_routes.py:116-127 | `urls` is the first-seen distinct list of the mentioned URLs (url before p_url within a row), has no duplicate, and holds a URL exactly when some row mentions it |
| AdminStats.MentionedMember | admin_api/chalicelib/stats_routes.py:122-127 | a URL is among all mentions exactly when some row mentions it |
| AdminStats.UrlLinksSpec | admin_api/chalicelib/stats_routes.py:129-142 | grouped on the (url, p_url) pair: one entry per distinct pair in first-seen order, each entry's count is its group's sum so the total is conserved, and the title is that of the group's first row |
| AdminStats.LinkKeyCollision | admin_api/chalicelib/stats_routes.py:133 | for any lower-case schemes and '?#;'-free hosts, two rows with different endpoint pairs whose formatted keys `url-p_url` coincide are merged into one entry as written and kept apart by the pair-keyed merge |
| AdminStats.CollidingRows | admin_api/chalicelib/stats_routes.py:133 | the same collision for any normalized URLs of the shapes `x-y`, `z`, `x`, `y-z` |
| AdminStats.KeyCollisionMerges | admin_api/chalicelib/stats_routes.py:133-138 | rows whose formatted keys agree are merged even when their endpoints differ |
| AdminStats.CollisionFixedPoints | admin_api/chalicelib/stats_routes.py:13-22 | the four URLs of the collision are already normalized, so normalization cannot separate them |
| AdminStats.ToEntries | admin_api/chalicelib/stats_routes.py:502-517 | each row becomes its initial table entry, with missing counters read as 0 |
| AdminStats.MergeTable | admin_api/chalicelib/stats_routes.py:479-517 | the loop computes the (url, p_url, datetime) grouping, with max_plt maximised as the corrected merge does: one entry per key, no key twice |
| AdminStats.UrlTableMeasures | admin_api/chalicelib/stats_routes.py:485-517 | each merged row's eight counters (count, session, user, s, plt, event, w_click and t_click counts, a missing one counting 0) and its two sums (scroll_y, plt) are its group's sums, max_scroll_y and max_plt are the group's maxima, and the title is the first row's |
| AdminStats.UrlTableMaxPltAsWritten | admin_api/chalicelib/stats_routes.py:499 | as written, a merged row's max_plt is the sum of its group's max_plt values |
| AdminStats.UrlTableMaxPltCounterexample | admin_api/chalicelib/stats_routes.py:499 | two rows of one key with max_plt 100 and 200 give 300 as written and 200 when maximised |
| AdminStats.Average | admin_api/chalicelib/stats_routes.py:519-528 | the average is present exactly when the count is positive, and then average × count = sum |
| AdminStats.WithAverages | admin_api/chalicelib/stats_routes.py:519-528 | avg_scroll_y is present iff s_count > 0 and avg_plt iff plt_count > 0, each equal to its sum divided by its count; the entry itself is unchanged |
| AdminStats.UrlTable | admin_api/chalicelib/stats_routes.py:479-528 | the report has one row per merged entry of the corrected merge, each with its averages |
| AdminStats.ToEvents | admin_api/chalicelib/stats_routes.py:609-617 | each row gets its normalized url and nothing else changes |
| AdminStats.EventTableSpec | admin_api/chalicelib/stats_routes.py:607-617 | one row per (normalized url, state) in first-seen order, each holding the first row's title and label and the group's summed count; the total count is conserved |
| Grouping.DistinctSpec | admin_api/chalicelib/stats_routes.py:124-127 | "append unless already present" keeps each element once, keeps exactly the elements of the input, and orders them by first occurrence |
| Grouping.GroupSpec | admin_api/chalicelib/stats_routes.py:609-617 | the merge-into-the-first-row-with-the-same-key loop yields, for each distinct key in first-seen order, the fold of the merge over that key's rows |
| Grouping.GroupKeysUnique | admin_api/chalicelib/stats_routes.py:609-617 | no key occurs twice in the merged rows, and the merged keys are exactly the input keys |
| Grouping.GroupTotal | admin_api/chalicelib/stats_routes.py:134-138 | when merging adds a measure, the merged rows' total equals the input total |
| Grouping.CollapseSum | admin_api/chalicelib/stats_routes.py:488-498 | folding a group with an adding merge gives the group's sum |
| Grouping.CollapseMax | admin_api/chalicelib/stats_routes.py:493 | folding a group with a maximising merge gives the group's maximum |
| Grouping.CollapseKeeps | admin_api/chalicelib/stats_routes.py:612-617 | a field the merge does not touch keeps the group's first row's value |
| TimeSeries.OnDay | admin_api/chalicelib/stats_routes.py:317-330 | the pageviews joined to a day all fall on that day, and none is joined exactly when no pageview falls on it |
| TimeSeries.Column | admin_api/chalicelib/stats_routes.py:307-316 | the daily column has one entry per day of the date range, the k-th holding the figure of day from + k |
| TimeSeries.Rows | admin_api/chalicelib/stats_routes.py:334-356 | the unfiltered query has one row per day of the range, in date order |
| TimeSeries.KeepFrom | admin_api/chalicelib/stats_routes.py:357 | `WHERE date >= stime` keeps only rows on or after stime |
| TimeSeries.Series | admin_api/chalicelib/stats_routes.py:304-365 | the query fails (no day sequence) exactly when etime is more than thirty days before stime |
| TimeSeries.PageviewTimeSeries | admin_api/chalicelib/stats_routes.py:304-365 | the report over pageview rows fails exactly in that case |
| TimeSeries.WindowAt | admin_api/chalicelib/stats_routes.py:340-353 | a `ROWS BETWEEN n PRECEDING` frame that starts at or after the first row is the sum of the day figures over whole days |
| TimeSeries.FullWindowsAt | admin_api/chalicelib/stats_routes.py:340-353 | from the thirtieth row on, the 3-, 7-, 14- and 30-row frames cover 3, 7, 14 and 30 whole days |
| TimeSeries.RowAt | admin_api/chalicelib/stats_routes.py:334-356 | every unfiltered row from the thirtieth on equals the reference row of its day |
| TimeSeries.KeepFromDrops | admin_api/chalicelib/stats_routes.py:357-364 | rows numbered from stime − 30 days lose exactly their first thirty to the date filter |
| TimeSeries.SeriesSpec | admin_api/chalicelib/stats_routes.py:304-365 | the report has one row per day from stime to etime in ascending order, each with the day's pageview count, distinct sessions and distinct users, and their sums over the 3, 7, 14 and 30 days ending on it: every returned window is full |
| TimeSeries.RangeSumWidens | admin_api/chalicelib/stats_routes.py:340-353 | widening a window to earlier days never lowers its sum |
| TimeSeries.WindowsNested | admin_api/chalicelib/stats_routes.py:338-353 | for each measure: day figure ≤ 3-day ≤ 7-day ≤ 14-day ≤ 30-day sums |
| TimeSeries.ZeroFill | admin_api/chalicelib/stats_routes.py:324-331 | a day in the range counts zero pageviews exactly when no pageview falls on it (the outer join zero-fills) |
| TimeSeries.DistinctBounded | admin_api/chalicelib/stats_routes.py:325-327 | distinct sessions and distinct users never outnumber the day's pageviews |
| Calendar.NextDay | data_retriever/goal.py:15-19 | the next day is a valid date strictly after the given one |
| Calendar.PrevDay | data_retriever/goal.py:15-19 | `date - timedelta(days=1)` is a valid date strictly before the given one |
| Calendar.StepInverse | data_retriever/goal.py:15-19 | a day forward then back, or back then forward, returns the same date |
| Calendar.AddDaysCompose | admin_api/chalicelib/stats_routes.py:360-363 | moving a days and then b days is moving a + b days |
| Calendar.AddDaysMonotone | admin_api/chalicelib/stats_routes.py:360-363 | a later day offset gives a strictly later date, and only a later one |
| Calendar.FromEpochSeconds | admin_api/chalicelib/container_users_routes.py:31-34 | `utcfromtimestamp` of whole seconds: a valid date-time whose day is the floor of s / 86400 days after 1970-01-01 and whose time of day is the non-negative remainder |
| Calendar.TruncDiv | data_retriever/app.py:93-98 | Python's `int(a / b)` for b > 0: the quotient truncated toward zero, also for negative a |
| Calendar.PrevMonth | data_retriever/usage.py:13-17 | `relativedelta(months=1)` back: the previous calendar month, the day clamped to that month's length |
| Calendar.TwoSpec | admin_api/chalicelib/stats_routes.py:41-42 | `%m`, `%d`, `%H`, `%M`, `%S` are two digits reading back as the number |
| Calendar.YearSpec | admin_api/chalicelib/stats_routes.py:41-42 | `%Y` of a four-digit year is four digits reading back as the year |
| Calendar.ParseStamp | client/src/lib/StatId.js:10-13 | a text reads as a `%Y%m%d%H%M%S` stamp exactly when it is 14 digits |
| Calendar.StampRoundTrip | admin_api/chalicelib/stats_routes.py:41-42 | the 14-digit stamp of a valid time with a four-digit year reads back as that time |
| Calendar.StampInjective | admin_api/chalicelib/stats_routes.py:41-42 | distinct such times have distinct stamps |
| Calendar.DashDateOrder | data_retriever/goal_term.py:117 | for four-digit years, sorting `%Y-%m-%d` texts as strings sorts the dates chronologically |
| Strings.Split | log_formatter/app.py:45 | `split('\t')` yields at least one part, no part holds the separator, and joining the parts gives the text back |
| Strings.SplitJoin | log_formatter/app.py:45 | splitting the join of separator-free parts gives the parts back |
| Strings.DoubleQuotesRoundTrip | data_retriever/goal_term.py:40-70 | doubling every `'` leaves only paired quotes, so the value cannot end the SQL literal early, and undoubling recovers the value |
| Strings.UndoubleQuotesRoundTrip | data_retriever/goal_term.py:40-70 | a literal body whose quotes are all paired is the doubling of what it reads as |
| Strings.DoubleQuotesAppend | data_retriever/goal_term.py:40-70 | quote doubling distributes over concatenation |
| Strings.DoubleQuotesNoQuote | data_retriever/goal_term.py:40-70 | text without quotes is embedded verbatim |
| Strings.ReEscapeRoundTrip | data_retriever/goal_term.py:41-42 | what `re.escape` produces reads back, as a regex literal, as the original text |
| Strings.Decimal | data_retriever/retriever_base.py:47-50 | `str(n)` of a natural number is a non-empty digit string |
| Strings.DecimalRoundTrip | data_retriever/usage.py:61 | `int(str(n)) == n` |
| Strings.ParseDecimalAppend | admin_api/chalicelib/container_users_routes.py:19-20 | a digit string read as a number is the value of its head shifted by the tail's width plus the value of its tail |
| Strings.PadSpec | admin_api/chalicelib/stats_routes.py:41-42 | zero padding to w digits of a value below 10^w has exactly w digits and reads back as the value |
| Strings.LexTotal | data_retriever/goal_term.py:117 | Python's string order compares any two strings |
| Strings.LexTransitive | data_retriever/goal_term.py:117 | Python's string order is transitive |
| Strings.LexAntisymmetric | data_retriever/goal_term.py:117 | Python's string order is antisymmetric, so a sort by date text is determined when dates are distinct |
| Strings.LexDigits | data_retriever/goal_term.py:117 | on digit strings of one length, text order is numeric order |
| Naming.OrgPrefix | admin_api/chalicelib/stats_routes.py:39 | the prefix is empty exactly for `root`, and otherwise is the organisation name followed by '/' |
| Naming.OrgPrefixInjective | admin_api/chalicelib/stats_routes.py:39 | distinct organisations have distinct prefixes, so their stored keys never collide |
| GoalQuery.EmbeddedIsDoubled | data_retriever/goal_term.py:40-70 | the piecewise doubling the retrievers do doubles the whole pattern, because the fixed regex text around the goal's string holds no quote |
| GoalQuery.EmbeddedDenotes | data_retriever/goal_term.py:40-70 | every embedded literal is well formed (each quote is half of a `''` pair) and reads back as the intended pattern: the goal's text cannot close the literal |
| GoalQuery.TargetTest | data_retriever/goal_term.py:40-47 | the event-state test carries the goal's target and uses prefix for 'prefix', regex for 'regex' and equality for every other setting |
| GoalQuery.PathTestAsWritten | data_retriever/goal_term.py:49-59 | as written, the location test is a prefix test iff path_match is 'prefix', and a regex test iff path_match is not 'prefix' and target_match is 'regex' |
| GoalQuery.LabelTestAsWritten | data_retriever/goal_term.py:61-70 | the same for the label test, whose regex branch is also keyed on target_match |
| GoalQuery.PathTest | data_retriever/goal_term.py:49-59 | the corrected location test uses the mode its own setting names |
| GoalQuery.LabelTest | data_retriever/goal_term.py:61-70 | the corrected label test uses the mode its own setting names |
| GoalQuery.TestsAsWritten | data_retriever/goal_term.py:40-70 | as written: one state test first, then a location test iff the path is truthy and a label test iff the label is truthy |
| GoalQuery.Tests | data_retriever/goal_term.py:40-70 | one state test, a location test iff the goal has a truthy path and a label test iff it has a truthy label, each in the mode its own setting names and carrying the goal's own string |
| GoalQuery.AsWrittenAgrees | data_retriever/goal_term.py:49-70 | the as-written tests are the intended ones exactly when every present path or label setting is 'prefix' or agrees with target_match on being 'regex' |
| GoalQuery.AsWrittenMisreadsPathMode | data_retriever/goal_term.py:53-59 | a goal with path_match 'regex' and an equality target gets an escaped, anchored equality test on its path, so its path is not read as a regex |
| GoalQuery.PluginTestsAsWritten | data_retriever/otmplugins/otm-goal-plugin/goal.py:30-36 | the plugin's tests: state equality, plus a location test iff the path is truthy |
| GoalQuery.PluginTests | data_retriever/otmplugins/otm-goal-plugin/goal.py:30-36 | the corrected plugin tests are all equality tests, with the `https?` scheme pattern |
| GoalQuery.StripHost | data_retriever/goal_term.py:54 | `regexp_replace(x, '^https?://[^/]+', '')` never lengthens the text |
| GoalQuery.HttOrHttpMissesHttps | data_retriever/otmplugins/otm-goal-plugin/goal.py:35 | `^http?://` admits only the schemes `htt` and `http`, so no https location matches |
| GoalQuery.PluginMissesHttps | data_retriever/otmplugins/otm-goal-plugin/goal.py:33-36 | as written, the plugin never counts a hit on an https page for a goal with a path |
| GoalQuery.PluginCountsHttps | data_retriever/otmplugins/otm-goal-plugin/goal.py:33-36 | with `https?` the plugin counts the goal's page on http and on https |
| GoalQuery.StripHostLeavesPath | data_retriever/goal_term.py:54 | for an http or https location with a '/'-free host, the regex path test sees the path alone |
| GoalQuery.EqGoalSelects | data_retriever/goal_term.py:45-59 | an equality goal with a path and no label selects exactly the hits with its state on its page, under http or https |
| GoalQuery.TermQuery | data_retriever/goal_term.py:33-70 | the term query tests the organisation and container, counts a row iff its day number lies from `startdate` to `enddate`, and carries the goal's corrected tests |
| GoalQuery.DailyQuery | data_retriever/goal.py:41-79 | the daily query tests the organisation and container, counts a row iff it lies in the given year, month and day partition, and carries the same corrected goal tests |
| GoalQuery.PluginQuery | data_retriever/otmplugins/otm-goal-plugin/goal.py:23-36 | the plugin query has no organisation test, takes the container from the goal, counts a row iff it lies in the given day partition, and carries the corrected `https?` tests |
| GoalQuery.DayNumberInjective | data_retriever/goal_term.py:37-38 | `year * 10000 + month * 100 + day` determines a calendar day |
| GoalQuery.DailyIsOneDayTerm | data_retriever/goal.py:45-47 | the daily retriever's partition test selects the same rows as the term retriever's test over the one-day range of that day |
| GoalResult.FindDate | data_retriever/goal_term.py:111 | the first index holding the date, or the length when none does |
| GoalResult.Upsert | data_retriever/goal_term.py:111-115 | the new record is stored; records of other dates are kept and nothing else is added; the length grows only when the date was absent; one record per date is kept, and it is the new one |
| GoalResult.UpsertPresent | data_retriever/goal_term.py:111-115 | upserting a record already stored changes nothing |
| GoalResult.UpsertAll | data_retriever/goal_term.py:103-115 | the row loop keeps at most one record per date |
| GoalResult.UpsertAllSpec | data_retriever/goal_term.py:103-115 | after the loop the list holds every new record and, of the old ones, exactly those whose dates the run did not count |
| GoalResult.Insert | data_retriever/goal_term.py:117 | one insertion step adds exactly the record |
| GoalResult.InsertSorted | data_retriever/goal_term.py:117 | inserting into a date-sorted list keeps it sorted |
| GoalResult.InsertUnique | data_retriever/goal_term.py:117 | inserting a record of a new date keeps one record per date |
| GoalResult.SortByDate | data_retriever/goal_term.py:117 | the sort returns a permutation of the list in date order, keeping dates unique |
| GoalResult.SortedPermutationUnique | data_retriever/goal_term.py:117 | with one record per date there is exactly one date-sorted order, so any correct sort (Python's included) gives this result |
| GoalResult.SortSorted | data_retriever/goal_term.py:117 | sorting an already sorted list changes nothing |
| GoalResult.SortedChronological | data_retriever/goal_term.py:117 | once sorted, records of `%Y-%m-%d` dates are in chronological order |
| GoalResult.DateOfNumber | data_retriever/goal_term.py:107 | `strptime(str(n), '%Y%m%d')` succeeds only for the day number of a valid date with a four-digit year |
| GoalResult.DateOfDayNumber | data_retriever/goal_term.py:107 | every such date reads back from its day number |
| GoalResult.RowDateSpec | data_retriever/goal_term.py:107 | a row's date parses exactly when it is the day number of a valid date with a four-digit year, and then it is that date's `%Y-%m-%d` text |
| GoalResult.RowDateInjective | data_retriever/goal_term.py:107 | distinct day numbers give distinct record dates |
| GoalResult.ResultKey | data_retriever/goal.py:103-107 | the goal result key starts with the stats prefix and the organisation prefix |
| GoalResult.Stored | data_retriever/goal_term.py:94-98 | a list that could not be read counts as empty |
| GoalResult.Store | data_retriever/goal_term.py:94-120 | the written list is sorted, keeps one record per date, and holds the new records and the old ones of other dates |
| GoalResult.RowRecordsSpec | data_retriever/goal_term.py:103-110 | one record per query row, in order, with the row's counts and its reformatted date; no records when a date does not parse |
| GoalResult.RowRecordsUnique | data_retriever/goal_term.py:103-110 | rows of distinct days give records of distinct dates |
| GoalResult.TermRun | data_retriever/goal_term.py:15-120 | a missing container or goal ends the run without a write; a query that does not succeed writes nothing; otherwise usage is reported and the merged list is written under the goal's result key |
| GoalResult.TermRunSpec | data_retriever/goal_term.py:81-120 | a successful run leaves one sorted record per date holding every counted day and, of the old records, those of other days |
| GoalResult.YesterdayRecord | data_retriever/goal.py:99-101 | the daily record is dated yesterday as `%Y-%m-%d` |
| GoalResult.DailyRun | data_retriever/goal.py:88-124 | a query that does not succeed writes nothing and reports no usage; a successful one reports usage and stores yesterday's record under the result key |
| GoalResult.DailyRunSpec | data_retriever/goal.py:115-121 | yesterday's figures replace whatever the list held for that day, every other day is kept, and the list stays sorted with one record per date |
| GoalResult.DailyRunIdempotent | data_retriever/goal.py:115-124 | running again for the same day with the same counts leaves the list as the first run wrote it |
| GoalResult.PluginRun | data_retriever/otmplugins/otm-goal-plugin/goal.py:45-79 | the plugin writes nothing when the query does not succeed, never reports usage, and keys its result by the goal's org and container |
| GoalResult.ItemJobs | data_retriever/goal.py:35-37 | each container item yields one job per goal, in order, with the item's organisation and container |
| GoalResult.PageJobsSpec | data_retriever/goal.py:35-37 | a page's jobs are exactly the goals of its items |
| GoalResult.ScanJobsSpec | data_retriever/goal.py:25-39 | following LastEvaluatedKey, the scan runs exactly the goals of the items on every page |
| GoalResult.DashDateInjective | data_retriever/goal_term.py:107 | distinct dates with four-digit years have distinct `%Y-%m-%d` texts, so records of distinct days never share a date |
| GoalResult.FindGoal | data_retriever/goal_term.py:25-28 | the term run works on the first goal with the requested id, or on none |
| RetrieverBase.PollFrom | data_retriever/retriever_base.py:13-27 | from attempt `n` on, the poll returns a state iff a later attempt within the limit sees SUCCEEDED or FAILED, and the state it returns is the first settled one |
| RetrieverBase.Poll | data_retriever/retriever_base.py:13-27 | the ten retried polls return the first settled state, and raise (None) iff no attempt sees one |
| RetrieverBase.CancelledRaises | data_retriever/retriever_base.py:22-27 | a query that stays CANCELLED makes the poll raise once the attempts run out |
| RetrieverBase.MakePartition | data_retriever/retriever_base.py:53-57 | `make_partition` returns normally iff the first settled state within the attempts is SUCCEEDED |
| RetrieverBase.FirstSettled | data_retriever/retriever_base.py:13-27 | when a settled attempt is not the one the poll returns, an earlier attempt settled |
| RetrieverBase.UsageKey | data_retriever/retriever_base.py:47-50 | the usage key starts with the usage prefix |
| RetrieverBase.UsageKeyFields | data_retriever/retriever_base.py:47-50 | for '/'-free org, tid and execution id, the key after the prefix splits on '/' into `org=…`, `tid=…`, `year=…`, `month=…`, `day=…` and `<id>.json`, so each field reads back |
| Usage.Rollup | data_retriever/usage.py:42-54 | the per-organisation rollup has an entry exactly for the organisations with a row, holding the summed `athena_scan` sizes, the summed `collect` sizes and one detail per row of that organisation, in row order |
| Usage.RollupStep | data_retriever/usage.py:43-54 | absorbing one more row keeps the rollup equal to the reference sums over the longer table |
| Usage.RollupFresh | data_retriever/usage.py:44-45 | an organisation the rollup has not seen starts from zero sizes and no details |
| Usage.NoRowsNothing | data_retriever/usage.py:44-54 | an organisation without rows has zero sizes and no details |
| Usage.DetailsCount | data_retriever/usage.py:54 | an organisation with rows has at least one detail, and never more details than rows |
| Usage.MonthKeyRoundTrip | data_retriever/usage.py:61 | `year * 1000 + month` gives back the year and the month |
| Usage.MonthKeyOrder | data_retriever/usage.py:61 | month keys order months chronologically |
| Usage.UsageRun | data_retriever/usage.py:19-62 | the run stores items iff the partition and the query succeed; one item per organisation with rows, keyed by the previous month, carrying that organisation's sums and details |
| LogFormatter.FileName | log_formatter/app.py:37 | `(.*/)?(.+)$` matches every non-empty key, and its second group is the non-empty text after the key's last '/' (the whole key when there is none) |
| LogFormatter.RStrip | log_formatter/app.py:45 | `rstrip` keeps a prefix, drops only trailing whitespace, and leaves no whitespace at the end |
| LogFormatter.FirstValues | log_formatter/app.py:72-75 | the query-string map has the keys of the decoded pairs, each bound to its first value |
| LogFormatter.ParseDateTime | log_formatter/app.py:87 | a parsed `%Y-%m-%d %H:%M:%S` timestamp is a valid date and time with a four-digit year |
| LogFormatter.DateTimeRoundTrip | log_formatter/app.py:87-88 | parsing the formatted date and clock of a timestamp gives the timestamp back, and the reformatted `datetime` field is that same text |
| LogFormatter.LogKeyFields | log_formatter/app.py:89-90 | for '/'-free org, tid and file name, the reformatted key splits on '/' into `org=…`, `tid=…`, `year=…`, `month=…`, `day=…` and the file name |
| LogFormatter.ParseLine | log_formatter/app.py:45-90 | a parsed line has enough tab-separated fields; its record keeps fields 2 to 25, the first value of each query key and the reformatted timestamp, and is filed under the key built from its org, tid, day and file name |
| LogFormatter.ParamOr | log_formatter/app.py:79-85 | a query parameter is the query's value for that key, or the default ("null" for the tid, "root" for the org) without one |
| LogFormatter.Requests | log_formatter/app.py:43-44 | the lines processed are exactly the lines that do not start with '#' |
| LogFormatter.RequestsAppend | log_formatter/app.py:41-44 | comment filtering works line by line, so it distributes over concatenation |
| LogFormatter.CommentIgnored | log_formatter/app.py:43-44 | adding a comment line anywhere changes nothing |
| LogFormatter.Entries | log_formatter/app.py:41-90 | one parse per request line, in order |
| LogFormatter.Gather | log_formatter/app.py:92-99 | the grouping succeeds iff every request line parses, and then each key holds the records filed under it, in order |
| LogFormatter.GatherStep | log_formatter/app.py:92-99 | appending one record to its key's list keeps the grouping equal to the reference |
| LogFormatter.NoEntriesNothing | log_formatter/app.py:92-93 | a key no line is filed under holds no records |
| LogFormatter.RecordsForHas | log_formatter/app.py:98 | every parsed line's record is among the records of its key |
| LogFormatter.SplitextRoot | log_formatter/app.py:106 | `os.path.splitext(p)[0]` is a prefix of `p` |
| LogFormatter.Handler | log_formatter/app.py:26-108 | only an `ObjectCreated:Put` event is handled; output is written iff the key is non-empty and every request line parses; logs and reports have the same keys, exactly the used keys, each log holding its records and each report a `collect` count equal to its number of records |
| LogFormatter.HandlerParses | log_formatter/app.py:41-90 | every entry parses iff every non-comment line parses |
| LogFormatter.LineFiled | log_formatter/app.py:92-103 | every parsed line ends up in the log written under its key |
| LogFormatter.LastIndexShift | log_formatter/app.py:106 | the last occurrence of a character in `dir + q` is found in `q` when `q` holds one |
| LogFormatter.LastIndexAbsent | log_formatter/app.py:106 | when `q` has no such character, the last occurrence lies in `dir` or is missing |
| LogFormatter.NonDotShift | log_formatter/app.py:106 | a dot-free stretch of `q` stays dot-free after `dir` is prepended |
| LogFormatter.SplitextLast | log_formatter/app.py:106 | on `dir/file`, splitext only ever cuts inside the file name |
| LogFormatter.LastSlashFront | log_formatter/app.py:106 | in `/file` with a '/'-free file name, the last '/' is the first character |
| LogFormatter.DotShift | log_formatter/app.py:106 | a final segment with a dot keeps its extension cut after a directory is prepended |
| LogFormatter.StatsKeysDistinct | log_formatter/app.py:105-108 | distinct log directories over the same file name give distinct stats keys, so no count overwrites another |
| DataRetrieverApp.FromMs | data_retriever/app.py:94-95 | `fromtimestamp(int(ms / 1000))` truncates toward zero and always gives a valid date and time |
| DataRetrieverApp.TargetName | data_retriever/app.py:93-98 | the target key starts with the target prefix |
| DataRetrieverApp.Selected | data_retriever/app.py:27-29 | a hit is selected iff its tid matches and its time lies in `[stime, etime)` |
| DataRetrieverApp.WindowSplit | data_retriever/app.py:28-29 | splitting a window at any point splits the selected hits between the two halves, none lost and none counted twice |
| DataRetrieverApp.TruncDivMonotone | data_retriever/app.py:47-48 | truncating division by 1000 keeps order |
| DataRetrieverApp.DayMonotone | data_retriever/app.py:47-48 | a later instant never falls on an earlier day |
| DataRetrieverApp.RangeCovers | data_retriever/app.py:42-48 | the day tables named by the range (an hour before the start to the end) include the day of every instant in the window |
| DataRetrieverApp.Document | data_retriever/app.py:56-73 | the document echoes the window and the tid, and holds one record per row, in order, with the row's dimensions and count |
| DataRetrieverApp.DocumentKeepsTotal | data_retriever/app.py:56-60 | the document's counts add up to the rows' counts |
| StatId.Span | client/src/lib/StatId.js:9 | a greedy character-class run splits the text into a run of the class and a rest that does not start with it |
| StatId.SpanExact | client/src/lib/StatId.js:9 | a run followed by a character outside the class is exactly what the greedy match takes |
| StatId.Search | client/src/lib/StatId.js:9 | the unanchored search reports the match at the start whenever there is one |
| StatId.FilePart | client/src/lib/StatId.js:4 | `/([^/]+\.json)$/` captures the '/'-free final segment ending in `.json`, preceded by a '/' |
| StatId.Info | client/src/lib/StatId.js:3-23 | the info keeps the name; term and label are both null unless the file name matches, and the captured start and end are digit strings |
| StatId.SearchDigits | client/src/lib/StatId.js:9 | the start and end groups of any match are digit strings |
| StatId.TermText | client/src/lib/StatId.js:11-13 | a term is produced only from two 14-digit stamps |
| StatId.MomentYear | client/src/lib/StatId.js:13 | `YYYY` prints a year from 0 to 9999 as exactly four digits that read back as the year, so 999 prints as `0999`; a four-digit year prints as its decimal text |
| StatId.TailMatches | client/src/lib/StatId.js:9 | after the three numbers, the optional `label_` and the uuid match with the label captured |
| StatId.HeadMatches | client/src/lib/StatId.js:9 | three digit runs joined by '_' are matched as the three number groups |
| StatId.FilePartOf | client/src/lib/StatId.js:4 | a `.json` file name after a '/'-terminated prefix is the captured file |
| StatId.FileMatches | client/src/lib/StatId.js:9 | a file named as the retriever names it matches the pattern with its start, end and label |
| StatId.FileShape | client/src/lib/StatId.js:4 | such a file name has no '/' and ends in `.json` |
| StatId.InfoOfName | client/src/lib/StatId.js:3-23 | the info of a retriever-named report carries its start, end and label (undefined without a suffix) |
| StatId.TermOfStamps | client/src/lib/StatId.js:11-13 | the term of two 14-digit stamps is both instants as `YYYY/MM/DD HH:mm:ss` joined by '〜' |
| StatId.NameRoundTrip | client/src/lib/StatId.js:3-23 | reading back the name the data retriever gives a report yields the report's window and its suffix as the label |
| UrlTree.FindChild | client/src/lib/UrlTree.js:41-43 | `_.find` returns the first child with the segment, or none |
| UrlTree.Insert | client/src/lib/UrlTree.js:37-60 | walking a path leaves the node's own path, flag, level and id unchanged |
| UrlTree.FreshUnmarked | client/src/lib/UrlTree.js:44-54 | a new child marks no path and reaches only itself |
| UrlTree.InsertMarks | client/src/lib/UrlTree.js:37-60 | after the walk, the paths marked as existing are the old ones plus the inserted path |
| UrlTree.InsertReaches | client/src/lib/UrlTree.js:37-60 | the paths with a node are the old ones plus every prefix of the inserted path |
| UrlTree.InsertIdempotent | client/src/lib/UrlTree.js:37-60 | inserting the same path twice gives the same tree as once |
| UrlTree.InsertDistinct | client/src/lib/UrlTree.js:41-54 | siblings keep distinct path segments |
| UrlTree.InsertShaped | client/src/lib/UrlTree.js:44-54 | every node's level is its depth and its id is the '/'-joined segments leading to it |
| UrlTree.Segments | client/src/lib/UrlTree.js:22-30 | the segments walked are non-empty in number and each is '/'-free |
| UrlTree.AddUrl | client/src/lib/UrlTree.js:13-60 | adding a URL fails only when it is not skipped and has no pathname (the source's TypeError) |
| UrlTree.GetTree | client/src/lib/UrlTree.js:4-64 | the tree is built iff no kept URL lacks a pathname, and the root has id '/', level 0, distinct siblings and consistent levels and ids |
| UrlTree.AddKeepsShape | client/src/lib/UrlTree.js:13-60 | adding a URL keeps the tree's invariants and the root's id and level |
| UrlTree.AddMarks | client/src/lib/UrlTree.js:22-60 | after adding a URL, a path is marked iff it was, or it is the root for `/` and the empty path, or it is the URL's segments |
| UrlTree.AddIdempotent | client/src/lib/UrlTree.js:13-60 | adding the same URL twice changes nothing more |
| UrlTree.TrailingSlash | client/src/lib/UrlTree.js:28-30 | a pathname and the same pathname with a trailing '/' walk the same segments |
| UrlTree.JoinSnoc | client/src/lib/UrlTree.js:50 | joining one more segment appends '/' and the segment |
| UrlTree.CollectSpec | client/src/lib/UrlTree.js:69-76 | the collected paths are exactly the prefix followed by a marked path of the forest |
| UrlTree.Dedupe | client/src/lib/UrlTree.js:84-86 | object keys keep every path once |
| UrlTree.Reverse | client/src/lib/UrlTree.js:84 | `reverse` lists the paths back to front |
| UrlTree.PathSample | client/src/lib/UrlTree.js:66-88 | the sample holds no path twice |
| UrlTree.PathSampleSpec | client/src/lib/UrlTree.js:66-88 | a path is in the sample iff it is '/' of an existing root, or '/' followed by a path the tree marks |
| GraphUtil.TruthyPart | client/src/lib/GraphUril.js:8-12 | a URL field contributes itself iff it is truthy |
| GraphUtil.UrlsOf | client/src/lib/GraphUril.js:7-13 | a row contributes exactly its truthy `url` and `p_url` |
| GraphUtil.DistinctAddTruthy | client/src/lib/GraphUril.js:8-12 | adding a truthy value unless already included is the first-occurrence dedupe of the longer list |
| GraphUtil.AddUrlsStep | client/src/lib/GraphUril.js:7-13 | one loop pass extends the deduplicated list exactly as deduplicating the longer list would |
| GraphUtil.AllUrlsMember | client/src/lib/GraphUril.js:5-16 | a URL is listed iff some row carries it truthily in `url` or `p_url` |
| GraphUtil.GetUrls | client/src/lib/GraphUril.js:5-16 | `getUrls` returns each URL of the rows once, in the order of its first occurrence |
| GraphUtil.Filter | client/src/lib/GraphUril.js:19 | `_.filter` keeps exactly the elements that satisfy the test, each as often as it occurs |
| GraphUtil.FilterByUrl | client/src/lib/GraphUril.js:18-32 | the filtered rows are, with their multiplicities, the rows whose `url` or `p_url` is the URL, and those matching on `url` come first |
| GraphUtil.HeadsFirst | client/src/lib/GraphUril.js:19-29 | rows matched on `url` followed by rows that are not keep every `url` match before the others |
| GraphUtil.AddCountLaws | client/src/lib/GraphUril.js:46-54 | folding a duplicate into the first row of its group keeps the key and the dimensions and adds the counts |
| GraphUtil.MergeSameIdSpec | client/src/lib/GraphUril.js:34-59 | the merged rows have one row per (url, p_url, state, p_state) in first-occurrence order; each keeps its group's first dimensions and carries the group's total, so the grand total is unchanged |
| GraphUtil.LineHead | client/src/lib/GraphUril.js:68-75 | `.` stops at the first line terminator: the head is the longest terminator-free prefix |
| GraphUtil.StripSlash | client/src/lib/GraphUril.js:75-78 | `/^(.*)\/$/` removes a trailing '/' from a one-line path and otherwise leaves the path alone |
| GraphUtil.FirstFit | client/src/lib/GraphUril.js:83-107 | the lookup returns origin plus the first template that fits the path and the query, returns null iff none fits and none throws, and throws only on a template whose parse throws |
| GraphUtil.LookupPath | client/src/lib/GraphUril.js:61-108 | without a truthy path the lookup is null; a found URL is protocol, '//', host and one of the templates |
| GraphUtil.LookupTrailingSlash | client/src/lib/GraphUril.js:75-78 | a path and the same path with a trailing '/' find the same template |
| GraphUtil.LookupPrefersHash | client/src/lib/GraphUril.js:67-73 | under a `#!/` hash the lookup ignores the URL's own path |
| GraphUtil.LiteralTemplate | client/src/lib/GraphUril.js:85 | a template without '{' matches only its own text |
| GraphUtil.TemplateFill | client/src/lib/GraphUril.js:85 | filling each `{…}` of a template with a '/'-free value gives a path the template matches |
| GraphUtil.NewUrl | client/src/lib/GraphUril.js:122 | the new URL is the template URL the lookup finds, or the URL itself when it finds none; it fails only when the lookup throws |
| GraphUtil.TableRow | client/src/lib/GraphUril.js:121-127 | a row converts iff its URL is present and its lookup does not throw; only its `url` changes |
| GraphUtil.TableRows | client/src/lib/GraphUril.js:121-127 | the rows convert iff each row does, one result per row |
| GraphUtil.ConvertUrlForTableData | client/src/lib/GraphUril.js:110-130 | without paths the data comes back unchanged; otherwise every row keeps its count and every field but `url`, and the conversion succeeds iff every row converts |
| GraphUtil.TableDataKeepsRows | client/src/lib/GraphUril.js:121-127 | the table conversion keeps the total count, and a row whose URL fits no template is returned unchanged |
| GraphUtil.ConvertRow | client/src/lib/GraphUril.js:144-145 | a converted row keeps its count and states, and has a `p_url` iff the original's was truthy |
| GraphUtil.ConvertRows | client/src/lib/GraphUril.js:143-157 | all rows convert one to one and keep the total count |
| GraphUtil.ConvertUrl | client/src/lib/GraphUril.js:132-141 | without paths the data comes back unchanged |
| GraphUtil.ConvertUrlSpec | client/src/lib/GraphUril.js:143-161 | after conversion each (url, p_url, state, p_state) appears once, carries the total of the converted rows with that key, and the grand total is unchanged |
| GraphSkip.Incoming | client/src/lib/GraphUril.js:183-186 | the deeper edges are rows of the data whose state and url are the edge's `p_state` and `p_url` |
| GraphSkip.SubsetDifference | client/src/lib/GraphUril.js:176-181 | visiting one more skipped state shrinks the set of states still to visit, so the search ends |
| GraphSkip.FindRelated | client/src/lib/GraphUril.js:164-193 | the search only visits skipped source states, only appends rows of the data, and appends only edges that change state and whose source is not skipped |
| GraphSkip.FindRelatedEdge | client/src/lib/GraphUril.js:164-193 | every related edge is a row of the data that changes state and whose source state is not skipped |
| GraphSkip.RelatedKept | client/src/lib/GraphUril.js:172-173 | edges that are already related are returned as they are, in order, without any deeper search |
| GraphSkip.MarkAll | client/src/lib/GraphUril.js:198-208 | every row is marked, one mark per row, by the skip patterns and the threshold |
| GraphSkip.FindEdge | client/src/lib/GraphUril.js:222-225 | `_.find` returns the first edge with the (p_state, state) pair, or none |
| GraphSkip.MinCount | client/src/lib/GraphUril.js:226 | the contributed count is the smaller of the two counts |
| GraphSkip.AddEdge | client/src/lib/GraphUril.js:221-243 | the count goes to the first existing edge with the same states, or to a new unmarked edge with the row's dimensions; either way the total grows by exactly that count and no existing edge changes its dimensions or marks |
| GraphSkip.TotalUpdate | client/src/lib/GraphUril.js:228 | replacing one edge changes the total by the difference of its counts |
| GraphSkip.Contract | client/src/lib/GraphUril.js:221-243 | contracting one row only appends unmarked edges into the row's state from a related edge's source |
| GraphSkip.ContractAdds | client/src/lib/GraphUril.js:221-243 | contracting a row adds the sum of the minimum counts over its related edges to the total |
| GraphSkip.Step | client/src/lib/GraphUril.js:211-245 | one pass over a row keeps the existing edges' dimensions and marks and appends only unmarked edges into the row's state from unskipped sources |
| GraphSkip.Run | client/src/lib/GraphUril.js:211-245 | the edge-modifying loop keeps the marks of the original rows and appends only clean edges |
| GraphSkip.SurvivorsAppend | client/src/lib/GraphUril.js:248 | `_.reject` works element by element, so it distributes over concatenation |
| GraphSkip.SurvivorsClean | client/src/lib/GraphUril.js:248 | no surviving edge has a skipped source or target state |
| GraphSkip.SurvivorIndex | client/src/lib/GraphUril.js:248 | every survivor is an unmarked edge of the list |
| GraphSkip.SurvivorsOfOriginals | client/src/lib/GraphUril.js:198-248 | the survivors among the original rows are the unmarked rows, in order, with their dimensions |
| GraphSkip.SurvivorsSpec | client/src/lib/GraphUril.js:195-249 | the result starts with the unmarked original rows, in order, and no edge in it touches a skipped state |
| GraphSkip.SkipDataSpec | client/src/lib/GraphUril.js:195-249 | `skipData` starts with the rows neither skipped nor below the threshold, in order, followed only by contracted edges that touch no skipped state |
| GraphSkip.NoSourceOnlyFilters | client/src/lib/GraphUril.js:211-245 | when no row has a skipped source, the edge loop changes nothing |
| ClientStats.Kept | client_apis/chalicelib/stats_routes.py:122-128 | the kept rows are exactly the rows whose normalized url or p_url matches the filter, normalized, never more than the rows |
| ClientStats.FindState | client_apis/chalicelib/stats_routes.py:147 | the first raw row arriving at the state, or none |
| ClientStats.Enrich | client_apis/chalicelib/stats_routes.py:140-156 | every merged edge is returned; an edge gets parent details iff it leaves a `click_` state that no merged edge arrives at and some raw row arrives at, and the details are the first such raw row's label, xpath, id and class |
| ClientStats.Plain | client_apis/chalicelib/stats_routes.py:163 | without a filter the rows come back as they are, with no parent details |
| ClientStats.UrlData | client_apis/chalicelib/stats_routes.py:94-163 | the answer is 404 iff there is no item or it is not COMPLETE; without a filter the document comes back whole; with one, its meta is kept and its event table dropped |
| ClientStats.MergedKept | client_apis/chalicelib/stats_routes.py:122-138 | merging the kept rows leaves one row per (url, p_url, state, p_state), each matching the filter and carrying its group's total count |
| ClientStats.FilteredRows | client_apis/chalicelib/stats_routes.py:116-163 | a filtered answer has no two rows with the same key, every row matches the filter, and each row's count is the total of the kept rows with its key |
| ClientStats.FilteredIsEnriched | client_apis/chalicelib/stats_routes.py:116-158 | a filtered answer is the enrichment of the merged kept rows |
| ClientStats.EnrichKeepsRecords | client_apis/chalicelib/stats_routes.py:151-156 | enrichment only adds parent details: the records are unchanged |
| ClientStats.FilteredTotal | client_apis/chalicelib/stats_routes.py:122-138 | a filtered answer's counts add up to the kept rows' counts, so merging loses no hits |
| ClientStats.RecordsOf | client_apis/chalicelib/stats_routes.py:158 | the records of the returned rows, one per row |
| ClientStats.JobRange | client_apis/chalicelib/stats_routes.py:199-210 | each bound is the body's value when given and the clock's midnight otherwise, independently |
| ClientStats.DefaultRangeOneDay | client_apis/chalicelib/stats_routes.py:199-205 | the default range runs from yesterday's midnight to today's: one whole day |
| Permission.HasPermission | admin_api/chalicelib/decorator.py:8-19 | the caller has the permission iff some role row is a root admin row or a row of the organisation holding the role |
| Permission.RootAdminGrantsAll | admin_api/chalicelib/decorator.py:13-14 | a root admin row grants every role in every organisation |
| Permission.OrgGate | admin_api/chalicelib/decorator.py:22-32 | the handler runs iff the caller has the permission, and the answer is 401 otherwise |
| Permission.RootGate | admin_api/chalicelib/decorator.py:35-44 | the root check is the organisation check for root and admin |
| Permission.RootGateIff | admin_api/chalicelib/decorator.py:35-44 | the handler's answer passes through iff some row is a root admin row |
| Permission.BodyGate | admin_api/chalicelib/decorator.py:47-62 | no body gives 400 without field errors, an invalid body 400 with field errors, and a valid body runs the handler |
| ClientAccess.GetRoles | client_apis/chalicelib/__init__.py:23-50 | one role per role row (the two local roles without an authorizer, none without `Items`), in order, marked freezed iff its organisation is listed in `freezed.json` |
| ClientAccess.HasRole | client_apis/chalicelib/__init__.py:53-64 | the answer is decided by the first entry of the organisation or of root that holds the role: it allows root always, `write` only when not freezed, and every other role |
| ClientAccess.HasRoleTail | client_apis/chalicelib/__init__.py:54-62 | entries that do not match are skipped |
| ClientAccess.FreezedFirstRefusesWrite | client_apis/chalicelib/__init__.py:59-60 | a freezed first match refuses `write` even when a later entry would allow it |
| ClientAccess.LocalAccess | client_apis/chalicelib/__init__.py:36-38 | without an authorizer context, reading is always allowed and writing is allowed iff the organisation is root or root is not freezed |
| ClientAccess.ConfigKey | client_apis/chalicelib/__init__.py:67-73 | the configuration key starts with the organisation's prefix |
| ClientAccess.GetConfigData | client_apis/chalicelib/__init__.py:67-76 | the stored document for the organisation, or an empty one without `containers` |
| ClientAccess.ConfigKeyInjective | client_apis/chalicelib/__init__.py:67-73 | distinct organisations read distinct configuration documents |
| ClientAccess.ContainerKeyInjective | client_apis/chalicelib/__init__.py:87-99 | within one organisation, distinct containers have distinct data objects |
| ClientAccess.GetContainerData | client_apis/chalicelib/__init__.py:87-102 | a configuration without `containers` raises; a name no entry has gives `(None, None)`; otherwise the first entry with the name, with its stored data or a copy of the entry when there is none |
| JsonData.FirstNamed | client_apis/chalicelib/__init__.py:93 | the first entry with the name, or none |
| JsonData.RemoveAt | client_apis/chalicelib/container_routes.py:180 | removing one entry keeps the others in order |
| JsonData.RemoveValue | client_apis/chalicelib/container_routes.py:180 | `list.remove` shortens the list by one when the value is present and changes nothing otherwise |
| JsonData.RemoveValueAt | client_apis/chalicelib/container_routes.py:180 | removing by value removes the value's first occurrence |
| ContainerRoutes.UpperChar | client_apis/chalicelib/container_routes.py:23 | `upper()` maps a letter or digit to an upper-case letter or digit and changes nothing but lower-case letters |
| ContainerRoutes.Upper | client_apis/chalicelib/container_routes.py:23 | `upper()` works character by character and keeps the length |
| ContainerRoutes.MakeRandomName | client_apis/chalicelib/container_routes.py:18-27 | the name is `OTM-` followed by the first draw whose name no container has; it fails (the draws run out) iff every draw collides |
| ContainerRoutes.CandidateShape | client_apis/chalicelib/container_routes.py:14-22 | a candidate from eight letters and digits is `OTM-` followed by eight upper-case letters or digits |
| ContainerRoutes.ListContainers | client_apis/chalicelib/container_routes.py:39-49 | 401 iff the caller may not read; otherwise the organisation's containers (`[]` without any), changing nothing |
| ContainerRoutes.GetContainer | client_apis/chalicelib/container_routes.py:85-97 | 401 iff the caller may not read; a configuration without `containers` raises, an unknown name gives 404, and a known one gives its stored data or its entry; nothing changes |
| ContainerRoutes.CreateContainer | client_apis/chalicelib/container_routes.py:52-82 | 401 iff the caller may not write; the only refusals are a missing name and a duplicated one |
| ContainerRoutes.CreateRefusals | client_apis/chalicelib/container_routes.py:60-68 | a missing `name` gives 400 "name is required"; with a name, 400 iff some container's `name` equals the requested name |
| ContainerRoutes.CreateAppends | client_apis/chalicelib/container_routes.py:63-82 | a created container is appended to the organisation's list with the requested name as label, equal created and updated stamps, no domains, the organisation, and a fresh `OTM-` name; nothing else is stored and no other organisation changes |
| ContainerRoutes.FirstBadField | client_apis/chalicelib/container_routes.py:117-133 | the first of observers, triggers and domains that is present but not a list, or none when all are fine |
| ContainerRoutes.Take | client_apis/chalicelib/container_routes.py:119-133 | a field copied from the body replaces the old value when the body has it, and nothing changes otherwise |
| ContainerRoutes.PutContainer | client_apis/chalicelib/container_routes.py:100-156 | 401 iff the caller may not write; a 400 names a list field the body sets to something else |
| ContainerRoutes.PutRefusals | client_apis/chalicelib/container_routes.py:117-133 | for a known container, 400 iff some list field is present but not a list, and the update succeeds otherwise |
| ContainerRoutes.UpdatedEntryFields | client_apis/chalicelib/container_routes.py:127-135 | the entry gets the new update stamp, a truthy new label and new domains, and keeps every other field |
| ContainerRoutes.UpdatedDataFields | client_apis/chalicelib/container_routes.py:114-149 | the data object gets the stamp, the organisation, the script URL, and each field the body sets |
| ContainerRoutes.PutUpdates | client_apis/chalicelib/container_routes.py:106-156 | a successful update replaces only the container's entry in the configuration, stores the updated data object under its key and publishes its script |
| ContainerRoutes.DeleteContainer | client_apis/chalicelib/container_routes.py:159-183 | 401 iff the caller may not write; a deletion removes the script and leaves the data objects alone |
| ContainerRoutes.DeleteSpec | client_apis/chalicelib/container_routes.py:165-181 | 404 iff no entry has the name; a deletion removes exactly the first entry with the name |
| GoalRoutes.Owned | admin_api/chalicelib/goal_routes.py:13-17 | the container is found iff the table has it and it belongs to the organisation |
| GoalRoutes.ListedKeyIsResultKey | admin_api/chalicelib/goal_routes.py:21-31 | the object each listed goal points at is the key the goal retrievers write its results under |
| GoalRoutes.ListGoals | admin_api/chalicelib/goal_routes.py:12-37 | 404 iff the container is missing or belongs to another organisation; otherwise one entry per stored goal, in order, with the goal and its result key, changing nothing |
| GoalRoutes.NewGoal | admin_api/chalicelib/goal_routes.py:61-90 | the new goal has the fresh id, the body's name and target, each match setting defaulting to 'eq' and path and label defaulting to null |
| GoalRoutes.CreateGoal | admin_api/chalicelib/goal_routes.py:51-97 | 404 iff the container is missing or foreign; otherwise the new goal is appended to its goals (starting from none) and no other container changes |
| GoalRoutes.FindGoal | admin_api/chalicelib/goal_routes.py:111 | the first goal with the id, or none |
| GoalRoutes.DeleteGoal | admin_api/chalicelib/goal_routes.py:102-117 | a missing or foreign container gives 404, and a deletion changes no other container |
| GoalRoutes.DeleteSpec | admin_api/chalicelib/goal_routes.py:108-117 | 404 iff no goal has the id; otherwise exactly the first goal with it is removed |
| GoalRoutes.CreateThenDelete | admin_api/chalicelib/goal_routes.py:51-117 | deleting a goal just created restores the container's goals |
| GoalRoutes.UpdateRequests | admin_api/chalicelib/goal_routes.py:126-153 | a job is queued iff the container is the organisation's and has a goal with the id; it carries TID, GOAL_ID, STARTDATE and ENDDATE in that order and changes no table |
| GoalRoutes.ListRoute | admin_api/chalicelib/goal_routes.py:10-12 | the listing runs iff the caller may read |
| GoalRoutes.CreateRoute | admin_api/chalicelib/goal_routes.py:40-51 | no write permission gives 401, then a missing body 400, and the creation runs only on a valid body |
| GoalRoutes.DeleteRoute | admin_api/chalicelib/goal_routes.py:100-102 | the deletion runs iff the caller may write |
| GoalRoutes.UpdateRequestsRoute | admin_api/chalicelib/goal_routes.py:120-126 | no write permission gives 401, then a missing body 400, and the request runs only on a valid body |
| GoalRoutes.BodyCheckedBeforeContainer | admin_api/chalicelib/goal_routes.py:120-136 | the body is checked before the container: a missing body gives 400 even for an unknown container, and a valid one then gives 404 |
| ContainerUsers.QueryBounds | admin_api/chalicelib/container_users_routes.py:29-34 | for an instant with a four-digit year, read as UTC from milliseconds, the `%Y%m%d` day bound is a digit string worth `year * 10000 + month * 100 + day`, and it is the date part of the `%Y-%m-%d %H:%M:%S` time bound with the dashes removed, so both bounds name the same day |
| ContainerUsers.CompactDateValue | admin_api/chalicelib/container_users_routes.py:29-34 | a `%Y%m%d` bound is a digit string whose value is `year * 10000 + month * 100 + day`, so comparing bounds compares days |
| ContainerUsers.DayMatchesTime | admin_api/chalicelib/container_users_routes.py:29-34 | the `%Y%m%d` text of an instant is the date part of its `%Y-%m-%d %H:%M:%S` text with the dashes removed |
| ContainerUsers.ResultArgs | admin_api/chalicelib/container_users_routes.py:78-82 | the result request carries the execution id, and the paging token iff the request had a non-empty one |
| ContainerUsers.TransformAll | admin_api/chalicelib/container_users_routes.py:126-131 | the rows transform iff every row does, one item per row in order |
| ContainerUsers.DataRows | admin_api/chalicelib/container_users_routes.py:121-123 | the first page drops its header row; later pages keep every row |
| ContainerUsers.ResultPage | admin_api/chalicelib/container_users_routes.py:113-140 | a query that has not succeeded gives its state and no items; a succeeded one saves usage iff it is the first page, passes on the next token, and raises iff some data row fails to transform |
| ContainerUsers.PageItems | admin_api/chalicelib/container_users_routes.py:121-131 | the items are the transformed rows: all rows after the header on the first page, every row on later pages |
| ContainerUsers.UsageOnFirstPageOnly | admin_api/chalicelib/container_users_routes.py:121-123 | usage is filed exactly when the query succeeded and the request carries no paging token: on every such request, so fetching the first page twice files it twice |
| ContainerUsers.UserItemOf | admin_api/chalicelib/container_users_routes.py:126-131 | a users row transforms iff it has a `cid` and a count in `c`; the item keeps `cid`, the possibly null `uid` and the count's value |
| ContainerUsers.DetailItemOf | admin_api/chalicelib/container_users_routes.py:189-200 | a detail row transforms iff it has its nine cells and a datetime; `is_verified` falls back to false iff its cell is null |
| ContainerUsers.AsWrittenIgnoresRecordKey | admin_api/chalicelib/container_users_routes.py:158-160 | on a `get_item` response (only `Item` and `ResponseMetadata`), the key read at the top level is always '' |
| ContainerUsers.AsWrittenMissesKey | admin_api/chalicelib/container_users_routes.py:158-160 | a user record with a non-empty `hash_key` is queried with '' as written, where its own key was meant |
| ContainerUsers.StartUserQueryAsWritten | admin_api/chalicelib/container_users_routes.py:151-165 | as written: 404 iff the response has no `Item`, and the query uses the top-level `hash_key` |
| ContainerUsers.StartUserQuery | admin_api/chalicelib/container_users_routes.py:151-165 | 404 iff the response has no `Item`; otherwise the query uses the record's own `hash_key` and the request's bounds |
| AdminUsers.OrgsOf | admin_api/app.py:47-54 | the user's memberships are exactly the role rows of that user, each with its roles |
| AdminUsers.GetUserResponse | admin_api/app.py:28-55 | a stored user is returned unchanged; an unknown one gives 404 iff the pool lacks it, and otherwise is copied from the pool with both stamps now; the answer carries the user's stamps, email and memberships, and only that user's record may change |
| AdminUsers.GetUserStable | admin_api/app.py:28-55 | asking again later gives the same answer and changes nothing: the stamps are fixed by the first read |
| AdminUsers.CreateNewUser | admin_api/app.py:135-151 | an existing user gives 400 and a name already in the pool 500; otherwise the user is added to the table and the pool with equal stamps, and nothing else changes |
| AdminUsers.CreateThenGet | admin_api/app.py:135-151 | a new user reads back with its email, the creation stamps and no memberships |
| AdminUsers.RolesWithout | admin_api/app.py:77-82 | the role rows left are exactly those of other users |
| AdminUsers.DeleteUser | admin_api/app.py:72-86 | an unknown user gives 400 and changes nothing; a deletion removes the user's table record, pool entry and role rows and nothing else, and happens iff the user is in the pool and its lookup does not raise |
| AdminUsers.DeleteUserAgrees | admin_api/app.py:72-86 | for any known user the corrected deletion is the code as written |
| AdminUsers.DeleteUnknownUserRaises | admin_api/app.py:73-75 | as written, deleting an unknown user removes its role rows and then raises (500), because a 404 response is truthy and the 400 branch is never taken |
| AdminUsers.DeleteUserClears | admin_api/app.py:77-85 | after a deletion no record, pool entry or role row of the user is left, and every other role row is kept |
| AdminUsers.CreateOrganization | admin_api/app.py:189-198 | an existing name gives 400 and changes nothing; otherwise the organisation is stored with both stamps now (201) |
| AdminUsers.OrganizationInfo | admin_api/app.py:203-208 | the organisation's record, or 404 iff there is none |
| AdminUsers.CreateOrganizationOnce | admin_api/app.py:189-208 | once created, the organisation reads back with its stamps and a second creation gives 400 |
| AdminUsers.InviteOrgUser | admin_api/app.py:215-227 | an unknown user or an existing membership gives 400 and changes nothing; otherwise the membership is stored with the roles (201) |
| AdminUsers.RemoveOrgUser | admin_api/app.py:232-238 | 404 without the membership; otherwise exactly that role row is removed (204) |
| AdminUsers.UpdateOrgUser | admin_api/app.py:244-251 | 404 without the membership; otherwise only its roles are replaced (201) |
| AdminUsers.InviteThenRemove | admin_api/app.py:215-238 | removing a membership just invited restores the store |
| AdminUsers.MembershipShowsInResponse | admin_api/app.py:215-251 | an invited membership shows in the user's response, and an updated one with its new roles |
| AdminUsers.RoutesKeepMembersKnown | admin_api/app.py:72-251 | every route keeps role rows only for users the table knows |
| AdminUsers.CreateNewUserRoute | admin_api/app.py:129-134 | the body is checked before the root check: a missing body gives 400 whoever calls, and a valid body runs the creation under the root check |
| AdminUsers.CreateOrganizationRoute | admin_api/app.py:186-188 | the root check comes first: a caller who is not root admin gets 401 whatever the body, and a root admin with a valid body runs the creation |
| AdminUsers.GuardOrderDiffers | admin_api/app.py:129-188 | for a caller without root admin, a missing body gives 400 on user creation but 401 on organisation creation |
| AdminUsers.MembershipRoute | admin_api/app.py:211-242 | the membership routes run iff the caller is admin of the organisation, and then answer as the handler does |

## Left out

- AWS, BigQuery and Cognito calls are not modelled as calls. S3 objects, DynamoDB tables and the user pool are maps. Query results are row sequences. Presigned URLs, content types and response headers are not modelled.
- SQL text and the query engines are not modelled. Each query is a list of tests with a meaning (`GoalQuery.Test`, `DataRetrieverApp.InWindow`), not the Presto or legacy-BigQuery string.
- The `retrying` decorator's waits are left out: only the ten attempts and the settled states are modelled.
- Floating point is left out: the averages of `url_table` and the usage sizes are exact rationals or integers.
- Time: `datetime.today()`, `time.time()` and `datetime.now()` are inputs. Local time is taken to be UTC.
- `uuid4` values are inputs.
- `random.choices` is a finite sequence of draws. `ContainerRoutes.MakeRandomName` fails (`Exhausted`) when every draw collides, where the source would keep recursing.
- Library internals are abstract: `url.parse` and `querystring.parse` are the record of functions `GraphUtil.UrlLib`, and `parse_qs` and `unquote` are abstract too. Python's `urlparse` is modelled concretely by `Url.Parse`, with the gaps listed on its own line.
- The regular expressions of `skipData` are one predicate `skip` on state names.
- cerberus schema validation is a predicate on the request body.
- Regex metacharacters inside route templates of `lookupPath` are treated as literal characters, because only the `{name}` holes are rewritten there.
- Date and number parsing is strict: only canonical digit strings are accepted, where `strptime`, `moment` and `int()` are more lenient.
- GoalResult.DateOfNumber: accepts eight-digit day numbers only, not the shorter forms Python's `strptime` tolerates for `%Y%m%d`.
- Url.Parse: `urlparse`, through `urlsplit`, also deletes every tab, carriage return and line feed in the URL, and it raises `ValueError` ("Invalid IPv6 URL") when the netloc holds a '[' without a ']' or a ']' without a '['. Neither is modelled: `Parse` keeps those characters, and it always returns parts.
- Url.NormalizeUrl: inherits both gaps of `Url.Parse`. For `http://[a/x`, `normalize_url` raises and the stats routes answer 500, while `NormalizeUrl` returns `http://[a/x`.
- AdminStats.MergeTable: merges `max_plt` with `max`, the corrected half of the `stats_routes.py:499` finding. The code adds it; `AdminStats.UrlTableMaxPltAsWritten` models that merge.
- AdminStats.UrlTable: is built on that corrected merge. Two rows of one key with `max_plt` 100 and 200 report 200 here, where the code reports 300 (`AdminStats.UrlTableMaxPltCounterexample`).
- GoalQuery.TermQuery: carries the corrected `GoalQuery.Tests`. The code keys the regex branches of the path and label tests on `target_match` (`GoalQuery.TestsAsWritten`). `GoalQuery.AsWrittenAgrees` states exactly when the two agree.
- GoalQuery.DailyQuery: carries the corrected `GoalQuery.Tests`, not the as-written `GoalQuery.TestsAsWritten` that goal.py:58-79 builds. `GoalQuery.AsWrittenAgrees` states exactly when the two agree.
- GoalQuery.PluginQuery: carries the corrected `https?` location test of `GoalQuery.PluginTests`. The code's `http?` test is `GoalQuery.PluginTestsAsWritten`.
- ContainerUsers.UserItemOf: accepts a count of digits only, where `int()` also accepts a sign and surrounding spaces.
- LogFormatter.RStrip: strips only the six characters space, `\t`, `\n`, `\r`, `\x0b` and `\x0c`. `str.rstrip` also strips the separators `\x1c` to `\x1f`, `\x85` and the other Unicode whitespace.
- LogFormatter.ParseLine: `unquote` and `parse_qs` are one abstract decoding function from the query text to key/value pairs.
- JavaScript `null` and `undefined` are one missing value, except where the code tells them apart (`StatId` labels, and the text `undefined` of a missing query key in `lookupPath`).
- In-place mutation and aliasing are modelled by returning new values. `convertUrlForTableData` works on a copy, so its input is unchanged by construction.
- Only the `containers` key of `config.json` is modelled. A container entry without `name` raises `KeyError` in the source; entries here always answer `NameIs` and that error is not modelled.
- A `hash_key` of a type other than string is not modelled.
- Paging over DynamoDB scans and queries (`get_all_users`, `organizations`, `org_users` with its `batch_get_item`) is left out. These routes only copy items into responses. `GoalResult.ScanJobsSpec` models the one scan whose paging matters.
- The order of a user's memberships in `get_user_response` follows the table's sort key. `AdminUsers.OrgsOf` gives them as a map from organisation to roles.
- Cognito errors other than a missing user are not modelled separately. A pool entry whose lookup raises is `LookupRaised`.
- `data_retriever/goals.py` is left out as an operation. Its `execute_result_yesterday` only builds and prints SQL, and `execute_full_result` does nothing. Its goal tests are the plugin's as written (`GoalQuery.PluginTestsAsWritten`), and the `http?` finding below covers its line 35.
- Script generation (`ScriptGenerator`, `S3Uploader`) is left out. `ContainerRoutes.PutContainer` takes the published script URL as an input.
- The usage report body `{'type': 'athena_scan', 'size': …}` is not modelled; only its key is (`RetrieverBase.UsageKey`).

## Findings

| source | as written | input that shows it | evidently intended | confidence | as-written member | corrected member |
|---|---|---|---|---|---|---|
| admin_api/chalicelib/stats_routes.py:133 | `url_links` rows are grouped by the string `url + '-' + p_url` | `http://a-b` with parent `http://c`, and `http://a` with parent `b-http://c`: both keys are `http://a-b-http://c`, so the two links merge into one | one link per distinct (url, p_url) pair | not executed | AdminStats.LinkKeyCollision | AdminStats.UrlLinksSpec |
| admin_api/chalicelib/stats_routes.py:499 | merging `url_table` rows adds `max_plt` | two rows of one key with `max_plt` 100 and 200 give 300 | the largest page-load time of the group, 200, as for `max_scroll_y` | not executed | AdminStats.UrlTableMaxPltCounterexample | AdminStats.UrlTableMeasures |
| data_retriever/otmplugins/otm-goal-plugin/goal.py:35 | the path test uses `^http?://[^/]+` | a goal with path `/done` and a hit at `https://shop.example/done` is not counted | `^https?://[^/]+`, as in the container retrievers | not executed | GoalQuery.PluginMissesHttps | GoalQuery.PluginCountsHttps |
| data_retriever/goal_term.py:53 | the regex branch of the path test is keyed on `target_match` | `path_match = 'regex'`, `target_match = 'eq'`, path `/item/.*`: the path is escaped and compared for equality | the path test uses `path_match`, and the label test uses `label_match` | not executed | GoalQuery.AsWrittenMisreadsPathMode | GoalQuery.Tests |
| admin_api/chalicelib/container_users_routes.py:158-160 | `hash_key` is read from the `get_item` response itself | a container record with `hash_key = 'k'`: the response has it only under `Item`, so the query runs with `''` | the record's own `hash_key` | not executed | ContainerUsers.AsWrittenMissesKey | ContainerUsers.StartUserQuery |
| admin_api/app.py:73-75 | `if not user_info` tests a chalice `Response`, which is always truthy | deleting a username that is neither in the table nor in the pool: its role rows are deleted and `admin_delete_user` raises, giving 500 | 400 "not found" with nothing deleted | not executed | AdminUsers.DeleteUnknownUserRaises | AdminUsers.DeleteUser |
