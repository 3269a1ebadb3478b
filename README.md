# SEODesk backend core in Dafny

SEODesk is a web backend for Search Console data. A signed-in user owns sites, and each
site sits in a group and carries tags. Every site stores one metric row per day:
clicks, impressions, click-through rate, average position and keyword count.

This project models the application handlers that read and change those tables:
- the dashboard query: filters, per-site totals, sorting, the summary and the merged day series;
- the metric synchronisation upsert;
- site discovery;
- tag, group, site-tag and favourite commands;
- user preferences and user info;
- user provisioning at Google sign-in;
- the Search Console response mapping;
- the controller logic for query defaults, site-id resolution and CSV export.

The database is the class `Store.Database`. Each table is a `seq` field that the handler
methods reassign, and `nextId` supplies fresh identifiers. Its invariant `Valid()`
carries the schema's primary keys and unique indexes:
- user e-mail and Google id;
- (UserId, Name) for tags;
- (UserId, PropertyId) for sites;
- (SiteId, TagId) for links;
- (SiteId, Date) for metric rows;
- one preference row per user.

A save that would break one of these indexes is rejected. The state is then unchanged,
and the handler reports what the source reports: a caught exception becomes a
`Failure`, and an uncaught one becomes `Thrown`.

Modules, one per area of the source:
- `Common`, `Entities`: `Result` (Success / Failure / Thrown), `Option`, and the entity and DTO records.
- `Store`: the `Database` class and the key predicates.
- `Seqs`, `Text`: the LINQ and string operations the handlers use (`Where`, `Select`, stable `OrderBy`, `Reverse`, `Trim`, `ToLower`, `Split`, `Join`).
- `Tallies`, `Series`: the sums and zero-guarded ratios of `CalculateTotals`/`CalculateSummary`, a site's day series, and `AggregateTimeSeries`.
- `Dashboard`, `Sync`, `Discovery`, `SiteOps`, `Tags`, `Groups`, `Users`, `Auth`: the handlers.
- `SearchConsole`: the response handling of the Search Console client.
- `Controllers`: the controller logic.

Where two revisions of a handler exist, the one under `Handlers/` is modelled. The older
files share its logic except for the differences listed under "Left out".

## Model

| member | source | states |
|---|---|---|
| Store.Database.constructor | src/SEODesk.Infrastructure/Data/ApplicationDbContext.cs:30-122 | an empty database satisfies every key and unique index of the schema |
| Store.Database.NewId | src/SEODesk.Application/Features/Users/Handlers/UpdateUserPreferencesHandler.cs:20 | a new identifier is non-empty and differs from every stored one, and the invariant is kept |
| Store.FilterUniqueLinks | src/SEODesk.Infrastructure/Data/ApplicationDbContext.cs:93 | removing site–tag links never breaks the (SiteId, TagId) key |
| Text.Trim | src/SEODesk.Application/Features/Groups/Handlers/UpdateGroupHandler.cs:38 | `Trim` never lengthens a name; it is empty exactly for a blank name; otherwise it neither starts nor ends with white space |
| Text.TrimInfix | src/SEODesk.Application/Features/Tags/TagOperations.cs:59 | the trimmed name is a contiguous piece of the input, with only white space cut from either side |
| Text.TrimIdempotent | src/SEODesk.Application/Features/Tags/Handlers/UpdateTagHandler.cs:51 | trimming a stored name again leaves it unchanged |
| Text.ToLower | src/SEODesk.API/Controllers/GroupsAndSitesControllers.cs:292 | lower-casing keeps the length and maps each character on its own, changing only 'A'–'Z' |
| Text.ToLowerIdempotent | src/SEODesk.Application/Features/Dashboard/Handlers/GetDashboardHandler.cs:152 | lower-casing an already lower-cased key changes nothing |
| Text.Utf16Length | src/SEODesk.Application/Features/Tags/Handlers/UpdateTagHandler.cs:20 | `Length` counts UTF-16 code units: between the number of characters and twice it, and equal to it exactly when no character lies outside the Basic Multilingual Plane |
| Text.Split | src/SEODesk.Application/Features/Users/Handlers/GetUserPreferencesHandler.cs:28 | `Split(',')` yields at least one piece, and no piece holds a comma |
| Text.JoinSplit | src/SEODesk.Application/Features/Users/Handlers/GetUserPreferencesHandler.cs:28 | joining the pieces of a split with the same separator restores the stored string |
| Text.SplitJoin | src/SEODesk.Application/Features/Users/Handlers/UpdateUserPreferencesHandler.cs:32 | splitting a comma join returns the list exactly when the list is non-empty and no entry holds a comma |
| Text.NatText | src/SEODesk.API/Controllers/GroupsAndSitesControllers.cs:309 | a count is written as a non-empty string of decimal digits |
| Text.NatTextValue | src/SEODesk.API/Controllers/GroupsAndSitesControllers.cs:309 | the digits written for a count read back as that count |
| Text.IntText | src/SEODesk.API/Controllers/GroupsAndSitesControllers.cs:309 | a signed count is written with digits and a leading '-' exactly when it is negative |
| Text.StrLeTotal | src/SEODesk.Application/Features/Dashboard/Handlers/GetDashboardHandler.cs:156 | any two domains are comparable under the ordinal order used for sorting by name |
| Text.StrLeTrans | src/SEODesk.Application/Features/Dashboard/Handlers/GetDashboardHandler.cs:156 | the ordinal domain order is transitive |
| Text.StrLeAntisymmetric | src/SEODesk.Application/Features/Dashboard/Handlers/GetDashboardHandler.cs:156 | two domains each ordered before the other are equal |
| Tallies.Finish | src/SEODesk.Application/Features/Dashboard/Handlers/GetDashboardHandler.cs:139-144 | an aggregate copies the clicks, impressions and keyword sums; ctr and position are 0 when there are no impressions |
| Tallies.FinishRatios | src/SEODesk.Application/Features/Dashboard/Handlers/GetDashboardHandler.cs:141-142 | with impressions, ctr × impressions = clicks and position × impressions = Σ position × impressions |
| Tallies.FinishRestores | src/SEODesk.Application/Features/Dashboard/Handlers/GetDashboardHandler.cs:132-144 | reading an aggregate back gives the same counts, and the same weighted position when no impressions are negative |
| Tallies.PartitionSum | src/SEODesk.Application/Features/Dashboard/Handlers/GetDashboardHandler.cs:170-173 | summing per site over distinct site ids that cover all rows equals summing all rows |
| Tallies.CalculateTotals | src/SEODesk.Application/Features/Dashboard/Handlers/GetDashboardHandler.cs:125-145 | no rows give the all-zero metrics; otherwise the aggregate of the rows' sums |
| Tallies.TotalsOfParts | src/SEODesk.Application/Features/Dashboard/Handlers/GetDashboardHandler.cs:125-145 | the totals of two runs of rows together combine the totals of each run: clicks, impressions and keywords add up, and without negative impressions the position is the impressions-weighted combination of the two positions |
| Tallies.RowsProper | src/SEODesk.Application/Features/Dashboard/Handlers/GetDashboardHandler.cs:134 | rows with non-negative impressions have a weighted sum of 0 whenever the impressions sum to 0 |
| Tallies.ZeroImpressionRowsIgnored | src/SEODesk.Application/Features/Dashboard/GetDashboard.cs:181-197 | adding rows with 0 impressions changes neither the impressions nor the average position |
| Tallies.PositionIsWeightedMean | src/SEODesk.Application/Features/Dashboard/Handlers/GetDashboardHandler.cs:134-142 | the average position lies between the least and greatest row position when impressions are positive |
| Tallies.MeanBounds | src/SEODesk.Application/Features/Dashboard/Handlers/GetDashboardHandler.cs:142 | a weighted sum bounded by lo × impressions and hi × impressions gives a mean between lo and hi |
| Tallies.WeightedBounds | src/SEODesk.Application/Features/Dashboard/Handlers/GetDashboardHandler.cs:134 | rows with positions in [lo, hi] and non-negative impressions give a weighted sum within those bounds |
| Tallies.CtrIsFraction | src/SEODesk.Application/Features/Dashboard/Handlers/GetDashboardHandler.cs:141 | when no row has more clicks than impressions, the ctr lies in [0, 1] |
| Tallies.ClicksBounded | src/SEODesk.Application/Features/Dashboard/Handlers/GetDashboardHandler.cs:132-133 | when no row has more clicks than impressions, neither do the totals |
| Series.PointOf | src/SEODesk.Application/Features/Dashboard/Handlers/GetDashboardHandler.cs:91-99 | a point carries exactly the figures of its row |
| Series.SiteSeriesSpec | src/SEODesk.Application/Features/Dashboard/Handlers/GetDashboardHandler.cs:89-100 | a site's series has one point per window row, holds exactly the rows' points, is ordered by day, and sums to the rows' totals |
| Series.SiteSeriesStrict | src/SEODesk.Application/Features/Dashboard/Handlers/GetDashboardHandler.cs:90 | with one row per day, the series days strictly increase |
| Series.SeriesSum | src/SEODesk.Application/Features/Dashboard/Handlers/GetDashboardHandler.cs:91-99 | converting rows to points keeps every sum |
| Series.GroupKeys | src/SEODesk.Application/Features/Dashboard/Handlers/GetDashboardHandler.cs:192 | the group-by keys are the days of the points, each once |
| Series.Buckets | src/SEODesk.Application/Features/Dashboard/Handlers/GetDashboardHandler.cs:195-211 | one merged point per key, each aggregating the points of its day |
| Series.AggregateOrdered | src/SEODesk.Application/Features/Dashboard/Handlers/GetDashboardHandler.cs:193 | the merged series is in strictly ascending day order |
| Series.AggregateDates | src/SEODesk.Application/Features/Dashboard/Handlers/GetDashboardHandler.cs:190-193 | the merged series has a point for every day of any site's series and no other day |
| Series.SiteSeriesDay | src/SEODesk.Application/Features/Dashboard/Handlers/GetDashboardHandler.cs:89-100 | the points of one day in a site's series add up exactly to that site's rows of the day |
| Series.FlattenDay | src/SEODesk.Application/Features/Dashboard/Handlers/GetDashboardHandler.cs:190-191 | the points of one day among all sites' points add up site by site |
| Series.AggregateTotals | src/SEODesk.Application/Features/Dashboard/Handlers/GetDashboardHandler.cs:188-212 | merging by day keeps the total clicks, impressions and keywords of all points |
| Series.BucketsCount | src/SEODesk.Application/Features/Dashboard/Handlers/GetDashboardHandler.cs:195-211 | the merged points sum to the per-day sums of the points |
| Series.SortedKeys | src/SEODesk.Application/Features/Dashboard/Handlers/GetDashboardHandler.cs:193 | ordering distinct keys is a permutation in strictly ascending order |
| Dashboard.NarrowSpec | src/SEODesk.Application/Features/Dashboard/Handlers/GetDashboardHandler.cs:45-54 | the filters keep exactly the sites in the given group that carry the given tag, in their order; a missing or empty id keeps every site |
| Dashboard.Entries | src/SEODesk.Application/Features/Dashboard/Handlers/GetDashboardHandler.cs:75-102 | one entry per listed site, built from that site alone |
| Dashboard.ParseSortKey | src/SEODesk.Application/Features/Dashboard/Handlers/GetDashboardHandler.cs:152-158 | the key is matched case-insensitively; "impressions" and "name" select those orders, and anything else sorts by clicks |
| Dashboard.OrderIsTotal | src/SEODesk.Application/Features/Dashboard/Handlers/GetDashboardHandler.cs:154-157 | each sort key is a total preorder on entries |
| Dashboard.SortSites | src/SEODesk.Application/Features/Dashboard/Handlers/GetDashboardHandler.cs:150-163 | the result is a permutation of the entries, ascending by the key, or descending when the direction is "desc" in any case |
| Dashboard.SortDescReverses | src/SEODesk.Application/Features/Dashboard/Handlers/GetDashboardHandler.cs:160-162 | the "desc" order is exactly the reverse of the ascending order |
| Dashboard.SortSitesStable | src/SEODesk.Application/Features/Dashboard/Handlers/GetDashboardHandler.cs:150-163 | sites ranked level by the key keep their input order, and for "desc" the reverse of it: OrderBy is stable |
| Dashboard.SortCaseInsensitive | src/SEODesk.Application/Features/Dashboard/Handlers/GetDashboardHandler.cs:152-162 | the order depends on the sort key and direction only up to letter case |
| Dashboard.CalculateSummary | src/SEODesk.Application/Features/Dashboard/Handlers/GetDashboardHandler.cs:168-183 | the summary counts are the sums over the entries' totals; ctr and position are 0 without impressions |
| Dashboard.Report | src/SEODesk.Application/Features/Dashboard/Handlers/GetDashboardHandler.cs:105-119 | the response lists one entry per listed site and carries the pre-filter site count |
| Dashboard.ComposeCounts | src/SEODesk.Application/Features/Dashboard/Handlers/GetDashboardHandler.cs:42-64 | the total is the user's site count before filtering; a filter that leaves nothing yields only that count; no sites yields the default response |
| Dashboard.DiscoverWhenNoSites | src/SEODesk.Application/Features/Dashboard/Handlers/GetDashboardHandler.cs:26-40 | discovery may change the database only when the user has no sites and both client credentials are set, and then it only adds sites |
| Dashboard.GetDashboard | src/SEODesk.Application/Features/Dashboard/Handlers/GetDashboardHandler.cs:16-120 | the response is composed from the tables after any discovery; without that discovery nothing changes, and sites are only ever added |
| Dashboard.EntryFigures | src/SEODesk.Application/Features/Dashboard/Handlers/GetDashboardHandler.cs:77-100 | a site's totals and its series add up the same window rows, so they agree |
| Dashboard.EntriesSum | src/SEODesk.Application/Features/Dashboard/Handlers/GetDashboardHandler.cs:75-102 | the entries' totals add up to the sum over the window rows of each listed site |
| Dashboard.DistinctIds | src/SEODesk.Infrastructure/Data/ApplicationDbContext.cs:79 | distinct site rows have distinct site ids |
| Dashboard.SummaryIsWindowTotals | src/SEODesk.Application/Features/Dashboard/Handlers/GetDashboardHandler.cs:67-108 | the summary counts equal the sums over every selected window row; with non-negative impressions the summary equals `CalculateTotals` of those rows |
| Dashboard.SeriesMatchesSummary | src/SEODesk.Application/Features/Dashboard/Handlers/GetDashboardHandler.cs:108-111 | the merged series sums to the summary's clicks, impressions and keywords |
| Dashboard.FlattenCounts | src/SEODesk.Application/Features/Dashboard/Handlers/GetDashboardHandler.cs:190-191 | all the sites' series together sum to the entries' totals |
| Dashboard.FlattenMembers | src/SEODesk.Application/Features/Dashboard/Handlers/GetDashboardHandler.cs:191 | a point is in the combined series exactly when it is in some entry's series |
| Dashboard.RowDayListed | src/SEODesk.Application/Features/Dashboard/Handlers/GetDashboardHandler.cs:89-100 | every window row of a listed site appears as a point of the combined series |
| Dashboard.PointFromRow | src/SEODesk.Application/Features/Dashboard/Handlers/GetDashboardHandler.cs:89-100 | every point of the combined series comes from a window row |
| Dashboard.FlattenDays | src/SEODesk.Application/Features/Dashboard/Handlers/GetDashboardHandler.cs:89-100 | the combined series covers exactly the days of the window rows |
| Dashboard.SeriesDays | src/SEODesk.Application/Features/Dashboard/Handlers/GetDashboardHandler.cs:67-111 | the merged series has one point per day of the selected rows, strictly ascending |
| Dashboard.EntryDay | src/SEODesk.Application/Features/Dashboard/Handlers/GetDashboardHandler.cs:67-100 | a site's entry contributes to a day exactly its window rows of that day |
| Dashboard.EntriesDay | src/SEODesk.Application/Features/Dashboard/Handlers/GetDashboardHandler.cs:67-108 | the listed sites' entries contribute to a day, site by site, their window rows of that day |
| Dashboard.SeriesPointIsDayTotals | src/SEODesk.Application/Features/Dashboard/Handlers/GetDashboardHandler.cs:188-212 | each merged point has the clicks, impressions, keywords, ctr and position that CalculateTotals gives for that day's window rows of all listed sites |
| SearchConsole.TruncateToLong | src/SEODesk.Infrastructure/Services/GoogleSearchConsoleService.cs:84-85 | the `(long)` cast drops the fraction, rounding toward zero |
| SearchConsole.MetricOf | src/SEODesk.Infrastructure/Services/GoogleSearchConsoleService.cs:81-88 | a row keeps its date and measures, and a missing measure becomes 0 |
| SearchConsole.SiteMetrics | src/SEODesk.Infrastructure/Services/GoogleSearchConsoleService.cs:76-88 | null rows give none; otherwise one entry per row, in row order |
| SearchConsole.KeywordsCount | src/SEODesk.Infrastructure/Services/GoogleSearchConsoleService.cs:112 | the keyword count is the number of rows, or 0 for null rows |
| SearchConsole.NoRowsOn | src/SEODesk.Infrastructure/Services/GoogleSearchConsoleService.cs:141-146 | a day that is not among the row days has no rows |
| SearchConsole.CountByDateSpec | src/SEODesk.Infrastructure/Services/GoogleSearchConsoleService.cs:141-146 | the per-day map has exactly the row days as keys, each mapped to its number of rows |
| SearchConsole.KeywordsByDate | src/SEODesk.Infrastructure/Services/GoogleSearchConsoleService.cs:136-146 | null rows give an empty map; otherwise the map counts rows per day |
| SearchConsole.Days | src/SEODesk.Infrastructure/Services/GoogleSearchConsoleService.cs:142 | the days of the rows, each once |
| SearchConsole.CountByDateSum | src/SEODesk.Infrastructure/Services/GoogleSearchConsoleService.cs:141-146 | the per-day counts add up to the number of rows |
| SearchConsole.KeywordsByDateTotal | src/SEODesk.Infrastructure/Services/GoogleSearchConsoleService.cs:136-146 | the per-day map's keys are the row days and its values add up to the total keyword count |
| Sync.KeywordsFor | src/SEODesk.Application/Features/Sites/Handlers/SyncSiteDataHandler.cs:50 | a day missing from the keyword map counts 0 keywords |
| Sync.LastFetched | src/SEODesk.Application/Features/Sites/Handlers/SyncSiteDataHandler.cs:45-77 | the entry that decides a day's figures is a fetched entry of that day, and exists exactly when the day was fetched |
| Sync.Updated | src/SEODesk.Application/Features/Sites/Handlers/SyncSiteDataHandler.cs:47-60 | the in-place updates keep the number of rows and each row's site, day and creation time |
| Sync.RowLookup | src/SEODesk.Application/Features/Sites/Handlers/SyncSiteDataHandler.cs:47-48 | with unique (site, day) rows, the lookup finds exactly the site's row for the day, and none when the day is not stored |
| Sync.UpdatedRows | src/SEODesk.Application/Features/Sites/Handlers/SyncSiteDataHandler.cs:45-77 | after the loop each stored row of the site for a fetched day holds the figures of the last entry of that day; other rows are untouched |
| Sync.SyncedRowTwice | src/SEODesk.Application/Features/Sites/Handlers/SyncSiteDataHandler.cs:52-58 | overwriting a row twice with the same fetched figures equals doing it once |
| Sync.UpdatedKeys | src/SEODesk.Application/Features/Sites/Handlers/SyncSiteDataHandler.cs:52-58 | the updates keep the (SiteId, Date) keys, so the site keeps its stored days |
| Sync.InsertedRows | src/SEODesk.Application/Features/Sites/Handlers/SyncSiteDataHandler.cs:62-75 | inserted rows belong to the site and fall on days it has no row for; they are distinct per day exactly when those fetched days are |
| Sync.AppendUnique | src/SEODesk.Infrastructure/Data/ApplicationDbContext.cs:110 | appending the site's rows for new days keeps (SiteId, Date) unique exactly when they are distinct per day |
| Sync.SyncAccepted | src/SEODesk.Application/Features/Sites/Handlers/SyncSiteDataHandler.cs:83 | the save is accepted exactly when no new day was fetched twice |
| Sync.LastFetchedDistinct | src/SEODesk.Application/Features/Sites/Handlers/SyncSiteDataHandler.cs:45 | with distinct fetched days, a day's figures come from its only entry |
| Sync.FetchedDaysStored | src/SEODesk.Application/Features/Sites/Handlers/SyncSiteDataHandler.cs:45-77 | after the sync every fetched day has a row for the site |
| Sync.InsertedRowStays | src/SEODesk.Application/Features/Sites/Handlers/SyncSiteDataHandler.cs:62-75 | an inserted row already holds its day's figures |
| Sync.SyncedRowsStay | src/SEODesk.Application/Features/Sites/Handlers/SyncSiteDataHandler.cs:45-77 | with distinct fetched days, every row after a sync already holds what a second sync would write |
| Sync.SecondSyncSame | src/SEODesk.Application/Features/Sites/Handlers/SyncSiteDataHandler.cs:45-77 | repeating the sync with the same fetched data and distinct days leaves the table as it is |
| Sync.UpsertRows | src/SEODesk.Application/Features/Sites/Handlers/SyncSiteDataHandler.cs:45-77 | the loop overwrites each fetched day's stored row in place and queues a new row for each fetched day with none |
| Sync.UpdatedStep | src/SEODesk.Application/Features/Sites/Handlers/SyncSiteDataHandler.cs:47-60 | one more fetched entry overwrites the site's stored row for its day, if there is one, and nothing else |
| Sync.InsertedStep | src/SEODesk.Application/Features/Sites/Handlers/SyncSiteDataHandler.cs:61-76 | one more fetched entry adds a row exactly when its day has no stored row |
| Sync.SyncSucceeds | src/SEODesk.Application/Features/Sites/Handlers/SyncSiteDataHandler.cs:22-85 | an owned site whose fetch succeeds with distinct days syncs successfully |
| Sync.SyncSiteData | src/SEODesk.Application/Features/Sites/Handlers/SyncSiteDataHandler.cs:19-95 | an unknown site changes nothing; success upserts the fetched rows, stamps `LastSyncedAt` and clears `SyncError`; a failed fetch records its message and leaves the rows |
| Sync.SaveFetched | src/SEODesk.Application/Features/Sites/Handlers/SyncSiteDataHandler.cs:79-83 | the save succeeds exactly when the new rows keep (SiteId, Date) unique, and then installs the synced table and the sync stamp |
| Sync.SiteByPropertyId | src/SEODesk.Application/Features/Sites/Handlers/SyncSiteDataHandler.cs:13-17 | a site is returned only when both the user and the property id match, and none exactly when no such site exists |
| Sync.SiteByPropertyIdUnique | src/SEODesk.Application/Features/Sites/SiteOperations.cs:127-131 | under the (UserId, PropertyId) index, the lookup returns the one matching site |
| Discovery.Missing | src/SEODesk.Application/Features/Sites/Handlers/DiscoverSitesHandler.cs:42-61 | the entries inserted are the remote entries not stored locally, in order, repetitions kept |
| Discovery.TargetGroup | src/SEODesk.Application/Features/Sites/Handlers/DiscoverSitesHandler.cs:39-40 | new sites go into one of the user's groups, a default one if any exists; there is none exactly when the user has no group |
| Discovery.NewSites | src/SEODesk.Application/Features/Sites/Handlers/DiscoverSitesHandler.cs:50-58 | one new site per entry, with consecutive fresh ids, not favourite and never synced |
| Discovery.SaveAccepted | src/SEODesk.Infrastructure/Data/ApplicationDbContext.cs:82 | inserting sites for entries not stored locally keeps the indexes unique exactly when the entries are distinct |
| Discovery.OwnedIdIsLocal | src/SEODesk.Application/Features/Sites/Handlers/DiscoverSitesHandler.cs:34-37 | every property id of the user's sites is in the local list |
| Discovery.LocalIdsAppend | src/SEODesk.Application/Features/Sites/Handlers/DiscoverSitesHandler.cs:34-37 | after inserting the user's sites, the local list grows by their property ids |
| Discovery.SecondRunAddsNothing | src/SEODesk.Application/Features/Sites/DiscoverSites.cs:48-60 | after one run, a second run against the same remote list finds nothing to insert |
| Discovery.NewSitesSnoc | src/SEODesk.Application/Features/Sites/Handlers/DiscoverSitesHandler.cs:42-61 | each loop step appends one site with the next fresh id |
| Discovery.NewSitesIds | src/SEODesk.Application/Features/Sites/Handlers/DiscoverSitesHandler.cs:55 | the inserted sites' property ids are exactly the inserted entries |
| Discovery.MissingNone | src/SEODesk.Application/Features/Sites/Handlers/DiscoverSitesHandler.cs:44-47 | when every remote entry is stored locally, nothing is inserted |
| Discovery.DiscoveryCount | src/SEODesk.Application/Features/Sites/Handlers/DiscoverSitesHandler.cs:13-74 | a success reports the number of entries not stored locally, each occurring once; an unknown user is a failure |
| Discovery.MissingStep | src/SEODesk.Application/Features/Sites/Handlers/DiscoverSitesHandler.cs:44-60 | each loop step adds its entry to the inserts exactly when it is not stored locally |
| Discovery.CollectNew | src/SEODesk.Application/Features/Sites/Handlers/DiscoverSitesHandler.cs:42-61 | the loop counts the remote entries not stored locally and builds one new site for each |
| Discovery.DiscoverSites | src/SEODesk.Application/Features/Sites/Handlers/DiscoverSitesHandler.cs:13-74 | the result is the number of remote entries not stored locally, or the failure of the source; with a positive count their sites are appended in the target group, and otherwise nothing changes |
| Discovery.AddDiscovered | src/SEODesk.Application/Features/Sites/Handlers/DiscoverSitesHandler.cs:42-66 | counts the entries not stored locally and saves their sites only when the count is positive and the save is accepted |
| Discovery.SaveSites | src/SEODesk.Application/Features/Sites/Handlers/DiscoverSitesHandler.cs:63-66 | the save succeeds exactly when the sites keep the indexes unique, and then appends them |
| SiteOps.MatchingIds | src/SEODesk.Application/Features/Sites/Handlers/UpdateSiteTagsHandler.cs:24-27 | the matching tags have distinct ids, all among the requested ones and all the user's |
| SiteOps.TagCountCheck | src/SEODesk.Application/Features/Sites/Handlers/UpdateSiteTagsHandler.cs:24-32 | the tag-count comparison passes exactly when every requested id is one of the user's tags and no id is repeated |
| SiteOps.CountCheckMeans | src/SEODesk.Application/Features/Sites/Handlers/UpdateSiteTagsHandler.cs:29 | a passing tag-count comparison means every id is the user's tag and none repeats |
| SiteOps.CountCheckPasses | src/SEODesk.Application/Features/Sites/Handlers/UpdateSiteTagsHandler.cs:29 | distinct ids of the user's tags pass the tag-count comparison |
| SiteOps.RelinkedSpec | src/SEODesk.Application/Features/Sites/Handlers/UpdateSiteTagsHandler.cs:35-46 | afterwards the site's tags are exactly the requested ids, in order; other sites' links are kept; the links stay unique |
| SiteOps.RelinkedOwn | src/SEODesk.Application/Features/Sites/Handlers/UpdateSiteTagsHandler.cs:35-46 | the site's links after the replacement name exactly the requested tags |
| SiteOps.RelinkedOther | src/SEODesk.Application/Features/Sites/Handlers/UpdateSiteTagsHandler.cs:35 | the links of every other site are untouched |
| SiteOps.RelinkedUnique | src/SEODesk.Infrastructure/Data/ApplicationDbContext.cs:93 | with distinct ids the replacement keeps (SiteId, TagId) unique |
| SiteOps.SiteTagsOutcomeSpec | src/SEODesk.Application/Features/Sites/Handlers/UpdateSiteTagsHandler.cs:14-32 | "Site not found" exactly for a site that is not the user's; success exactly when, besides, the ids are distinct tags of the user, so an empty list succeeds |
| SiteOps.AddLinks | src/SEODesk.Application/Features/Sites/Handlers/UpdateSiteTagsHandler.cs:37-46 | the loop appends one link per requested id, in order |
| SiteOps.UpdateSiteTags | src/SEODesk.Application/Features/Sites/Handlers/UpdateSiteTagsHandler.cs:11-51 | "Site not found" or "Some tags not found" leave everything unchanged; on success the site's links are replaced by one link per requested id and nothing else changes |
| SiteOps.SetFavoriteSpec | src/SEODesk.Application/Features/Sites/Handlers/ToggleFavoriteHandler.cs:20-21 | only the flag of the user's site changes, to the requested value, and repeating the command changes nothing |
| SiteOps.ToggleFavorite | src/SEODesk.Application/Features/Sites/Handlers/ToggleFavoriteHandler.cs:10-24 | fails with "Site not found" for a site that is not the user's, changing nothing; otherwise sets the flag |
| SiteOps.ExportSpec | src/SEODesk.Application/Features/Sites/Handlers/ExportSiteDataHandler.cs:10-37 | "Site not found" unless the site is the user's; otherwise exactly the site's rows within the inclusive range, as points ordered by day, strictly ordered under the (SiteId, Date) index |
| SiteOps.ExportDaysDistinct | src/SEODesk.Infrastructure/Data/ApplicationDbContext.cs:110 | under the (SiteId, Date) index the exported rows have distinct days |
| Tags.AddTagUnique | src/SEODesk.Infrastructure/Data/ApplicationDbContext.cs:73 | a new tag keeps (UserId, Name) unique exactly when the user has no tag of that name |
| Tags.RenameTagUnique | src/SEODesk.Infrastructure/Data/ApplicationDbContext.cs:73 | a rename keeps (UserId, Name) unique exactly when no other tag of the user has the new name |
| Tags.CreateTag | src/SEODesk.Application/Features/Tags/TagOperations.cs:32-73 | blank names and names over 30 UTF-16 code units fail before any lookup; a taken raw name fails; otherwise the trimmed name is stored as a deletable tag, unless it collides after trimming |
| Tags.AddTag | src/SEODesk.Application/Features/Tags/TagOperations.cs:64-65 | the insert is saved exactly when the tag keeps the indexes unique |
| Tags.CreateThrowsOnlyForPadded | src/SEODesk.Application/Features/Tags/TagOperations.cs:46-59 | the save can be rejected only for a name that trimming changes |
| Tags.UpdateTag | src/SEODesk.Application/Features/Tags/Handlers/UpdateTagHandler.cs:12-60 | a blank name or one over 30 UTF-16 code units fails first; then "Tag not found", "Cannot rename system tag", or a taken name of another tag; on success only that tag's name changes, to the trimmed input |
| Tags.RenameToOwnName | src/SEODesk.Application/Features/Tags/Handlers/UpdateTagHandler.cs:40-48 | a tag's own name never counts as taken, so renaming it to its current name passes |
| Tags.DeleteTag | src/SEODesk.Application/Features/Tags/Handlers/DeleteTagHandler.cs:10-34 | "Tag not found" or "Cannot delete system tag" leave everything unchanged; success removes the tag and every link to it |
| Tags.RemoveTag | src/SEODesk.Application/Features/Tags/Handlers/DeleteTagHandler.cs:27-31 | removes the tag and its links, and nothing else |
| Tags.DeleteKeepsKeys | src/SEODesk.Application/Features/Tags/Handlers/DeleteTagHandler.cs:27-31 | afterwards no link names the tag, every other tag and link is kept, and the keys stay unique |
| Tags.FilterUniqueTags | src/SEODesk.Infrastructure/Data/ApplicationDbContext.cs:71-73 | removing tags never breaks the tag indexes |
| Tags.CreatedLeTotal | src/SEODesk.Application/Features/Tags/Handlers/GetTagsHandler.cs:15 | ordering by creation time is a total preorder |
| Tags.UserTags | src/SEODesk.Application/Features/Tags/Handlers/GetTagsHandler.cs:13-16 | the user's tags, permuted into creation order |
| Tags.UserTagsSpec | src/SEODesk.Application/Features/Tags/Handlers/GetTagsHandler.cs:13-16 | exactly the user's tags, ascending by creation time |
| Tags.GetTags | src/SEODesk.Application/Features/Tags/Handlers/GetTagsHandler.cs:11-25 | always a success; one entry per tag of the user, copying id, name and deletability in creation order |
| Groups.GroupLeTotal | src/SEODesk.Application/Features/Groups/Handlers/GetGroupsHandler.cs:15-16 | default-first, then by creation time, is a total preorder |
| Groups.UserGroups | src/SEODesk.Application/Features/Groups/Handlers/GetGroupsHandler.cs:13-16 | the user's groups, permuted into list order |
| Groups.GetGroups | src/SEODesk.Application/Features/Groups/Handlers/GetGroupsHandler.cs:11-38 | always a success; the virtual "All" group first, and one more entry than the user has groups |
| Groups.GetGroupsSpec | src/SEODesk.Application/Features/Groups/Handlers/GetGroupsHandler.cs:13-35 | after "All" come exactly the user's groups, default groups first and each kind oldest first |
| Groups.UserGroupsMembers | src/SEODesk.Application/Features/Groups/Handlers/GetGroupsHandler.cs:14 | the listed groups are exactly the user's |
| Groups.UserGroupsOrder | src/SEODesk.Application/Features/Groups/Handlers/GetGroupsHandler.cs:15-16 | no non-default group precedes a default one, and groups of the same kind are in creation order |
| Groups.UpdateGroup | src/SEODesk.Application/Features/Groups/Handlers/UpdateGroupHandler.cs:10-48 | a blank name and a raw length over 40 UTF-16 code units fail before the lookup; then "Group not found" and "Cannot rename default group"; success changes only that group's name, to the trimmed input |
| Users.GetUserInfo | src/SEODesk.Application/Features/Users/Handlers/GetUserInfoHandler.cs:13-49 | "User not found" exactly for an unknown id; otherwise the user's e-mail, name, avatar and plan, with the annual promotion exactly on a trial |
| Users.GetPreferences | src/SEODesk.Application/Features/Users/Handlers/GetUserPreferencesHandler.cs:11-33 | always a success; the defaults without a stored row, and otherwise the stored row with its metrics split at commas |
| Users.DefaultRowView | src/SEODesk.Application/Features/Users/Handlers/UpdateUserPreferencesHandler.cs:18-25 | a lazily created row reads back as the default preferences |
| Users.Applied | src/SEODesk.Application/Features/Users/Handlers/UpdateUserPreferencesHandler.cs:30-50 | only supplied fields overwrite the row, metrics stored as their comma join; the update time is always refreshed |
| Users.UpdatedPreferences | src/SEODesk.Application/Features/Users/Handlers/UpdateUserPreferencesHandler.cs:12-27 | the table gains at most one row, and other users' rows are untouched |
| Users.UpdatedPreferencesUnique | src/SEODesk.Infrastructure/Data/ApplicationDbContext.cs:122 | after the update each user still has at most one preference row |
| Users.UpdatePreferences | src/SEODesk.Application/Features/Users/Handlers/UpdateUserPreferencesHandler.cs:10-54 | always succeeds; the user's row, created with the defaults if missing, gets the supplied fields; no other table changes |
| Users.SavePreferences | src/SEODesk.Application/Features/Users/Handlers/UpdateUserPreferencesHandler.cs:51 | installs a preference table that keeps one row per user |
| Users.UpdatedRowFound | src/SEODesk.Application/Features/Users/Handlers/UpdateUserPreferencesHandler.cs:12-27 | the user's row afterwards is the old one, or a new default row, with the update applied |
| Users.UpdateThenGet | src/SEODesk.Application/Features/Users/UserOperations.cs:118-186 | reading after an update returns the supplied fields and the old values of the rest; the metrics round-trip exactly when the list is non-empty and comma-free |
| Auth.NewAccount | src/SEODesk.API/Controllers/AuthController.cs:89-102 | a new user is on trial, named by the name claim or else the e-mail, with the supplied refresh token or else "" |
| Auth.SignedInAgain | src/SEODesk.API/Controllers/AuthController.cs:134-145 | a later login keeps name and picture when the claim is missing, replaces the token only with a non-empty one, and never empties a stored token |
| Auth.FirstLoginAcceptedWhen | src/SEODesk.API/Controllers/AuthController.cs:147 | the first-login save is accepted exactly when the e-mail is unused and no tag or preference row already refers to the new user |
| Auth.UsersAppend | src/SEODesk.Infrastructure/Data/ApplicationDbContext.cs:30-35 | a new user with a fresh id and Google id keeps the user indexes unique exactly when the e-mail is unused |
| Auth.TagsAppend | src/SEODesk.Infrastructure/Data/ApplicationDbContext.cs:73 | a tag with a fresh id keeps (UserId, Name) unique exactly when the user has no tag of that name |
| Auth.PrefsAppend | src/SEODesk.Infrastructure/Data/ApplicationDbContext.cs:122 | a preference row with a fresh id is accepted exactly when the user has none |
| Auth.SignedInAgainUnique | src/SEODesk.Infrastructure/Data/ApplicationDbContext.cs:30-35 | a later login never breaks the user indexes |
| Auth.CreateAccount | src/SEODesk.API/Controllers/AuthController.cs:89-147 | a first login adds the user, the default group, the "All" tag and a preference row, or changes nothing when the save is rejected |
| Auth.Provision | src/SEODesk.API/Controllers/AuthController.cs:71-147 | missing Google id or e-mail fails with no change; a known Google id updates that user only; otherwise the account is created |
| Auth.SignIn | src/SEODesk.API/Controllers/AuthController.cs:71-157 | discovery runs exactly when provisioning succeeded and the stored token is non-empty, and only adds sites |
| Auth.FirstLoginRows | src/SEODesk.API/Controllers/AuthController.cs:106-132 | a new user owns exactly one default group "My sites", one non-deletable "All" tag and one preference row |
| Controllers.DashboardQueryOf | src/SEODesk.API/Controllers/DashboardController.cs:25-54 | a missing end is today and a missing start is 28 days before the end; sort defaults are "clicks" and "desc"; supplied values pass unchanged |
| Controllers.DayRange | src/SEODesk.Application/Features/Dashboard/Handlers/GetDashboardHandler.cs:69-72 | the inclusive window holds exactly the days from start to end, and none when start is after end |
| Controllers.DefaultWindow | src/SEODesk.API/Controllers/DashboardController.cs:38-39 | with both dates missing the window ends today and spans 29 days; a start after the end is kept and selects no day |
| Controllers.ResolveSiteId | src/SEODesk.API/Controllers/GroupsAndSitesControllers.cs:144-154 | a parsable id is used as is; otherwise the user's site with that property id, and none exactly when there is no such site |
| Controllers.HeaderColumns | src/SEODesk.API/Controllers/GroupsAndSitesControllers.cs:305 | the header is the six column names joined by commas |
| Controllers.Fields | src/SEODesk.API/Controllers/GroupsAndSitesControllers.cs:309 | each data line has six fields |
| Controllers.GenerateCsv | src/SEODesk.API/Controllers/GroupsAndSitesControllers.cs:302-313 | the writer loop produces the header line followed by one line per point |
| Controllers.CsvLines | src/SEODesk.API/Controllers/GroupsAndSitesControllers.cs:305-310 | the CSV is the header and the point lines joined by line breaks, ending with one |
| Controllers.CsvShape | src/SEODesk.API/Controllers/GroupsAndSitesControllers.cs:305-312 | split into lines, the CSV is the header, one line per point in input order, and an empty remainder: n points give n + 1 lines |
| Controllers.HeaderSplit | src/SEODesk.API/Controllers/GroupsAndSitesControllers.cs:305 | the header splits into exactly the six column names |
| Controllers.LineFields | src/SEODesk.API/Controllers/GroupsAndSitesControllers.cs:309 | a data line splits back into its six fields: date, clicks, impressions, ctr, position, keywords |
| Controllers.FieldsPlain | src/SEODesk.API/Controllers/GroupsAndSitesControllers.cs:309 | no field holds a comma or a line break, so a line is one line |
| Controllers.ExportFile | src/SEODesk.API/Controllers/GroupsAndSitesControllers.cs:262-300 | an unresolved id gives "Site not found"; the handler's failure is passed on; then "csv" in any case gives the CSV and any other format "Unsupported format" |
| Controllers.ExportFileSites | src/SEODesk.API/Controllers/GroupsAndSitesControllers.cs:144-154 | a successful export is always of a site of the user |

## Left out

- I/O and frameworks: HTTP, routing, JWT issuing, cookies, the Google sign-in challenge and redirects, `GetUserId` claim parsing, dependency injection, configuration, migrations, the database seeder and the HTTPS redirect middleware.
- Google API requests and OAuth: responses are inputs.
  - The site list is a `Result<seq<string>>`; a null list from `GetUserSitesAsync` is the empty list.
  - The fetched metrics and keyword map of a sync are a `Result<Fetched>`.
  - A failed request is the error message of the exception it raises.
  - The older sync revision builds its service with `CreateService`; the older discovery call passes the client id and secret. Neither changes the modelled logic.
- Concurrency: the `Task.WhenAll` fetch of metrics and keywords is one input, and awaits are plain calls.
- Clocks and identifiers: `DateTime.UtcNow` is the `now` parameter, and `today` is the dashboard's current day. `Guid.NewGuid()` is the `nextId` supply of `Database`, and `Guid.Empty` is 0.
- Dates: a `DateOnly` and its "yyyy-MM-dd" text are one integer day number.
  - Grouping by date text and ordering by that text are modelled as grouping and ordering by day. These agree for four-digit years.
  - `DateOnly.FromDateTime` in the older sync revision is the identity on day numbers.
- Library parsers: `new Uri(url).Host` is the uninterpreted `hostOf` parameter, and `Guid.TryParse` is the `parseGuid` parameter.
- CSV formatting: the `F4`/`F2` number formats and the date text are the `CsvFormat` parameter. Fields are required to hold no comma or line break, which is the `PlainFormat` assumption of the CSV lemmas. `AppendLine` writes "\n". UTF-8 encoding and the file name are not modelled.
- Floating point: CTR and average position are `real`, with no rounding. The `(long)` cast of a double is modelled by `TruncateToLong`. `long` and `int` sums do not overflow.
- Strings:
  - `ToLower` maps 'A'–'Z' only; culture-specific case mapping is not modelled.
  - Sorting by domain uses ordinal order rather than the culture-sensitive default comparer.
  - `IsNullOrWhiteSpace` uses the Unicode white-space set of `Text.IsWhiteSpace`.
  - Null strings are `Option` only where the source tests them for null.
- Entity Framework: tracked entities are value rows in `seq` tables, so there is no aliasing between a loaded object and the table. Cascade and set-null delete rules and foreign keys are not part of `Valid()`. Where a proof needs that no row refers to a fresh user id, as `Auth.FirstLoginRows` does, that is a precondition. `DeleteTag` removes the links itself, as the handler does. The surrogate `Id` of a metric row and the `HasMaxLength` column limits are not modelled.
- Older handler revisions:
  - `GetDashboard.cs` labels a site's tags with tag names. That is the `Dashboard.TagNameLabel` labelling; the handler is modelled with `Dashboard.TagIdLabel`, the tag ids as text.
  - `SiteOperations.cs`, `DiscoverSites.cs`, `TagOperations.cs`, `GroupOperations.cs` and `UserOperations.cs` repeat the logic of the `Handlers/` files. Rows above cite them where they are the only source of a step, as with `CreateTag`.
- `CompareFrom`/`CompareTo` of the dashboard query are accepted but never read, so they are not carried.
- Tags.CreateTag: the duplicate check compares the untrimmed name and the stored name is trimmed. A padded name whose trimmed form is already taken passes the check and is then rejected by the (UserId, Name) index. The model reports this as the uncaught exception `Thrown`, which in the running service is a server error. `Tags.UpdateTag` does the same for renames.
- Discovery.DiscoverSites: a remote list that repeats a new property id leads to two inserts with the same (UserId, PropertyId). The save rejects them, and the model reports the caught exception as a "Discovery failed" failure with nothing inserted.
- Sync.SyncSiteData: when a new day is fetched twice, the save breaks the (SiteId, Date) index, and the error handler's own save fails again. The model reports `Thrown` with the state unchanged and does not record the error on the site.
