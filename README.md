# one-link redirector, modelled in Dafny

The system serves one short link per mobile app, such as `https://host/aB3xYz`.
When the link is opened, the server classifies the visitor's user-agent as iOS,
Android or other and records a click. It stores a hash of the client address,
never the address itself. Then it redirects to the App Store URL, the Play
Store URL, or the fallback URL. Authenticated owners create, list, read, update
and delete their links, and read per-link and overall click analytics.

The model has these modules:

- `ShortUrl`: short-code generation, short-URL assembly, IP hashing and URL
  validation.
- `DeviceDetect`: platform detection and the device-info record.
- `Redirect`: the redirect handler.
- `Projects`: the CRUD handlers, including the short-code collision loop.
- `Analytics`: the per-project summary, the click listing and the dashboard.

They share three support modules:

- `Store`: the project and click rows, and the `Database` class holding both
  tables.
- `Query`: the SQL operators the handlers use, namely OFFSET/LIMIT, ORDER BY
  ... DESC, and GROUP BY with a count.
- `Text`: Python's `rstrip` and `strip`.

Handlers that only read the database are functions with `reads db`, except
`Projects.ListProjects`: it is a method without `modifies`, because its loop
builds the response list one entry at a time as `list_projects` does. Handlers
that write the database are methods with `modifies db`. Their contracts state the whole
new state and keep `Database.Valid()`, which holds:

- short codes are unique;
- ids are positive and below a bound the class keeps (`idBound`);
- every click refers to an existing project.

Three libraries are outside the model. Each one becomes a parameter:

- the user-agent parser is `parse: string -> UserAgent`;
- SHA-256 is `sha256: string -> Sha256Hex`, whose results are 64
  lower-case hex digits;
- shortuuid's randomness is a function giving the draw for each position.
  For the collision loop it is a stream of such draws, one per generation.

The `skip` and `limit` query parameters of `list_projects` and
`get_project_clicks` are parameters of `Projects.ListProjects` and
`Analytics.ProjectClicks`; their defaults, 0 and 100, are `Query.DefaultSkip`
and `Query.DefaultLimit`. The clock is a `now` parameter. `BASE_URL`, read from the environment with
`http://localhost:8000` as its default, is a `baseUrl` parameter. The request's headers and peer address are
`Option<string>` parameters.

Two behaviours follow from the code rather than from a declaration:

- The short-code collision loop in `app/routers/projects.py` (lines 54-55)
  has no attempt bound. `Projects.ChooseShortCode` therefore loops until it
  draws a free code. It requires that some draw in the stream is free, which
  is exactly the loop's termination condition.
- The click table and the delete cascade do not appear in `app/models.py`.
  The click row is modelled from how the routers fill it in. The cascade
  follows the docstring of `delete_project`.

## Model

| member | source | states |
|---|---|---|
| Text.TrimEnd | app/utils/short_url.py:42 | `rstrip`: the result is a prefix of the input, does not end in a dropped character, and everything cut off is a dropped character |
| Text.StripChars | app/routers/redirect.py:70 | stripping a set of characters: the result neither starts nor ends with one of them, and it is a slice of the input with only those characters outside it |
| Text.Strip | app/routers/redirect.py:70 | `strip()`: the result has no leading or trailing whitespace (Python's `isspace` set), and it is a slice of the input with only whitespace outside it |
| Text.StripAddsNothing | app/routers/redirect.py:70 | stripping never introduces a character (in particular no comma) that the input lacks |
| ShortUrl.GenerateShortCode | app/utils/short_url.py:9-23 | the code has the requested length (default 6) and every character is in shortuuid's alphabet |
| ShortUrl.GenerateShortUrl | app/utils/short_url.py:26-43 | the URL is the base with all trailing '/' removed, then one '/', then the code; the three clauses determine the result |
| ShortUrl.NoDoubleSlash | app/utils/short_url.py:41-43 | the separator '/' before the code is never preceded by another '/' |
| ShortUrl.PlainBase | app/utils/short_url.py:41-43 | a base without a trailing slash is used unchanged: `base + "/" + code` |
| ShortUrl.TrailingSlashIgnored | app/utils/short_url.py:41-43 | adding a trailing '/' to the base does not change the short URL |
| ShortUrl.DocstringExample | app/utils/short_url.py:37-40 | the docstring's example: `https://onelink.app` and `xK9mP2` give `https://onelink.app/xK9mP2` |
| ShortUrl.TrailingSlashExample | app/utils/short_url.py:41-43 | `http://host/` and `abc123` give `http://host/abc123`, with no double slash |
| ShortUrl.HashIp | app/utils/short_url.py:46-61 | the stored value is a 64-character lower-case hex SHA-256 digest |
| ShortUrl.StartsWithAny | app/utils/short_url.py:78-79 | true exactly when the URL starts with one of the prefixes |
| ShortUrl.ValidateUrl | app/utils/short_url.py:64-79 | the empty string is rejected; otherwise accepted exactly when it starts with `http://` or `https://` |
| DeviceDetect.Platform.Name | app/utils/device_detect.py:9-37 | the platform names are exactly `ios`, `android` and `other` |
| DeviceDetect.DetectPlatform | app/utils/device_detect.py:9-37 | iOS exactly when the user-agent is non-empty, the client is flagged mobile and the OS family is `iOS`; Android exactly when it is non-empty and the OS family is `Android`; otherwise other |
| DeviceDetect.MobileFlagAsymmetry | app/utils/device_detect.py:28-34 | for a client not flagged mobile, an iOS family gives other while an Android family still gives android |
| DeviceDetect.EmptyIsOther | app/utils/device_detect.py:23-24 | the empty user-agent is other, whatever the parser says |
| DeviceDetect.OrUnknown | app/utils/device_detect.py:71-75 | Python's `name or 'Unknown'`: never empty, the name when present and non-empty, else `Unknown` |
| DeviceDetect.GetDeviceInfo | app/utils/device_detect.py:40-79 | the empty user-agent gives the all-Unknown/false record without a browser version; otherwise each field is the parsed field or `Unknown` and the flags are copied; the platform always agrees with DetectPlatform |
| DeviceDetect.DeviceInfoAgreesWithPlatform | app/utils/device_detect.py:69-72 | an ios record reports OS `iOS` and mobile, and an android record reports OS `Android` |
| DeviceDetect.IsMobileDevice | app/utils/device_detect.py:82-90 | mobile exactly when the parser reports Android, or reports iOS on a client flagged mobile |
| Store.ProjectIdByCode | app/routers/redirect.py:50-52 | finds a project exactly when some project has the code, and the one it finds has that code |
| Store.FindOwned | app/routers/projects.py:136-139 | finds the project exactly when it exists and belongs to the caller |
| Store.OwnedIdsBelow | app/routers/projects.py:102-104 | the caller's ids below a bound, strictly ascending |
| Store.OwnedIds | app/routers/projects.py:102-104 | all the caller's project ids, strictly ascending, and nothing else |
| Store.ClicksOf | app/routers/projects.py:110-112 | exactly the clicks of one project, each taken from the table, and each such click as many times as the table holds it |
| Store.ClicksOfSnoc | app/routers/projects.py:110-112 | a project's clicks in a table are those in all but the last row, then the last row if it is the project's |
| Store.CountClicksFor | app/routers/projects.py:110-112 | the `count()` of a project's clicks: at most the table size, and zero exactly when no click carries the project's id |
| Store.CountClicksSnoc | app/routers/projects.py:110-112 | appending a click adds one to its own project's count and nothing to any other |
| Store.ClicksNotOf | app/routers/projects.py:218 | the clicks that survive the cascade: all and only the clicks of other projects, each as many times as the table holds it |
| Store.LargestIdBelow | app/models.py:17 | the largest id in use below a bound, or 0 when there is none |
| Store.NewRowId | app/models.py:17 | the id of a new row under a plain INTEGER PRIMARY KEY: positive, unused, above every id in use, and one more than the largest (1 in an empty table) |
| Store.Database.constructor | app/models.py:17-26 | an empty, valid store whose first id is 1 |
| Query.Page | app/routers/projects.py:102-104 | OFFSET/LIMIT: the length is min(limit, rows left after skip), and row i of the page is row skip+i of the input |
| Query.InsertDesc | app/routers/analytics.py:131 | insertion adds exactly the one element: the multiset grows by x |
| Query.InsertDescSorted | app/routers/analytics.py:131 | inserting into a descending sequence keeps it descending |
| Query.SortDesc | app/routers/analytics.py:131 | ORDER BY ... DESC: the result is sorted descending and is a permutation of the input |
| Query.Bump | app/routers/analytics.py:64-69 | counting one more row raises the total by one |
| Query.BumpCountOf | app/routers/analytics.py:64-69 | counting one more row with a value adds one to that value's count and changes no other count |
| Query.BumpKeys | app/routers/analytics.py:64-69 | counting a row brings in no key but that row's value |
| Query.BumpDistinct | app/routers/analytics.py:64-69 | counting a row keeps the group keys distinct and the counts positive |
| Query.NoOtherGroup | app/routers/analytics.py:64-69 | a value without a row has count zero |
| Query.GroupCount | app/routers/analytics.py:64-69 | GROUP BY with a count: distinct keys, positive counts, each value's count is its number of occurrences, and the counts add up to the number of rows |
| Query.GroupCountEntries | app/routers/analytics.py:64-69 | each group row's count is the occurrence count of its key, and every value that occurs has a row |
| Query.CountOfEntry | app/routers/analytics.py:64-69 | with distinct keys, a row's count is its key's count |
| Query.CountOfPositive | app/routers/analytics.py:64-69 | a key with a positive count has a row |
| Query.SortedPage | app/routers/analytics.py:129-131 | a page of the sorted rows is sorted, holds only input rows, and is a permutation of the input when it covers every row |
| Query.SortedFrom | app/routers/analytics.py:131 | every row of the sorted result comes from the input |
| Query.SortedTo | app/routers/analytics.py:131 | every input row appears in the sorted result |
| Query.GroupFor | app/routers/analytics.py:64-69 | every value that occurs has its group, counting its rows |
| Query.SortedGroupEntry | app/routers/analytics.py:64-69 | each sorted group row carries the true, positive count of its key |
| Query.TopGroupsCount | app/routers/analytics.py:64-69 | the top-n rows are at most n, in non-increasing count, each with the true positive count |
| Query.TopGroups | app/routers/analytics.py:64-69 | the first n groups by count: at most n rows, and none exactly when n is 0 or there are no rows |
| Query.SortedGroupFor | app/routers/analytics.py:64-69 | every value that occurs has a row in the sorted groups |
| Query.TopGroupFirst | app/routers/analytics.py:171-180 | with a positive limit, the top groups are empty exactly when there are no rows, and the first has the largest count of any value |
| Query.PageHolds | app/routers/projects.py:102-104 | a first page of n rows holds each of the first n rows |
| Query.DefaultPage | app/routers/projects.py:89-90 | with the default skip 0 and limit 100, the page is the first 100 rows, or all of them when there are fewer |
| Query.TopGroupsLeaveOutSmaller | app/routers/analytics.py:64-69 | a value left out of the top-n is left out only when n rows are shown, and no shown row has fewer rows than it |
| Redirect.Destination | app/routers/redirect.py:89-95 | ios goes to the iOS URL and android to the Android URL; the result is always one of the project's three URLs |
| Redirect.OtherDestination | app/routers/redirect.py:93-95 | other goes to a non-empty fallback URL, and to the Android URL when the fallback is missing or empty |
| Redirect.FirstSegment | app/routers/redirect.py:70 | `split(",")[0]`: the prefix up to, and excluding, the first comma |
| Redirect.ClientIp | app/routers/redirect.py:67-70 | a non-empty X-Forwarded-For gives its first entry stripped (no comma, no surrounding whitespace); otherwise the peer address, or `unknown` |
| Redirect.Resolve | app/routers/redirect.py:49-95 | not found exactly when no project has the code; otherwise the click references that project and the destination follows the detected platform. The click records the platform name, the device fields, the hashed client IP, country `Unknown`, no city and the current time |
| Redirect.ClickPlatformChoseUrl | app/routers/redirect.py:73-95 | the platform stored in the click is the one that chose the destination |
| Redirect.NoRawIpStored | app/routers/redirect.py:81 | the stored hash differs from the client address whenever the address is not itself a hex digest |
| Redirect.RedirectToStore | app/routers/redirect.py:19-101 | an unknown code gives not found and records nothing; otherwise exactly one click, the decided one, is appended and the decided URL is returned; projects are unchanged |
| Projects.Candidate | app/routers/projects.py:51-55 | each generated code has the default length 6 |
| Projects.Respond | app/routers/projects.py:78-82 | the response dict: the stored row's id, name, URLs and short code, the short URL `generate_short_url(BASE_URL, code)` (ending in '/' and the code), and the project's click count, no larger than the table |
| Projects.ChooseShortCode | app/routers/projects.py:50-55 | the chosen code is used by no project; it is the first free candidate, and every earlier candidate collided; generations counts every call of the generator |
| Projects.NewIdHasNoClicks | app/routers/projects.py:74-75 | an id with no project has no clicks (the cascade removed them), so the zero that create_project reports is the true count |
| Projects.CreateProject | app/routers/projects.py:23-82 | adds exactly one project, owned by the caller, under the id SQLite assigns (one more than the largest in use) with the first generated code no project uses, every earlier candidate having collided; clicks are unchanged; the response is the stored row with its short URL and its true click count, zero |
| Projects.OwnedPage | app/routers/projects.py:102-104 | a page of the caller's ids holds only the caller's projects, in ascending id |
| Projects.ListProjects | app/routers/projects.py:85-120 | the page (skip, limit) of the caller's projects in ascending id, at most limit entries, each with its true click count and short URL |
| Projects.GetProject | app/routers/projects.py:123-156 | not found exactly when the project is missing or foreign; otherwise the project with its click count and short URL |
| Projects.Get | app/routers/projects.py:191-192 | reading a field gives an item naming that field |
| Projects.SetField | app/routers/projects.py:191-192 | `setattr`: the named field takes the value, and every other field, the owner and the short code stay |
| Projects.ApplyAll | app/routers/projects.py:189-192 | applying the update items never changes the owner or the short code |
| Projects.LastFor | app/routers/projects.py:190 | the last item that sets a field (no later item sets it), or none exactly when no item sets it |
| Projects.ApplyAllChangesSentFields | app/routers/projects.py:189-192 | after the sparse update, a sent field has its sent value and an unsent field keeps its old value |
| Projects.UpdateProject | app/routers/projects.py:159-206 | a missing or foreign project gives not found and no change; otherwise only that project changes, to its updated value; clicks and ids are untouched |
| Projects.DeleteProject | app/routers/projects.py:209-238 | a missing or foreign project gives not found and no change; otherwise that project and all its clicks are removed and nothing else |
| Analytics.PlatformCountsBounded | app/routers/analytics.py:54-57 | the ios, android and other counts never exceed the total, and add up to it when every click carries one of the three names |
| Analytics.CountPlatform | app/routers/analytics.py:55-57 | the number of clicks carrying a platform name is that name's multiplicity among the clicks' platforms |
| Analytics.TopCountriesAreTop | app/routers/analytics.py:63-74 | at most five countries, in non-increasing count, each with its true count; a country left out has no more clicks than any shown |
| Analytics.TopCountries | app/routers/analytics.py:64-69 | at most five country rows, and none exactly when there are no clicks |
| Analytics.Summarize | app/routers/analytics.py:52-101 | the total is the number of clicks; the three platform counts are their CountPlatform values, bounded by the total and adding up to it when every name is valid; the conversion rate is `0%` without clicks and the mobile share otherwise; the top countries are TopCountries of the clicks, at most five |
| Analytics.ProjectAnalytics | app/routers/analytics.py:21-101 | not found exactly when the project is missing or foreign; otherwise the summary of exactly that project's clicks, whose total is the project's click count |
| Analytics.ProjectClicks | app/routers/analytics.py:104-133 | not found exactly when the project is missing or foreign; otherwise the window (skip, limit) of the project's clicks ordered newest first: at most `limit` clicks, sorted, and all of them when the window covers them |
| Analytics.ClicksIn | app/routers/analytics.py:155-157 | exactly the clicks whose project is among the given ids, each as many times as the table holds it |
| Analytics.SelectedIdIsGiven | app/routers/analytics.py:155-157 | a project id among the selected clicks is one of the selected ids |
| Analytics.ClicksInCount | app/routers/analytics.py:171-180 | among those clicks, the number with a given project's id is that project's click count |
| Analytics.CountClicksIsMultiplicity | app/routers/projects.py:110-112 | a project's click count is the number of clicks carrying its id |
| Analytics.PlatformBreakdown | app/routers/analytics.py:159-169 | one row per platform name, with the number of clicks carrying it; the rows add up to the number of clicks |
| Analytics.MostPopular | app/routers/analytics.py:171-194 | none exactly when there are no clicks; otherwise one of the given projects with its name and true click count, and no given project has more clicks |
| Analytics.DashboardSummary | app/routers/analytics.py:136-201 | the project count is the number of the user's projects; a user without projects gets zero everywhere and no most popular project; otherwise the breakdown rows add up to the total clicks on the user's projects, each with its true count, and the most popular project is theirs, with its name and true count, and none of theirs has more clicks |

## Left out

- Authentication is left out. Token checks, password hashing and the user table are outside the model. The caller is known only by its user id.
- Request validation by the schemas is left out. This covers HttpUrl parsing and the app-name length bounds. The create input is taken as already validated.
- Timestamps are left out. `created_at` and `updated_at` are database defaults driven by the clock, and the model does not keep them.
- The response's extra `__dict__` entries are left out.
- The per-day click counts of the last seven days (`clicks_by_day`) are left out. They need calendar dates and the current time.
- Analytics.ProjectAnalytics: the conversion rate is the pair (mobile clicks, total clicks). Its rendering as a percentage with one decimal is floating-point formatting and is not modelled.
- Country lookup is not modelled. Every click has country `Unknown` and no city, as the redirect records it.
- The algorithms behind user-agent parsing, SHA-256 and shortuuid's random generator are parameters. The model proves what holds for every parser, every hex-valued hash and every sequence of draws.
- Projects.ListProjects: the query has no ORDER BY. The model fixes ascending id, the order SQLite returns rows in. SQL itself promises no order.
- Projects.CreateProject: the new id follows SQLite's rule for a plain INTEGER PRIMARY KEY, because SQLite is the default database. A server whose ids come from a sequence would never hand a deleted id out again.
- Query.SortDesc: rows with equal keys (ORDER BY ties) come out in one fixed order. SQL allows any order among them.
- Negative `skip` and `limit` are left out, because the parameters are `nat`.
- Query.Page: a negative LIMIT, which SQLite reads as "no limit", is not modelled.
- Projects.UpdateProject: sending null for a NOT NULL column makes the commit fail. The model cannot express this, because those items carry a string.
- Concurrency is left out. Each handler runs alone on the database. The race between the collision check and the insert is not modelled, nor is the unique constraint's rejection of a concurrent duplicate.
- Database errors other than the 404s are left out.
- HTTP status codes and the redirect response object are left out. Success and `NotFound` stand for them.
