# Daily digest: a Dafny model

This project models the core of a daily Twitter digest service. The
service works in these steps:

- A signed-in user keeps one digest. A digest holds a list of Twitter
  handles, a send hour, a time window and a recipient address.
- Once a day, per digest, the service fetches the handles' recent tweets.
  It fetches in slices of ten, with a pause between requests, and caches
  each handle's user id.
- It keeps the tweets inside the time window.
- It asks a language model to drop the noise and then to lay out the digest.
- It mails the result through Gmail, and records the run in a log row.

Around that pipeline sit four entry points:

- the settings endpoint, which saves the form and drops the cache rows of
  removed handles;
- the scheduled sweep, which starts every digest due at the current hour;
- the "run now" endpoint;
- the dashboard page, which creates a default digest on a first visit.

The dashboard's handle field is modelled too: the text shown, the parse
done on save, the account count and the "Test Run Now" switch.

How it is modelled:

- **The outside world is a parameter.** The Twitter endpoints, the two
  model completions, `JSON.parse`, `JSON.stringify`, the e-mail renderer,
  UTF-8 encoding and the Gmail send are total functions in
  `Records.Services`.
- **The database is a class.** `Store.Backend` holds the tables as fields:
  digests, accounts, logs and the user-id cache. It also holds a `journal`,
  the ordered list of every request made to the database or to a
  collaborator. Each database call is a method that changes exactly the
  table it writes and appends one event.
- **Imperative code becomes imperative Dafny.** This covers `processDigest`
  with its nested batch loop, the resolver, the settings handler, the cron
  loop and the dashboard page. Each such method is proved equal to a
  specification function: `RunSpec`, `FetchPrefix`, `Resolve`, `Put`,
  `Cron`, `Dashboard`.
- **The "run now" handler is a function.** It is a chain of guards and one
  dispatch, with no loop and no table write, so `RunNow` is a pure function
  of the session and the tables.
- **The promised properties are lemmas about those functions.** Examples:
  "one log update", "no AI call without recent tweets", "pauses between
  requests", "cleanup keys", "dispatched once", "ten newest logs".
- **`RunSpec` is generic.** It is stated over any per-handle fetch step and
  any finishing step. `FetchStepLooksUpOnce` and `ConcludeStepTerminal`
  prove that the real steps meet the conditions its lemmas assume.

## Model

| member | source | states |
|---|---|---|
| Json.PropertyRead | lib/gmail-service.ts:49-53 | reading a property of `null` throws, and exactly then; on a non-object non-null value the property is undefined |
| Text.Trim | lib/llm-service.ts:105 | the result is the input with whitespace cut from both ends: a window of the input, with only whitespace before and after it; it is trimmed, and empty exactly when the input is all whitespace |
| Text.TrimStart | lib/llm-service.ts:105 | the result is the input without its leading whitespace, and it starts with a non-whitespace character |
| Text.TrimEnd | lib/llm-service.ts:105 | the result is the input without its trailing whitespace, and it ends with a non-whitespace character |
| Text.TrimTrimmed | lib/llm-service.ts:105 | trimming an already trimmed string changes nothing |
| Text.TrimAfterSpaces | components/dashboard/dashboard-content.tsx:60 | whitespace followed by a trimmed text trims to that text |
| Text.LowerIdempotent | lib/twitter-service.ts:63 | lowercasing twice is lowercasing once |
| Text.RemoveFirst | lib/twitter-service.ts:63 | `replace("@", "")` removes only the first `@` and leaves a text without one unchanged |
| Text.TrimTrailing | lib/gmail-service.ts:79 | `/=+$/` leaves a prefix that does not end in `=`, and everything cut off is `=` |
| Text.SplitShape | components/dashboard/dashboard-content.tsx:59-60 | no piece holds the separator, and joining the pieces with it gives the text back |
| Text.SplitJoin | components/dashboard/dashboard-content.tsx:59-60 | splitting a join of separator-free parts gives the parts back |
| Base64.EncodeShape | lib/gmail-service.ts:75-76 | four characters per started group of three bytes; standard-alphabet characters, then exactly the padding count of `=` |
| Base64.DecodeEncode | lib/gmail-service.ts:75-76 | decoding an encoding gives the bytes back |
| Store.DigestById | lib/digest-processor.ts:21-23 | the row found has that id; none is found only when no row has it |
| Store.DigestOfUser | app/api/digest/route.ts:14-16 | the row found belongs to the user; none is found only when the user has no row |
| Store.DueDigests | app/api/cron/digest/route.ts:16-32 | exactly the active digests scheduled for that hour |
| Store.GoogleAccounts | app/api/digest/run/route.ts:29-34 | exactly the user's accounts whose provider is "google" |
| Store.LogsOf | app/dashboard/page.tsx:16-21 | exactly the logs of that digest |
| Store.UpdateDigestsFound | app/api/digest/route.ts:42-52 | each row keeps its id and owner, and the user's digest is found at the same row, carrying the body's fields when it is the row updated |
| Store.Backend.FindDigest | lib/digest-processor.ts:21-23 | returns the row `DigestById` finds and records one read |
| Store.Backend.FindUserDigest | app/api/digest/route.ts:14-16 | returns the user's first digest and records one read |
| Store.Backend.FindDueDigests | app/api/cron/digest/route.ts:16-32 | returns the due digests and records one read |
| Store.Backend.FindGoogleAccount | app/api/digest/run/route.ts:29-34 | returns the user's first Google account and records one read |
| Store.Backend.FindCacheEntry | lib/twitter-service.ts:67-69 | returns the cache row under the key, if any, and records one read |
| Store.Backend.UpsertCache | lib/twitter-service.ts:108-119 | the cache becomes the upsert of the row, and nothing else changes |
| Store.Backend.DeleteCacheKeys | app/api/digest/route.ts:31-37 | every row whose key is listed is gone, the others are kept |
| Store.Backend.CreateLog | lib/digest-processor.ts:11-18 | appends a "processing" row with both counts 0 and returns its id |
| Store.Backend.UpdateLog | lib/digest-processor.ts:68-75 | patches that one row, and no other |
| Store.Backend.CreateDigest | app/dashboard/page.tsx:26-40 | appends the row |
| Store.Backend.UpdateDigest | app/api/digest/route.ts:42-52 | the table becomes `UpdateDigests` of the old one |
| TwitterService.NormalizeCases | lib/twitter-service.ts:63 | the cache key is the handle lowercased, with only its first `@` removed, wherever that `@` stands |
| TwitterService.NormalizeDoubleAt | lib/twitter-service.ts:63 | of "@@Foo" only one `@` goes: the key is "@foo" |
| TwitterService.NormalizeInnerAt | lib/twitter-service.ts:63 | an inner `@` is removed: "a@B" becomes "ab" |
| TwitterService.NormalizeCaseInsensitive | lib/twitter-service.ts:63 | handles equal up to letter case share one cache key |
| TwitterService.ResolveUsesKey | lib/twitter-service.ts:63-83 | every cache read, user lookup and upsert of a resolution uses the normalised key |
| TwitterService.ResolveHit | lib/twitter-service.ts:67-75 | a hit returns the cached id, calls no endpoint and leaves the cache unchanged |
| TwitterService.ResolveWrites | lib/twitter-service.ts:101-144 | the cache changes only on a miss whose reply has a non-empty id, by an upsert under the key; otherwise the result is null |
| TwitterService.ResolveThenHit | lib/twitter-service.ts:67-119 | after a resolution that found an id, resolving the handle again is a hit on that id |
| TwitterService.ResolveCaseInsensitive | lib/twitter-service.ts:63 | two handles equal up to case resolve the same way |
| TwitterService.GetUserIdFromUsername | lib/twitter-service.ts:60-145 | returns the id of `Resolve`, and leaves the cache and the request journal as `Resolve` says |
| TwitterService.TweetsFromReply | lib/twitter-service.ts:207-244 | non-empty tweets only come from a "success" reply that carries them; such a reply's tweets are returned as they are |
| TwitterService.FetchTweetsByUserId | lib/twitter-service.ts:150-245 | one tweets request, and the tweets of `TweetsFromReply` for its reply |
| TwitterService.FetchByUsernameRequests | lib/twitter-service.ts:251-262 | without a resolved id no tweets request is made and the result is []; with one, exactly one request for that id |
| TwitterService.FetchByUsernameEvents | lib/twitter-service.ts:251-262 | a handle's requests start with its one cache lookup under its key |
| TwitterService.FetchTweetsByUsername | lib/twitter-service.ts:251-262 | the tweets, cache and journal of `FetchByUsername` |
| TwitterService.FilterRecent | lib/twitter-service.ts:264-296 | keeps, in order and with multiplicity, exactly the non-retweets whose date parsed and is not before the cutoff |
| TwitterService.FilterBoundaries | lib/twitter-service.ts:283-291 | a tweet exactly at the cutoff is kept; one a millisecond earlier, a retweet, or an unparsable date is dropped |
| LlmService.StripJsonTags | lib/llm-service.ts:107 | never lengthens, and leaves text without a "```jso" tag unchanged; with the lemmas below, every tag, with its optional 'n' and newline, is removed wherever it starts, and the text between tags is kept |
| LlmService.StripClosingFence | lib/llm-service.ts:107 | removes one closing fence at the very end, with or without its newline, and nothing else |
| LlmService.NoFenceOnlyTrimmed | lib/llm-service.ts:105-106 | a reply that does not start with a fence is only trimmed |
| LlmService.FencedJsonExtracted | lib/llm-service.ts:105-108 | a "```json" fenced reply is reduced to its body and a newline |
| LlmService.LeadingTagRemoved | lib/llm-service.ts:107 | a leading "```json" line is removed whole, newline included |
| LlmService.TagNewlineRemoved | lib/llm-service.ts:107 | "```jso" followed by a newline is removed together with it |
| LlmService.TagWithoutNewlineRemoved | lib/llm-service.ts:107 | "```json" not followed by a newline is removed, and the text after it is kept |
| LlmService.BareTagRemoved | lib/llm-service.ts:107 | "```jso" followed by neither 'n' nor a newline is removed alone |
| LlmService.PlainPrefixKept | lib/llm-service.ts:107 | text in which no tag starts is kept as it is, and stripping continues after it, so a tag after other text is removed as at the start |
| LlmService.ClosingFenceRemoved | lib/llm-service.ts:107 | a closing fence without a newline after it is cut off |
| LlmService.BareFenceKept | lib/llm-service.ts:107 | a bare opening fence without "json" is left in place |
| LlmService.EveryTagRemoved | lib/llm-service.ts:107 | every "```json" tag is removed, not only the leading one |
| LlmService.FilterNoiseFailOpen | lib/llm-service.ts:112-115 | a thrown call or a failed parse returns the input tweets |
| LlmService.FilterNoiseParsed | lib/llm-service.ts:110-111 | a parsed array is returned as it is; any other parsed value gives [] |
| LlmService.FilterNoiseDefault | lib/llm-service.ts:102 | missing or empty content is read as "[]" and gives [], not the input |
| LlmService.FormatDigestFailClosed | lib/llm-service.ts:244-257 | the formatting fails exactly when the call throws or the parse fails, with that error |
| LlmService.FormatDigestDefault | lib/llm-service.ts:244 | missing or empty content is parsed as "{}" |
| GmailService.HeaderLinesNewlineFree | lib/gmail-service.ts:64-70 | with a recipient and subject free of newlines, no header line holds one |
| GmailService.RawMessageLines | lib/gmail-service.ts:64-72 | read back line by line, the message is the five headers, one blank line, then the HTML's lines |
| GmailService.EncodeRawShape | lib/gmail-service.ts:75-79 | the raw text is the standard encoding with `+` and `/` swapped and the padding cut off |
| GmailService.EncodeRawAlphabet | lib/gmail-service.ts:75-79 | the raw text uses only the URL-safe alphabet, with no `+`, `/` or `=` |
| GmailService.UnswapEncodeRaw | lib/gmail-service.ts:77-79 | mapping the alphabet back gives the standard encoding without its padding |
| GmailService.RepadEncodeRaw | lib/gmail-service.ts:75-79 | restoring the padding rebuilds the standard encoding |
| GmailService.DecodeRawEncodeRaw | lib/gmail-service.ts:75-79 | a receiver decoding the raw text gets the message bytes back |
| GmailService.TrimPadding | lib/gmail-service.ts:79 | the trailing-`=` strip removes exactly the padding run |
| GmailService.RenderInputOf | lib/gmail-service.ts:45-61 | building the email props fails exactly when the digest value is null |
| GmailService.Deliver | lib/gmail-service.ts:13-106 | a delivery makes only render and send requests |
| GmailService.DeliverRenders | lib/gmail-service.ts:45-61 | the renderer gets both counts, the date and the digest's five fields |
| GmailService.DeliverSendsMessage | lib/gmail-service.ts:63-87 | the message sent decodes to the UTF-8 bytes of the assembled message, with the caller's tokens |
| GmailService.DeliverOutcome | lib/gmail-service.ts:82-105 | success exactly when rendering worked and Gmail answered, with Gmail's id; otherwise the thrown error |
| GmailService.DeliverNullDigest | lib/gmail-service.ts:49 | a null digest fails before rendering, with no request |
| FetchLoop.SliceOf | lib/digest-processor.ts:43 | a position lies in the slice of ten that starts at ten times the slice index |
| FetchLoop.BatchesFlatten | lib/digest-processor.ts:43-44 | the slices put back together are the handles in order |
| FetchLoop.BatchesCount | lib/digest-processor.ts:43 | there are ceil(n/10) slices |
| FetchLoop.BatchesSlice | lib/digest-processor.ts:44 | slice k is `handles[10k .. min(10k+10, n)]` |
| FetchLoop.PauseInSlice | lib/digest-processor.ts:53-56 | the loop's test on the slice it holds is the delay rule `PauseAfter` |
| FetchLoop.FetchOne | lib/digest-processor.ts:48-56 | one inner iteration over `Batches(handles)[slice]` moves the loop state from handle j to handle j+1 |
| FetchLoop.FetchBatch | lib/digest-processor.ts:45-57 | after one slice the loop state is that of `FetchPrefix` at the slice's end |
| FetchLoop.FetchAllTweets | lib/digest-processor.ts:39-58 | the pushed lists, the cache and the journal are those of `FetchPrefix` over all handles |
| FetchLoop.FetchPrefixResult | lib/digest-processor.ts:48-50 | the i-th list is the fetch of handle i on the cache the first i handles left |
| FetchLoop.FetchPrefixLength | lib/digest-processor.ts:50 | one list per handle |
| FetchLoop.FetchStepLooksUpOnce | lib/twitter-service.ts:251-262 | the real per-handle step looks each handle up once, under its normalised key, before any other request |
| FetchLoop.FetchPrefixEvents | lib/digest-processor.ts:39-58 | the loop makes only cache accesses, Twitter requests and pauses |
| FetchLoop.FetchPrefixLookups | lib/digest-processor.ts:43-49 | the handles are looked up in list order, each once, under its normalised key |
| FetchLoop.FetchPrefixPauses | lib/digest-processor.ts:53-56 | the loop pauses once for each position the delay rule selects |
| FetchLoop.PauseBeforeLastSlice | lib/digest-processor.ts:54 | every position before the final slice is followed by a pause |
| FetchLoop.PauseInLastSlice | lib/digest-processor.ts:54 | in the final slice, a pause follows exactly the handles that differ from the last handle |
| FetchLoop.PausingBeforeLastSlice | lib/digest-processor.ts:53-56 | up to the final slice every handle is followed by a pause |
| FetchLoop.PausingInLastSlice | lib/digest-processor.ts:53-56 | inside the final slice the pauses skip the copies of the last handle |
| FetchLoop.PauseTotal | lib/digest-processor.ts:53-56 | the pause count is n minus the copies of the last handle in the final slice |
| FetchLoop.PauseTotalDistinct | lib/digest-processor.ts:53-56 | n distinct handles give n-1 pauses |
| FetchLoop.TwentyFiveHandles | lib/digest-processor.ts:43-56 | 25 distinct handles are fetched as slices of 10, 10 and 5, with 24 pauses |
| FetchLoop.RepeatedLastHandle | lib/digest-processor.ts:54 | with handles "a", "b", "a", only "b" is followed by a pause |
| DigestProcessor.AuthorName | lib/digest-processor.ts:81 | the author's name if non-empty, else the username if non-empty, else "Unknown" |
| DigestProcessor.ProjectAllNamed | lib/digest-processor.ts:80-84 | every tweet sent to the noise filter names an author, and a tweet with neither name nor username is sent as "Unknown" with its text and url |
| DigestProcessor.ProjectAllAppend | lib/digest-processor.ts:80-84 | the projection works tweet by tweet: projecting a concatenation concatenates the projections |
| DigestProcessor.Delivered | lib/digest-processor.ts:120-142 | only render and send requests, and a terminal status |
| DigestProcessor.Formatted | lib/digest-processor.ts:108-142 | the formatting request comes first, then only AI or mail requests, and a terminal status |
| DigestProcessor.Filtered | lib/digest-processor.ts:86-142 | the noise-filter request comes first, then only AI or mail requests, and a terminal status |
| DigestProcessor.Conclude | lib/digest-processor.ts:62-154 | after the fetch, only AI or mail requests, and the status never stays "processing" |
| DigestProcessor.ConcludeNoRecent | lib/digest-processor.ts:67-77 | no recent tweet: "No recent tweets found", the fetched count as scanned, and no request |
| DigestProcessor.ConcludeNoValuable | lib/digest-processor.ts:95-106 | nothing kept: "No valuable tweets after filtering", the recent count and 0 selected, after one filter request |
| DigestProcessor.DeliveredSuccess | lib/digest-processor.ts:110-142 | a successful delivery renders with both counts and sends once with the caller's tokens, and Gmail answered |
| DigestProcessor.ConcludeSuccess | lib/digest-processor.ts:86-142 | "success" only after a non-empty filter result, a parsed formatting and a delivery, with the counts and the serialised digest, in that order |
| DigestProcessor.FilteredSuccess | lib/digest-processor.ts:86-106 | only a non-empty filter result can lead to success |
| DigestProcessor.FormattedSuccess | lib/digest-processor.ts:108-118 | only a parsed formatting can lead to success |
| DigestProcessor.ConcludeThrown | lib/digest-processor.ts:145-154 | a thrown formatting, parse, render or send error ends in "failed" with its message and no counts |
| DigestProcessor.ConcludeStepTerminal | lib/digest-processor.ts:62-154 | the real finishing step only asks the AI and the mail service, and ends in "success" or "failed" |
| DigestProcessor.RunJournalShape | lib/digest-processor.ts:11-154 | between its creation and its one update, the log row is not written |
| DigestProcessor.RunEvents | lib/digest-processor.ts:21-154 | a run first reads the digest, then makes only fetch, AI or mail requests, and ends terminal |
| DigestProcessor.RunLogWrites | lib/digest-processor.ts:11-154 | the log row is created in "processing" with counts 0 before the digest is read, and is updated exactly once, last, with a terminal status |
| DigestProcessor.RunCases | lib/digest-processor.ts:21-60 | a missing digest gives "Digest not found" after the read alone; otherwise every handle is looked up in order, the pauses follow the delay rule, and the finish decides |
| DigestProcessor.RunNoRecentNoAi | lib/digest-processor.ts:64-77 | without recent tweets no AI or mail request is made, and the run fails with the fetched count |
| DigestProcessor.RunQuiet | lib/digest-processor.ts:21-60 | a finish that asks nothing leaves only the digest read and fetch requests |
| DigestProcessor.NoRecentLogRow | lib/digest-processor.ts:68-75 | on the no-recent path the row ends "failed" with the scanned count and 0 selected |
| DigestProcessor.FormatAndSend | lib/digest-processor.ts:108-153 | formatting and delivery on the backend: the log patch and the requests of `Formatted` |
| DigestProcessor.FilterAndSend | lib/digest-processor.ts:86-153 | filter, formatting and delivery on the backend: the log patch and the requests of `Filtered` |
| DigestProcessor.ConcludeRun | lib/digest-processor.ts:62-153 | steps after the fetch on the backend: the log patch and the requests of `Conclude` |
| DigestProcessor.ProcessDigest | lib/digest-processor.ts:6-155 | creates one log row, runs as `RunSpec` says, and applies its one patch; the cache and the journal are those of the run |
| SettingsRoute.PutDigest | app/api/digest/route.ts:5-62 | the answer, the digest table, the cache and the requests are those of `Put` |
| SettingsRoute.RemovedMembers | app/api/digest/route.ts:23-25 | a cleanup key is exactly a lowercased old handle that no lowercased new handle equals |
| SettingsRoute.RemovedInOrder | app/api/digest/route.ts:23-25 | the cleanup keys keep the order of the old list |
| SettingsRoute.SharedHandleKept | app/api/digest/route.ts:25 | a handle still in the new list, in any letter case, is never a cleanup key |
| SettingsRoute.PutRejected | app/api/digest/route.ts:8-20 | signed out gives 401, no digest gives 404, and no failed save writes anything |
| SettingsRoute.PutSaved | app/api/digest/route.ts:27-54 | 200 exactly when every guard passes; then the cleanup keys leave the cache, deletion is asked only for a non-empty list, and the digest takes the body |
| SettingsRoute.UpdateWritesFormFields | app/api/digest/route.ts:42-52 | each present form field is written, each absent one kept, with id, owner and time zone unchanged |
| SettingsRoute.AtHandleKeyMissed | app/api/digest/route.ts:23-25 | removing "@Foo" deletes key "@foo", while the resolver caches it under "foo", so that row survives |
| CronRoute.CronSweep | app/api/cron/digest/route.ts:5-80 | the answer and the requests are those of `Cron` |
| CronRoute.EntriesShape | app/api/cron/digest/route.ts:38-66 | one entry per due digest, in order: "failed" with "No Google access token" exactly when the account lacks a token, else "processing" |
| CronRoute.DispatchesMembers | app/api/cron/digest/route.ts:53-60 | every background start is of a due digest with a token, using its account's tokens, and each such digest has one |
| CronRoute.DispatchOnlyOwn | app/api/cron/digest/route.ts:41-60 | with distinct ids, a start naming a digest is that digest's own and needs a token |
| CronRoute.DispatchOnce | app/api/cron/digest/route.ts:54-60 | with distinct ids, a digest whose account has a token is started exactly once |
| CronRoute.CronUnauthorized | app/api/cron/digest/route.ts:8-11 | a wrong or missing bearer header gives 401 with no read and no start |
| CronRoute.CronReport | app/api/cron/digest/route.ts:13-72 | an authorized sweep reads the due digests once and reports one entry per due digest, in order, each active and at that hour, counting them all |
| RunNowRoute.RunNowGuards | app/api/digest/run/route.ts:8-41 | signed out gives 401, no digest 404, no handles 400, and no Google token 400, each without a start |
| RunNowRoute.RunNowDispatch | app/api/digest/run/route.ts:43-49 | exactly one start when the answer is 200, with the digest's id and the account's tokens, else none |
| DashboardPage.LoadDashboard | app/dashboard/page.tsx:6-44 | the page, the digest table and the requests are those of `Dashboard` |
| DashboardPage.InsertNewest | app/dashboard/page.tsx:18 | inserting keeps the list newest first and adds exactly that log |
| DashboardPage.SortNewestSorts | app/dashboard/page.tsx:18 | sorting puts the logs newest first and is a permutation |
| DashboardPage.CutNewest | app/dashboard/page.tsx:18-19 | cutting a newest-first list leaves a newest-first front that is no older than the back |
| DashboardPage.RecentLogsWindow | app/dashboard/page.tsx:14-22 | the page shows min(10, n) of the digest's logs, newest first, and no left-out log is newer than one shown |
| DashboardPage.DashboardSignedOut | app/dashboard/page.tsx:9-11 | signed out redirects to "/" without a read |
| DashboardPage.DashboardExisting | app/dashboard/page.tsx:14-25 | a user with a digest sees it, and nothing is created |
| DashboardPage.DashboardCreates | app/dashboard/page.tsx:25-41 | a first visit creates exactly one digest with the default settings, and the next visit finds it |
| DashboardPage.DigestOfUserAppend | app/dashboard/page.tsx:14-15 | a row appended for a user without a digest is the one found |
| DashboardContent.NonEmptyKeeps | components/dashboard/dashboard-content.tsx:62 | the filter keeps exactly the non-empty pieces |
| DashboardContent.NonEmptyAll | components/dashboard/dashboard-content.tsx:62 | a list without empty pieces passes the filter unchanged |
| DashboardContent.ParseClean | components/dashboard/dashboard-content.tsx:59-62 | each parsed handle is non-empty, trimmed, free of commas, and the trim of a piece between commas |
| DashboardContent.TrimSubstring | components/dashboard/dashboard-content.tsx:61 | trimming only removes characters |
| DashboardContent.ShowPieces | components/dashboard/dashboard-content.tsx:44 | the shown text splits into the first handle, then each later one behind a space |
| DashboardContent.ParseShow | components/dashboard/dashboard-content.tsx:44-62 | showing clean handles and parsing the text gives them back |
| DashboardContent.ParseStable | components/dashboard/dashboard-content.tsx:44-62 | showing the parsed list and parsing it again changes nothing |
| DashboardContent.CountTrackedParsed | components/dashboard/dashboard-content.tsx:333 | counting the pieces with a non-blank trim is counting the parsed handles |
| DashboardContent.AccountCountParsed | components/dashboard/dashboard-content.tsx:333 | the "accounts tracked" count equals the number of handles a save sends |
| DashboardContent.CommasOnlyEnabled | components/dashboard/dashboard-content.tsx:230 | "Test Run Now" is enabled for ", ", although that text parses to no handle |

## Left out

- Console output and the debug log file are not modelled. They only write to the console or a file.
- The 100 ms pause between Twitter requests is not a timer. It is a `Paused` event in the journal, so its count and position are stated, not its duration.
- The clock is a parameter (`Clock`): the current time, hour and the two formatted dates.
- Fire-and-forget starts are not executed. A background run started by the sweep or by "run now" is a `Dispatched` event. Its execution is `ProcessDigest`, and concurrency between runs is not modelled.
- The two prompts and the OpenAI client are oracles. Only the text of each reply is modelled, plus whether the call threw.
- `JSON.parse`, `JSON.stringify`, UTF-8 encoding, the e-mail renderer and the Gmail client are oracles in `Services`.
- Database calls never fail in the model. So the 500 answers that a Prisma error would produce are not modelled: the catch of app/api/cron/digest/route.ts:73-79, and the catch of app/api/digest/run/route.ts:50-56.
- The 500 of the settings endpoint is modelled only for an unreadable body and for a missing `twitterUsernames`.
- Text.Lower: lowercases the ASCII letters only. `toLowerCase` maps every Unicode letter, and case folding is not available.
- Record ids are parameters. The dashboard's new digest id is the `newId` argument, and a log row's id is its position in the table.
- The handle parser and the settings endpoint assume `twitterUsernames` holds strings. A non-string element, which the JSON body could carry, is not modelled.
- Log order: Prisma leaves the order of logs with equal `executedAt` unspecified. The model fixes one order, and the lemmas state only what holds for any order.
- New digest's logs: the logs of a newly created digest are given in table order. The model takes them from the log table under the new id.
- Account order: the "first" Google account is taken in table order. The source relies on the database's default order.
- CronRoute.DispatchOnce: requires distinct digest ids, which the database guarantees as a primary key but the model does not enforce.
- The React rendering of the dashboard is not part of this model, and neither are its other handlers. Only the handle field, its count and the "Test Run Now" switch are modelled.
- app/page.tsx and the e-mail component are not part of this model.
- The time window uses integer milliseconds. `timeWindowHours` is an integer, and dates that do not parse are `None`.
