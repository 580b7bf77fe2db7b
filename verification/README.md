# Gmail cleaner batch core, in Dafny

This project models the batch-operation core of the Gmail cleaner service. It covers two implementations:

- The current one, `app/services/gmail.py`.
- The legacy module, `gmail_api.py`.

It also covers the shared state object `AppState` (`app/core/state.py`) and the request models with their field validators (`app/models/schemas.py`).

What the core does:

- It turns filter settings into a Gmail search query.
- It reads a message's List-Unsubscribe, From and Subject headers.
- It pages through `messages().list` until enough ids are collected.
- It reads messages in batches of `messages().get` requests. Their callbacks fold into one row per key (unsubscribe domain, or sender address). The rows are sorted by descending count.
- It trashes or marks ids read through `batchModify` calls over fixed-size chunks.
- It records the progress of each job in a status record that polling clients read.

The remote API is an input:

- A listing is a sequence of `ListResult`s. Call `k` receives `pages[k]`, either a page of ids with an optional next-page token or the error text of a raised call. A call past the end gets an empty page without a token.
- A batch read is one `Option<HeaderSet>` per id. `None` is a callback that received an exception.
- The `batchModify` answers are a `ModifyOutcome`: how many calls succeed before the first one raises, and that call's error text.
- "Service or error" from the credentials layer is an `Option<string>` error.

Each job is a method over the state object (`State.AppState`, or the legacy `LegacyJobs.Module` holding the globals). Its ensures clause ties the requests, calls and new state to a specification function of the inputs. Lemmas about that function state what the job promises.

Modules:

| Module | What it holds |
|---|---|
| `Text` | The Python string operations the code relies on: lower-casing, strip, split and join, and integer formatting. |
| `Headers` | The current header helpers. |
| `LegacyHeaders` | The legacy header helpers. |
| `Unsubscribe` | The decisions of `unsubscribe_single` that do not touch the network, and the phrase matching of the legacy link test. |
| `Query` | `build_gmail_query`. |
| `Schemas` | The validators and bounds. |
| `Paging` | The three listing loops. |
| `Chunking` | Chunks, `batchModify` calls and progress. |
| `Aggregation` | The callback fold and the stable sort by count. |
| `Scans` | The four per-message readers. |
| `State` | `AppState`. |
| `Jobs` | The current scan and mark-read jobs. |
| `DeleteJobs` | The current delete jobs. |
| `LegacyJobs` | The legacy jobs. |

Where the code and its documented intent differ, the model follows the code:

- `build_gmail_query` uses only `older_than`, `larger_than` and `category`. `FiltersModel` also accepts `after_date`, `before_date`, `sender` and `label`; the query ignores them.
- `delete_emails_bulk_background` stops deleting at the first `batchModify` that raises, because one `try` wraps the whole loop.
- `delete_emails_bulk_background` sets `error` whenever any listing or chunk failed, even after a partial success.
- `delete_emails_bulk_background` never prunes `delete_scan_results`.
- When nothing is collected, `delete_emails_bulk_background` reports "No emails found to delete" without an error, even if every listing failed.
- `delete_emails_by_sender` reports success with 0 deleted when the sender has no messages. In that case it leaves the cached rows alone.
- The legacy `get_sender_info` skips a From header without an address-shaped token and moves on to the next From header.

## Model

| member | source | states |
|---|---|---|
| Text.Lower | app/services/gmail.py:96 | `str.lower` on ASCII: same length, no upper-case letter left, each upper-case letter moved 32 code points down to its lower-case form, every other character kept |
| Text.LowerIdempotent | app/services/gmail.py:96 | lower-casing twice is lower-casing once |
| Text.LowerAppend | app/services/gmail.py:96 | lower-casing distributes over concatenation |
| Text.TrimStart | app/services/gmail.py:125 | the result is the suffix left after dropping the longest run of leading characters satisfying the predicate |
| Text.TrimEnd | app/services/gmail.py:125 | the result is the prefix left after dropping the longest run of trailing characters satisfying the predicate |
| Text.StripBy | app/services/gmail.py:125-126 | `strip(chars)`: the result is a slice of the argument with only stripped characters before and after it, and it neither starts nor ends with one |
| Text.StrippedUnique | app/services/gmail.py:125-126 | that description fixes the result: any two slices meeting it are equal |
| Text.IndexOf | app/services/gmail.py:124 | the first position of a character from `from` on, or none when it does not occur |
| Text.SplitJoin | app/services/gmail.py:88 | splitting `' '.join(parts)` on spaces gives back `parts` when no part holds a space |
| Text.AfterLast | app/services/gmail.py:212 | `split(c)[-1]`: the longest suffix without `c`, preceded by `c` when shorter than the string |
| Text.NatToStringValue | app/services/gmail.py:328 | the decimal rendering of a number reads back as that number |
| Headers.FirstNamed | app/services/gmail.py:95-96 | the index of the first header whose lower-cased name is the given one; none exactly when no header has it |
| Headers.Subject | app/services/gmail.py:134-139 | the value of the first Subject header, or "(No Subject)" when there is none; the legacy `get_subject` (gmail_api.py:223-228) is the same |
| Headers.CaptureAt | app/services/gmail.py:101 | the pattern `<(https?://[^>]+)>` (or `<(mailto:[^>]+)>`) matches at position `i` capturing `u` exactly when the result is `u` |
| Headers.FirstCaptureFrom | app/services/gmail.py:101 | the leftmost position from `from` on where the pattern matches, or none when it matches nowhere |
| Headers.FirstCapture | app/services/gmail.py:101-103 | `re.findall(...)[0]`: the group of the leftmost match; none exactly when the pattern matches nowhere |
| Headers.HasPost | app/services/gmail.py:99-100 | true exactly when some header is called List-Unsubscribe-Post, in any case |
| Headers.UnsubscribeFrom | app/services/gmail.py:94-115 | the link of the first List-Unsubscribe header from `from` on whose value yields one; none when no such header does |
| Headers.UnsubscribeLink | app/services/gmail.py:93-117 | the link decided by the first List-Unsubscribe header that yields one; none exactly when no such header yields a link |
| Headers.LinkKindRule | app/services/gmail.py:99-110 | an http(s) URL wins over a mailto in the same value, and it is "one-click" exactly when a List-Unsubscribe-Post header exists |
| Headers.MailtoFallback | app/services/gmail.py:112-115 | a value without an http(s) URL gives its first mailto link, always "manual" |
| Headers.NameAddrSearch | app/services/gmail.py:124 | `re.search(r'([^<]*)<([^>]+)>')`: the leftmost match from `from` on and its `<` and `>` positions, or none when nothing matches |
| Headers.LeftmostIsSearched | app/services/gmail.py:124 | the leftmost match of the pattern is the one the search finds |
| Headers.NameAndAddressParts | app/services/gmail.py:125-128 | the address is the second group stripped of whitespace; the name is the first group stripped of whitespace and then of quotes when that is non-empty, and otherwise the address; an empty name means an empty address |
| Headers.SenderOfValueNoMatch | app/services/gmail.py:129 | a From value with no `<...>` part is both the name and the address |
| Headers.SenderOfValueLeftmost | app/services/gmail.py:124-128 | otherwise the leftmost match gives the name and the address |
| Headers.SenderInfo | app/services/gmail.py:120-131 | from the first From header: the name and address of its leftmost match, or the value twice when nothing matches; ("Unknown", "unknown") when there is no From header |
| Headers.DomainOf | app/services/gmail.py:212 | the text after the last '@' of the address, or the whole address when it has no '@' |
| LegacyHeaders.LegacyDecidingFrom | gmail_api.py:198-206 | the first List-Unsubscribe header from `from` on whose value holds an http(s) or mailto link, or none |
| LegacyHeaders.LegacyUnsubscribeLink | gmail_api.py:196-207 | the URL of the first List-Unsubscribe header with an http(s) URL or a mailto link (the http(s) one first); none exactly when there is no such header |
| LegacyHeaders.SameLink | gmail_api.py:196-207 | the legacy and the current helper pick the same URL from the same headers; only the one-click tag is new |
| LegacyHeaders.AddressAt | gmail_api.py:215 | where `[\w\.-]+@[\w\.-]+\.\w+` matches from position `st`, the result gives the position of an '@' after `st` and the end of the match, within the string |
| LegacyHeaders.AddressAtGreedy | gmail_api.py:215 | the match reported from `st` is the greedy one: the local part runs to its '@', the domain's last dot is the last dot a match can use, and the final `\w+` runs to the last word character |
| LegacyHeaders.AddressAtShape | gmail_api.py:215 | every character of that match other than its '@' is in `[\w.-]` |
| LegacyHeaders.GreedyUnique | gmail_api.py:215 | from a given start there is at most one greedy match |
| LegacyHeaders.GreedyTakesWholeWord | gmail_api.py:215 | in `a@b.cd` the shape also fits `a@b.c`, but the greedy match runs to the end of `cd` |
| LegacyHeaders.ShapedMatches | gmail_api.py:215 | every address-shaped token starting at `st` makes the pattern match there |
| LegacyHeaders.AddressSearch | gmail_api.py:215 | `re.search`: the leftmost start from `from` on where the pattern matches, with the match found there, or none when it matches at no start |
| LegacyHeaders.AddressSearchGreedy | gmail_api.py:215 | the match `re.search` reports is the greedy match at that leftmost start |
| LegacyHeaders.AddressTokenShape | gmail_api.py:215-217 | the token holds its one '@' at the position returned, neither first nor last; every other character is in `[\w.-]` |
| LegacyHeaders.AddressTokenSearched | gmail_api.py:215-217 | the token is the greedy match at the leftmost start where the pattern matches |
| LegacyHeaders.SearchedIsToken | gmail_api.py:215-217 | conversely, the greedy match at the leftmost start is the token returned |
| LegacyHeaders.NoTokenNoShape | gmail_api.py:216 | there is no token exactly when no slice of the value is address-shaped |
| LegacyHeaders.FirstAddressFrom | gmail_api.py:212-216 | the first From header from `from` on whose value holds a token, or none |
| LegacyHeaders.LegacySenderInfo | gmail_api.py:210-220 | none exactly when no From header holds an address-shaped token; otherwise the address is a non-empty local part without '@', an '@', and the domain returned, which holds no '@' |
| LegacyHeaders.LegacySenderInfoSearched | gmail_api.py:210-220 | the pair comes from the first From header holding a token: the lower-cased greedy leftmost match and the lower-cased text after its '@' |
| LegacyHeaders.SplitAtSign | gmail_api.py:217-218 | lower-casing keeps the token's only '@' in place, so `split('@')[1]` is the whole text after it |
| Unsubscribe.EarlyExit | app/services/gmail.py:279-288 | an empty link or a `mailto:` link is refused before any request; only the `mailto:` refusal is tagged "mailto" |
| Unsubscribe.UnsubscribeSingle | app/services/gmail.py:277-331 | success exactly when the link passes the early exits and the safety check, and either the POST status is in {200, 201, 202, 204} or the GET status is in {200, 201, 202, 204, 301, 302}; a success carries the domain |
| Unsubscribe.PostCodesAreGetCodes | app/services/gmail.py:313-325 | every accepted POST status is an accepted GET status; the GET set adds only 301 and 302 |
| Unsubscribe.EarlyExitIgnoresNetwork | app/services/gmail.py:279-288 | for an empty or `mailto:` link the reply does not depend on the safety check or on any HTTP outcome, and it is never a success |
| Unsubscribe.RejectedStatusMessage | app/services/gmail.py:328 | a rejected GET reports "Server returned status " followed by the decimal status code |
| Unsubscribe.FirstPhraseFrom | gmail_api.py:387-389 | the first phrase from position `i` of the list that occurs in the text, or none |
| Unsubscribe.MentionsAnyMeans | gmail_api.py:387-389 | the phrase loop fires exactly when some phrase of the list occurs in the text |
| Unsubscribe.TestUnsubscribeLink | gmail_api.py:360-395 | "one-click" exactly when the page was fetched and one of the twelve success phrases occurs in its lower-cased text, else "manual" (also when the fetch raised) |
| Unsubscribe.LegacyUnsubscribeSingle | gmail_api.py:398-427 | "unsubscribed" exactly when the page was fetched and one of the nine success words occurs in its lower-cased text; an error reply exactly when the fetch raised; the domain is kept in every reply |
| Unsubscribe.PhraseListsDiffer | gmail_api.py:378-418 | the two phrase lists have 12 and 9 entries; "removed from" is the only success word that is not a one-click phrase |
| Unsubscribe.UnsubscribedImpliesOneClick | gmail_api.py:377-427 | a page the legacy unsubscribe accepts on a phrase other than "removed from" is also one the link test calls one-click |
| Query.BuildQuery | app/services/gmail.py:70-71 | falsy filters give the empty query |
| Query.EmptyQuery | app/services/gmail.py:78-88 | the query is empty exactly when none of `older_than`, `larger_than` and `category` is present and non-empty |
| Query.IgnoredFields | app/services/gmail.py:78-88 | `after_date`, `before_date`, `sender` and `label` never change the query |
| Query.AllGiven | app/services/gmail.py:78-88 | with all three fields given, the query is `older_than:X larger:Y category:Z`, in that order |
| Query.TermValue | app/services/gmail.py:78-88 | a value read for a prefix comes from a term that is that prefix followed by the value |
| Query.ParseBuild | app/services/gmail.py:78-88 | round trip: reading the terms of a built query back gives exactly the used fields, with empty ones absent, as long as no value holds a space |
| Query.MarkReadQuery | app/services/gmail.py:377-379 | `is:unread`, followed by a space and the filter query when that is non-empty |
| Schemas.ShapeField | app/models/schemas.py:24-58 | a shape validator maps `None` and "" to `None`; otherwise it accepts exactly the values fully matching its pattern (allowing one trailing newline, as `$` does), returns them unchanged, and fails with its own message |
| Schemas.ValidateCategory | app/models/schemas.py:60-68 | accepted exactly when the lower-cased value is one of the five categories; returns the lower-cased value |
| Schemas.ValidateSender | app/models/schemas.py:70-82 | stripped; `None` exactly when the stripped value is blank; otherwise accepted exactly when it holds '@' or '.' |
| Schemas.ValidateFilters | app/models/schemas.py:14-85 | a validated model holds, field by field, what each field validator returned for its input; `label` passes through unchanged |
| Schemas.ValidatorsNormalise | app/models/schemas.py:24-82 | every validator maps `None` and "" to `None`, and none of them returns `Some("")` |
| Schemas.ValidatedQueryReadsBack | app/models/schemas.py:24-68 | an accepted value holds no space, so the query built from validated filters reads back to exactly the three fields it uses |
| Schemas.BoundedInt | app/models/schemas.py:89-101 | an integer field with `ge`/`le` bounds: the default when absent; otherwise accepted exactly within the bounds, unchanged |
| Schemas.SenderList | app/models/schemas.py:118 | a sender list is accepted exactly when it has at most 50 entries; absent means empty |
| Schemas.LabelName | app/models/schemas.py:128 | a label name is required and accepted exactly when it has 1 to 100 characters |
| Schemas.RequestBoundsPositive | app/models/schemas.py:89-101 | scan limit 1..5000 with default 500, mark-read count 1..100000 with default 100, delete-scan limit 1..10000 with default 1000 |
| Paging.ListUpTo | app/services/gmail.py:162-182 | the `while len(ids) < limit` loop produces the ids, requests and error of its specification `UpTo` |
| Paging.UpToRequests | app/services/gmail.py:165-182 | call `j` asks for `min(500, limit - collected)` with the previous page's token, and it is only made while fewer than `limit` ids are in; without an error the ids are those of the pages read, in order |
| Paging.UpToRequestBounds | app/services/gmail.py:168 | each such call asks for 1 to 500 ids |
| Paging.UpToStops | app/services/gmail.py:165-182 | the loop ends because `limit` ids are in, a page had no token, an empty page came (legacy mark-read only), or a call raised; every earlier page went on |
| Paging.UpToAtMostLimit | app/services/gmail.py:165-182 | if the server never returns more than asked for, at most `limit` ids are collected |
| Paging.UpToBounds | app/services/gmail.py:165-182 | every call asks for 1 to 500 ids with the given query and the previous page's token |
| Paging.PyPrefix | app/services/gmail.py:400 | `messages[:count]`, including Python's meaning of a negative `count` |
| Paging.ListCapped | app/services/gmail.py:382-400 | the first call and the `while 'nextPageToken' in results and len(messages) < count` loop produce the listing of their specification `Capped` |
| Paging.CappedRequests | app/services/gmail.py:382-398 | at least one call is made; call `j` asks for `min(count - collected, 500)` with the previous page's token; without an error the ids are those of the pages read |
| Paging.CappedStops | app/services/gmail.py:391 | the loop stops at a page without a token, once `count` ids are in, or at a call that raises; every earlier page had a token |
| Paging.CappedBounds | app/services/gmail.py:385-400 | with a positive count every call asks for 1 to 500 ids with the given query, and at most `count` ids come out whatever the server returns |
| Paging.ListAll | app/services/gmail.py:570-577 | the `while 'nextPageToken' in results` loop produces the listing of its specification `All` |
| Paging.AllReadsEveryPage | app/services/gmail.py:570-577 | every page up to the first without a token is read, in order, 500 at a time, each with the previous page's token |
| Chunking.ChunksPartition | app/services/gmail.py:412-414 | the chunks concatenate back to the ids, in order; each has 1 to `size` ids, and all but the last have exactly `size` |
| Chunking.ChunksCount | app/services/gmail.py:412 | there are `ceil(len / size)` chunks, as `range(0, len, size)` gives |
| Chunking.ChunkAt | app/services/gmail.py:413 | chunk `j` is `ids[j*size : (j+1)*size]` |
| Chunking.ChunksPrefix | app/services/gmail.py:412-421 | the first `n` chunks hold the first `min(n*size, len)` ids |
| Chunking.IdsOfCalls | app/services/gmail.py:416-419 | the ids of the calls, in order, are the concatenated chunks |
| Chunking.AllChunksApplied | app/services/gmail.py:412-421 | when every call is accepted, each id lands in exactly one call, in order |
| Chunking.ModifyInChunks | app/services/gmail.py:412-425 | the chunk loop makes calls until one raises; the ids counted, the count after each call, and the error are those of the accepted prefix of chunks |
| Chunking.PercentBounds | app/services/gmail.py:422 | progress `lo + done*span/total` stays within `lo..lo+span`, reaches the top when everything is done, and stays below it before that |
| Chunking.PercentMonotone | app/services/gmail.py:422 | progress never goes back as more is done |
| Chunking.CollectPhaseBelow40 | app/services/gmail.py:666 | `int(i / total * 40)` stays below 40 for every sender index |
| Chunking.ProgressClimbs | app/services/gmail.py:422-423 | progress after each chunk stays in its band, never goes back, and reaches the top after the last chunk |
| Chunking.PrefixDone | app/services/gmail.py:421 | after `n` chunks, `min(n*size, len)` ids are done |
| Chunking.PrefixDoneMonotone | app/services/gmail.py:421 | the done count grows with the number of chunks |
| Aggregation.FoldSummarises | app/services/gmail.py:199-220 | the rows after the callbacks: one per key, distinct, in first-seen order; each row's count is the number of contributions with its key, its subjects the first `cap` of theirs, its ids all of theirs, and its sender data the last one's; failed and non-contributing messages add nothing |
| Aggregation.StepSummarises | app/services/gmail.py:209-220 | one contributing callback keeps that summary: a new key appends a row with count 1, a known key adds 1 and a subject while fewer than `cap` are kept |
| Aggregation.FoldCountsHits | app/services/gmail.py:215 | the counts of all rows add up to the number of contributing messages |
| Aggregation.SortByCountSpec | app/services/gmail.py:248-254 | the sort is a permutation into descending count order that keeps the first-seen order of rows with equal counts, as Python's stable `sorted(..., reverse=True)` does |
| Aggregation.SortedSummary | app/services/gmail.py:199-254 | after the sort each row still summarises its key's contributions, the keys are distinct, and a key has a row exactly when some message contributed to it |
| Aggregation.Contributions | app/services/gmail.py:199-205 | message `i` contributes nothing when its callback got an exception (or no response), and otherwise exactly what the reader makes of its id and headers |
| Aggregation.ExecuteBatch | app/services/gmail.py:222-237 | `batch.execute()` runs the callback once per request in order; the rows become the fold over the messages so far, and `processed` counts every callback, failed ones included |
| Aggregation.RunBatches | app/services/gmail.py:196-245 | the batch loop reads the ids in chunks of `size`; the rows are the fold over all messages, `processed` equals the number of ids, and the progress after each batch is `int((i + len(batch)) / total * 100)` |
| Scans.ReadSubscription | app/services/gmail.py:203-220 | a message contributes exactly when it has an unsubscribe link; it is keyed by the domain of the sender's address and carries the link, its type, the sender and the subject |
| Scans.ReadSender | app/services/gmail.py:494-505 | a message contributes exactly when its sender address is non-empty; it is keyed by that address and carries the name and the subject |
| Scans.MissingFromIsUnknown | app/services/gmail.py:498-503 | a message without a From header is grouped under "unknown" with the name "Unknown" |
| Scans.SubscriptionRowsExact | app/services/gmail.py:199-251 | one row per domain with a contributing message, no domain twice; each row counts exactly that domain's messages and keeps the first 3 of their subjects |
| Scans.SenderRowsExact | app/services/gmail.py:490-537 | one row per non-empty address, no address twice; each row counts exactly that address's messages and keeps the first 3 of their subjects |
| Scans.LegacyReadSubscription | gmail_api.py:280-293 | a message contributes exactly when its link is non-empty, is not `mailto:`, and its sender has a non-empty domain; it is keyed by that domain |
| Scans.OneClickCount | gmail_api.py:346-347 | the number of one-click rows is at most the number of rows |
| Scans.OneClickCounts | gmail_api.py:346-347 | the count is exactly the number of positions holding a one-click row |
| Scans.LegacyReadSender | gmail_api.py:609-620 | a message contributes exactly when the sender has an address-shaped token; it is keyed by the lower-cased address and carries the domain |
| Scans.LegacySubscriptionRowsExact | gmail_api.py:276-343 | one row per domain with a web link, no domain twice; each row counts exactly that domain's messages and keeps the first 3 of their subjects |
| Scans.LegacySenderRowsExact | gmail_api.py:602-652 | one row per lower-cased address, no address twice; each row counts exactly that address's messages, keeps the first 2 of their subjects and all of their ids, in order |
| Scans.SubscriptionRowsSound | app/services/gmail.py:199-256 | every result row is keyed by the domain of its address, has a link, a positive count and at most 3 subjects; rows are in descending count order |
| Scans.SenderRowsSound | app/services/gmail.py:490-539 | every row has a non-empty address, a positive count and at most 3 subjects; rows are in descending count order |
| Scans.LegacySubscriptionRowsSound | gmail_api.py:276-325 | every row has a non-mailto link, a non-empty domain, a positive count and at most 3 subjects |
| Scans.LegacySenderRowsSound | gmail_api.py:602-652 | every row has `count == len(msg_ids) >= 1` and at most 2 subjects |
| State.AppState.constructor | app/core/state.py:13-68 | the fresh state: every status it creates at progress 0, "Ready", not done, no error, counters 0, empty result lists; no label, archive or important records |
| State.AppState.ResetScan | app/core/state.py:70-78 | empties `scan_results`, installs a fresh `scan_status`, and changes no other field |
| State.AppState.ResetDeleteScan | app/core/state.py:80-88 | empties `delete_scan_results`, installs a fresh `delete_scan_status`, and changes no other field |
| State.AppState.ResetMarkRead | app/core/state.py:90-98 | a fresh `mark_read_status` with `marked_count` 0; nothing else changes |
| State.AppState.ResetDeleteBulk | app/core/state.py:100-110 | a fresh `delete_bulk_status` with `deleted_count`, `total_senders` and `current_sender` 0; nothing else changes |
| State.AppState.ResetDownload | app/core/state.py:112-155 | a fresh `download_status` with no CSV data; it also installs fresh label-operation, archive and important records; nothing else changes |
| State.AppState.ResetLabelOperation | app/core/state.py:157-167 | installs only a fresh label-operation record |
| State.AppState.ResetArchive | app/core/state.py:169-179 | installs only a fresh archive record |
| State.AppState.ResetImportant | app/core/state.py:181-191 | installs only a fresh important record |
| State.InitialState | app/core/state.py:13-68 | the initial records are fresh, the result lists empty, no user, no pending auth, and the three sender-job records absent |
| State.ResetsIdempotent | app/core/state.py:70-191 | applying any reset twice gives the state of applying it once |
| State.ResetsAreLocal | app/core/state.py:70-155 | each reset leaves the other jobs' records and result lists alone |
| State.ResetsCommute | app/core/state.py:70-110 | resets of different jobs commute |
| State.OnlyDownloadCreatesSenderRecords | app/core/state.py:112-155 | only `reset_download` creates the label-operation, archive and important records; the other resets never do |
| State.InitialIsReset | app/core/state.py:13-155 | the scan, delete-scan, mark-read and delete-bulk resets leave the initial state unchanged, but the download reset does not |
| Jobs.QueryParam | app/services/gmail.py:172-173 | no `q` parameter exactly when the query is empty |
| Jobs.ScanEmails | app/services/gmail.py:144-262 | `scan_emails`: the list requests, read batches, progress, `scan_results` and `scan_status` are those of its specification, and no other field changes |
| Jobs.ScanEnds | app/services/gmail.py:146-187 | a scan always ends done; a service error makes no request; a listing error leaves no results; zero ids end at "No emails found" with no batch; the record has no error exactly when the service and the listing worked |
| Jobs.ScanRequestsAndBatches | app/services/gmail.py:162-245 | every list call asks for 1 to 500 ids with the filters' query; the batches of at most 100 partition the listed ids in order; progress climbs to 100; with an honest server at most `limit` ids are read |
| Jobs.ReadBatches | app/services/gmail.py:197-240 | the batches of 100 partition a non-empty id list, each of 1 to 100 ids, and the progress `int((i + len(batch_ids)) / total * 100)` after them never goes back and ends at 100 |
| Jobs.ScanResultsSound | app/services/gmail.py:199-258 | the stored results are keyed by domain, each with a link, a positive count and at most 3 subjects, in descending count order |
| Jobs.MarkEmailsAsRead | app/services/gmail.py:362-432 | `mark_emails_as_read`: the list requests, modify calls and `mark_read_status` are those of its specification, and no other field changes |
| Jobs.MarkReadCalls | app/services/gmail.py:377-428 | the query starts with `is:unread`; at most `count` ids; chunks of at most 100 each removing UNREAD; zero ids make no call; without an error each id is in exactly one call, `marked_count` ends at the total, and progress at 100 |
| Jobs.MarkReadProgress | app/services/gmail.py:421-423 | the progress the chunk loop records stays within 0..100 and never goes back |
| Jobs.ScanSendersForDelete | app/services/gmail.py:442-545 | `scan_senders_for_delete`: the requests, batches, progress, `delete_scan_results` and `delete_scan_status` are those of its specification, and no other field changes |
| Jobs.ScanSendersSound | app/services/gmail.py:453-541 | the scan ends done, with no error exactly when the service and listing worked; 1 to 500 ids per call; at most `limit` ids in batches of at most 100; rows keyed by a non-empty address, with positive counts and at most 3 subjects, in descending count order |
| DeleteJobs.WithoutSenderMembers | app/services/gmail.py:596-599 | the pruned cache holds exactly the rows whose email is not the sender |
| DeleteJobs.WithoutSenderAppend | app/services/gmail.py:596-599 | pruning distributes over concatenation, so the kept rows keep their order |
| DeleteJobs.WithoutSenderIdle | app/services/gmail.py:596-599 | pruning an absent sender changes nothing, and pruning twice is pruning once |
| DeleteJobs.PruneSender | app/services/gmail.py:596-599 | the comprehension loop returns the pruned cache |
| DeleteJobs.DeleteEmailsBySender | app/services/gmail.py:558-604 | `delete_emails_by_sender`: the list requests, trash calls, reply and new `delete_scan_results` are those of its specification, and no other field changes |
| DeleteJobs.DeleteBySenderOutcome | app/services/gmail.py:558-604 | an empty sender fails at once; a failure deletes 0 and keeps the cache; calls have at most 100 ids, each adding TRASH; a success trashes every listed id exactly once, in order, and drops exactly that sender's rows when there was something to delete |
| DeleteJobs.DeleteEmailsBulk | app/services/gmail.py:607-633 | `delete_emails_bulk`: the calls, reply and cache are those of the per-sender tally |
| DeleteJobs.BulkTallyCounts | app/services/gmail.py:612-620 | at most one error per sender; without a service every sender fails and nothing changes |
| DeleteJobs.BulkReplyRule | app/services/gmail.py:624-633 | with errors: success exactly when fewer errors than senders; without errors: success exactly when something was deleted; the reported count is the sum of the successful deletes |
| DeleteJobs.BulkWithoutService | app/services/gmail.py:615-633 | when the service cannot be reached, the bulk delete fails, deletes nothing and keeps the cache |
| DeleteJobs.Collect | app/services/gmail.py:660-682 | phase one records one request list per sender and at most one error per sender |
| DeleteJobs.CollectPerSender | app/services/gmail.py:660-682 | sender by sender: the ids are those of the successful listings in sender order, the errors are `sender: error` for each failed listing in order, and sender `i`'s requests are those of its own listing of `from:sender` |
| DeleteJobs.CollectSenders | app/services/gmail.py:660-682 | the collection loop yields the ids, errors and requests of `Collect` and records `current_sender`, leaving the record not done and without error |
| DeleteJobs.DeleteEmailsBulkBackground | app/services/gmail.py:636-721 | `delete_emails_bulk_background`: the requests, both progress sequences, the trash calls and `delete_bulk_status` are those of its specification, and no other field changes |
| DeleteJobs.BulkBackgroundNoSenders | app/services/gmail.py:645-648 | an empty sender list ends done with "No senders specified" and makes no request |
| DeleteJobs.CollectingBelow40 | app/services/gmail.py:664-666 | phase-one progress never goes back and stays below 40 |
| DeleteJobs.DeletingCalls | app/services/gmail.py:694-710 | phase two makes calls of at most 1000 ids adding TRASH, until one raises; when all are accepted each collected id is trashed exactly once, in order |
| DeleteJobs.DeletingProgress | app/services/gmail.py:704-707 | phase-two progress `40 + int(deleted / total * 60)` stays within 40..100 and never goes back |
| DeleteJobs.BulkBackgroundFinal | app/services/gmail.py:684-721 | the job ends done at progress 100 with `deleted_count` the ids trashed; nothing collected gives "No emails found to delete" with no call and no error; otherwise `error` is set exactly when a listing or a chunk failed |
| LegacyJobs.Module.constructor | gmail_api.py:27-31 | the globals start empty, each status record "Ready" |
| LegacyJobs.InitialRecords | gmail_api.py:552-554 | every record starts at progress 0, "Ready", not done, without error, its counter at 0 |
| LegacyJobs.CountOneClick | gmail_api.py:346 | the loop counts the rows typed one-click |
| LegacyJobs.ScanEmails | gmail_api.py:231-357 | the legacy `scan_emails`: the requests, batches, `scan_results` and `scan_status` are those of its specification, and no other global changes |
| LegacyJobs.LegacyScanOutcome | gmail_api.py:231-357 | the scan ends done, at progress 100 unless it failed; a failure installs an error record and no results; list calls carry no query, ask for 1 to 500 ids and pass the previous token; rows have a non-mailto link, a domain, a positive count and at most 3 subjects |
| LegacyJobs.MarkEmailsAsRead | gmail_api.py:470-542 | the legacy `mark_emails_as_read`: the requests, calls and `mark_read_status` are those of its specification |
| LegacyJobs.LegacyMarkReadOutcome | gmail_api.py:482-539 | the listing stops on an empty page or a missing token; calls of at most 1000 ids remove UNREAD; zero ids give "No unread emails found!" at progress 100; without an error each id is in exactly one call and `marked` is the total; an error resets the record |
| LegacyJobs.ScanSendersForDelete | gmail_api.py:557-664 | the legacy `scan_senders_for_delete`: requests, batches, `delete_scan_results` and `delete_scan_status` are those of its specification |
| LegacyJobs.LegacyScanSendersOutcome | gmail_api.py:598-664 | the scan ends done, at progress 100 unless it failed; every row has `count == len(msg_ids) >= 1` and at most 2 subjects |
| LegacyJobs.FirstRowOf | gmail_api.py:676-682 | the index of the first cached row with the address, or none when no row has it |
| LegacyJobs.FindSender | gmail_api.py:676-682 | the `for ... break` loop finds that first row |
| LegacyJobs.FirstRowIsUnique | gmail_api.py:676-682 | a row preceded by no match is the first match; having passed every row means no match |
| LegacyJobs.WithoutEmails | gmail_api.py:773 | the pruned cache holds exactly the rows whose email is not among the given ones |
| LegacyJobs.WithoutEmailsAppend | gmail_api.py:773 | pruning distributes over concatenation, so the kept rows keep their order |
| LegacyJobs.WithoutEmailsSingle | gmail_api.py:773 | a single row is kept exactly when its email is not among the given ones |
| LegacyJobs.PruneEmails | gmail_api.py:773 | the comprehension loop returns that pruned cache |
| LegacyJobs.DeleteEmailsBySender | gmail_api.py:667-723 | the legacy `delete_emails_by_sender`: trash calls, reply and new cache are those of its specification |
| LegacyJobs.LegacyDeleteBySenderOutcome | gmail_api.py:676-713 | no cached row gives "Sender not found in scan results" and no call; calls have at most 500 ids adding TRASH; a success trashes exactly that row's message ids and drops exactly the rows with that address |
| LegacyJobs.CollectCachedFinds | gmail_api.py:735-743 | a sender is among those found exactly when it was requested and has a cached row |
| LegacyJobs.CollectCachedPerSender | gmail_api.py:735-743 | the ids are each requested sender's first cached row's ids, in request order (a sender asked for twice counts twice), and the senders are those with a cached row, in the same order |
| LegacyJobs.DeleteEmailsBulk | gmail_api.py:726-783 | the legacy `delete_emails_bulk`: trash calls, reply and new cache are those of its specification |
| LegacyJobs.LegacyBulkOutcome | gmail_api.py:735-773 | nothing collected gives "No emails found for selected senders"; calls of at most 500 ids add TRASH; a success trashes every collected id, reports their number, and drops exactly the found senders' rows |

## Left out

- OAuth and credential handling (`get_gmail_service`, token and credentials files, sign-in state) is not modelled. Each job takes "service or error" as an input. The legacy auth globals (`current_user` and the pending-auth values) are not modelled either.
- Real HTTP is not modelled:
  - the `urllib` calls of `unsubscribe_single` and `test_unsubscribe_link` become their outcomes (a status code or an exception text, and the fetched page text);
  - `_validate_unsafe_url` (DNS lookup and IP ranges) becomes its error message, if any;
  - the 100-character truncation `str(e)[:100]` is modelled for the exception of the current `unsubscribe_single` (app/services/gmail.py:331); the exception text itself is an input.
- The `ThreadPoolExecutor` link testing of the legacy scan is modelled only by its result: one fetched page per sorted row. Its intermediate progress is left out.
- `time.sleep` rate limiting is a no-op.
- Progress uses integer division: `lo + done * span / total`. The source computes `int(done / total * span)` in floating point, which can come out one lower.
- `\d` and `\w` are ASCII. Lower-casing is ASCII, which is exact for the header names and categories compared. Under `re.IGNORECASE`, `[KMG]` also accepts the Kelvin sign, which the model includes. Python's `$` also matches before one final newline, which the model reproduces.
- A batch whose `execute()` raises as a whole, and a `list` call that raises in the middle of a scan, end the job with the exception's text as its error. The model covers list errors through `ListError` pages. It does not cover a whole-batch failure.
- The status messages written in the middle of a job are left out ("Scanned n/total", "Finding emails from ..."). The records keep their final message and the progress sequences.
- Concurrency is not modelled: background scheduling, concurrent polling, and `.copy()` versus live-dict returns. State is sequential.
- `get_unread_count`, the getters and the route wiring are left out; they only read state or dispatch.
- The download, label, archive and important jobs and `app/services/auth.py` are not part of this model. Their bodies are not visible.
- Schemas.ValidateFilters: pydantic error messages are modelled as the `ValueError` text of the first failing field, not pydantic's full error list.
- Scans.LegacyReadSender: the message id is the requested id. The source reads `response.get('id')`, which the Gmail API returns equal to it.
- DeleteJobs.DeleteEmailsBulk: each sender gets its own listing pages and `batchModify` outcome. A sender without a given outcome has its first call raise.
- DeleteJobs.DeleteEmailsBulk: one "service or error" value serves every sender, whereas `delete_emails_by_sender` calls `get_gmail_service()` again for each sender (app/services/gmail.py:615 via 558-560); a sign-in that fails for some senders and not others is not modelled.
- Paging.ListAll: the `while 'nextPageToken' in results` loop of app/services/gmail.py:570-577 has no cap; in the model it ends because the given page sequence is finite (a page beyond the given ones reads as an empty page without a token), so a server that hands out tokens forever is not modelled.
- Chunking.ModifyInChunks: its `calls` list holds the accepted `batchModify` calls only; the call that raised is not recorded, unlike the listings, whose requests include the one that raised.
- The legacy `delete_status` global is initialised but never written by the modelled jobs.
