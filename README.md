# CredX core, modelled in Dafny

CredX is a content-promotion network. Publishers register websites and prove they own them with a verification token in a meta tag. Promoters fund promotions of articles. A widget on host sites shows visitors one recommended promotion. Each click pays the viewer and the host from the platform wallet.

This project models the logic under that glue:

- the PostgreSQL schema with its defaults, check constraints, unique keys, row triggers, sign-up provisioning and daily purge;
- the widget click ledger;
- the recommendation tier chain, with SQL text escaping;
- the publishing queue;
- the classifier's text chunking, label encoding, class filter and training batches;
- the sign-up and website-form validators;
- the scraper's decisions on a parsed page;
- the dashboard routes and controllers.

The database is the datatype `Database.Tables`, one `seq` of rows per table. Money is integer cents (`numeric(10,2)`). Time is an integer number of milliseconds, passed in as `now`. `boost` is in hundredths.

Code that changes state in place is a method on a class with `modifies`:

- `Database.Db`: the tables;
- `PublishQueue.Queue`: the module-level array;
- `Chunking.ChunkTextOverlap`, `Chunking.ChunkTokens` and `Training.FitBatches`: the `while`/`for` loops.

Each method is proved equal to a specification function of the old state. The properties are lemmas about those functions.

Files:

- `wrappers.dfy`: `Option`, `Outcome` (a value or a thrown message), JSON values and truthiness.
- `text.dfy`: Python's `strip`/`split`/`splitlines`/`join`, substring search, JavaScript `replace`.
- `schema.dfy`: row types, defaults, triggers, constraints, purge predicate.
- `database.dfy`: ORM statements as functions, plus the `Db` store.
- The rest follow the source's files: `click.dfy`, `recommend.dfy`, `queue.dfy`, `chunking.dfy`, `training.dfy`, `auth_validation.dfy`, `website_validation.dfy`, `scraper.dfy`, `controllers.dfy`, `routes.dfy`.

Inputs that come from outside are parameters or oracles:

- **Identifiers:** generated uuids and CSV rows.
- **Parsing:** the `inet` parser `inetValid`, the email regex `fullMatch`, URL parsing `parse`, the tokenizer's output and `detokenize`.
- **Identity:** the identity provider's session lookup.
- **Fetched data:** the page meta tag, the RSS response, the embedding endpoint's answer and the vector distance.
- **The raw SQL relation:** `Option<seq<RawPromotion>>`. `None` means the relation has no `id`/`active` columns, as in the migration.

## Model

| member | source | states |
|---|---|---|
| Schema.NewPromotion | web/migrations/1761210486592_init-db.js:106-140 | an inserted promotion gets `remaining_impressions` 0, boost 1.0, status `pending`, both timestamps now |
| Schema.NewWebsite | web/migrations/1761210486592_init-db.js:72-104 | an inserted website is `inactive` and unverified, with `created_at` now and the given keys |
| Schema.AutoInactivate | web/migrations/1761210486592_init-db.js:315-337 | after the trigger, a count `<= 0` means `inactive`; a positive count leaves the row as given; only `status` can change |
| Schema.PromotionUpdated | web/migrations/1761210486592_init-db.js:286-291 | both promotion triggers together: `updated_at` is now, the inactivation rule holds, no other column changes |
| Schema.WalletUpdated | web/migrations/1761210486592_init-db.js:279-284 | a wallet update stamps `updated_at` with now and keeps the other columns |
| Schema.WebsiteUpdated | web/migrations/1761210486592_init-db.js:300-305 | every UPDATE of a websites row raises: the trigger assigns `updated_at`, and `websites` has no such column |
| Schema.KeptPromotions | web/migrations/1761210486592_init-db.js:351-353 | the purge keeps exactly the promotions that are not (`inactive` and older than 30 days) |
| Schema.PurgedIds | web/migrations/1761210486592_init-db.js:351-353 | the deleted ids are exactly the ids of the purgeable rows |
| Schema.InsertedPromotionStaysPending | web/migrations/1761210486592_init-db.js:332-337 | a fresh promotion has 0 impressions but stays `pending`, since the trigger fires on UPDATE only; its first update makes it `inactive` |
| Database.WebsiteByToken | web/src/app/api/widget/click/route.ts:36-39 | finds a website holding the token, or none exactly when no row holds it |
| Database.FirstWallet | web/src/controller/ViewWallet.tsx:6-14 | the first wallet satisfying the filter; an undefined user id selects every row |
| Database.CreditWallets | web/src/app/api/widget/click/route.ts:28-33 | selected wallets gain `delta` and are stamped; every other wallet is unchanged; ids and owners are kept |
| Database.CreditKeepsBalances | web/migrations/1761210486592_init-db.js:206-211 | a non-negative increment keeps `balance >= 0` |
| Database.DecrementImpressions | web/src/app/api/widget/click/route.ts:50-55 | the addressed rows (that id, or every row when `promotion_id` is undefined) lose one impression with the triggers applied; the other rows are unchanged |
| Database.DecrementTouchesOnlyTarget | web/src/app/api/widget/click/route.ts:50-55 | each addressed row has one impression fewer, is stamped, obeys the inactivation rule and keeps id, budget and boost; other rows are equal |
| Database.Provisioned | web/migrations/1761210486592_init-db.js:361-380 | sign-up adds exactly one `viewer` user, one wallet with balance 0 and one preferences row with no interests |
| Database.ProvisionKeepsConsistency | web/migrations/1761210486592_init-db.js:361-387 | provisioning a new account keeps every key and check constraint |
| Database.Purged | web/migrations/1761210486592_init-db.js:339-359 | a successful purge removes exactly the purgeable promotions and leaves every other table alone |
| Database.PurgeKeepsOrder | web/migrations/1761210486592_init-db.js:351-353 | surviving promotions keep their relative order |
| Database.Db.constructor | web/migrations/1761210486592_init-db.js:62-257 | the store starts from the given tables |
| Database.Db.Credit | web/src/app/api/widget/click/route.ts:28-33 | the update applies exactly when every resulting balance is non-negative; otherwise nothing changes |
| Database.Db.Decrement | web/src/app/api/widget/click/route.ts:50-55 | the new state is the old one with `DecrementImpressions` applied |
| Database.Db.InsertEvent | web/src/app/api/widget/click/route.ts:58-72 | appends the event exactly when its foreign keys and `inet` address are valid |
| Database.Db.InsertTransactions | web/src/app/api/widget/click/route.ts:75-105 | one all-or-nothing insert: appends both rows only if each passes the keys and `amount > 0` |
| Database.Db.ProvisionUser | web/migrations/1761210486592_init-db.js:361-387 | inserts the three rows exactly when no key is taken; otherwise nothing changes |
| Database.Db.PurgeInactivePromotions | web/migrations/1761210486592_init-db.js:339-359 | deletes the purgeable promotions unless an event or transaction refers to one (then nothing changes) |
| Database.Db.InsertWebsite | web/src/app/api/dashboard/website/new/route.ts:11-20 | appends the website exactly when the owner exists and its id, domain and token are unused |
| Database.Db.InsertUser | web/src/controller/syncUserProfileOnFirstLogin.tsx:15-20 | appends the user exactly when its primary key is free |
| Database.Db.InsertContentPromotion | web/src/controller/CreatePromotion.tsx:35-41 | appends one promotion row to the content-keyed table |
| Database.Consistent | web/migrations/1761210486592_init-db.js:62-257 | the schema's check constraints and unique keys over all tables |
| Database.EventAccepted | web/migrations/1761210486592_init-db.js:142-171 | an `events` insert passes its three foreign keys and the `inet` parse |
| Database.TransactionAccepted | web/migrations/1761210486592_init-db.js:219-242 | a `transactions` insert passes `amount > 0` and its three foreign keys |
| Database.PurgeAccepted | web/migrations/1761210486592_init-db.js:339-359 | the purge's DELETE passes unless an event or a transaction refers to a purged promotion |
| Database.PurgeStaysBlocked | web/migrations/1761210486592_init-db.js:339-359 | a purge refused at one time is refused at every later time on the same tables |
| Database.ProvisionAccepted | web/migrations/1761210486592_init-db.js:361-387 | the sign-up trigger's three inserts find their keys free |
| Database.WebsiteAccepted | web/migrations/1761210486592_init-db.js:72-104 | a website insert finds its owner and its id, domain and token free |
| Schema.Purgeable | web/migrations/1761210486592_init-db.js:351-353 | `status = 'inactive' AND updated_at < NOW() - INTERVAL '30 days'` |
| WidgetClick.OrElse | web/src/app/api/widget/click/route.ts:16 | JavaScript `a \|\| b`: the fallback exactly when the value is missing or empty |
| WidgetClick.ClientIp | web/src/app/api/widget/click/route.ts:12-15 | the address is "unknown" exactly when neither header gives another non-empty value |
| WidgetClick.Viewer | web/src/app/api/widget/click/route.ts:22 | `ROBINHOOD` never survives; any other id is kept |
| WidgetClick.ClickEvent | web/src/app/api/widget/click/route.ts:58-72 | a `click` event for the promotion: host website null for an unknown token, viewer substituted, ip and agent defaulting to "unknown" |
| WidgetClick.WalletIdOf | web/src/app/api/widget/click/route.ts:84-88 | the id of the first selected wallet, null when none |
| WidgetClick.ClickTransactions | web/src/app/api/widget/click/route.ts:75-105 | two rows from the platform wallet: a 3-cent viewer bonus and a 7-cent host payment, both positive, with the looked-up targets |
| WidgetClick.HandleClick | web/src/app/api/widget/click/route.ts:6-116 | the statement-by-statement handler ends in the state and status of `Click` |
| WidgetClick.Click | web/src/app/api/widget/click/route.ts:6-116 | 400 exactly for a falsy token; users, websites, preferences and the content tables never change; a 200 appends one event and two ledger rows; anything else appends no ledger row |
| WidgetClick.MissingTokenWritesNothing | web/src/app/api/widget/click/route.ts:19-20 | a missing `hostToken` answers 400 and changes no table |
| WidgetClick.RobinhoodIsPlatform | web/src/app/api/widget/click/route.ts:80-88 | `ROBINHOOD` behaves exactly like the platform id; the comparison at line 81 can never be true |
| WidgetClick.StatusCodes | web/src/app/api/widget/click/route.ts:107-115 | the handler answers only 200, 400 or 500 |
| WidgetClick.CreditKeepsWalletLookup | web/src/app/api/widget/click/route.ts:84-99 | crediting wallets does not change which wallet a later `findFirst` picks |
| WidgetClick.SuccessfulClick | web/src/app/api/widget/click/route.ts:24-108 | a 200 changes exactly: viewer wallets +3, host-owner wallets +7, one impression spent, one event and two transactions appended |
| WidgetClick.UnknownHostIsNotPaid | web/src/app/api/widget/click/route.ts:40-47 | with an unknown token only the viewer credit reaches the wallets |
| WidgetClick.MissingViewerCreditsEveryWallet | web/src/app/api/widget/click/route.ts:28-33 | with no `userId` the filter is dropped: every wallet gains 3 cents and the event has no viewer |
| WidgetClick.MissingPromotionDecrementsEvery | web/src/app/api/widget/click/route.ts:50-105 | with no `promotion_id` every promotion loses one impression, and the event and ledger rows carry the serial columns' sequence values |
| WidgetClick.MalformedPromotionIdKeepsCredits | web/src/app/api/widget/click/route.ts:24-55 | a `promotion_id` neither numeric nor absent answers 500 after both credits, with nothing else written |
| WidgetClick.UnknownHostPaymentAddressesFirstWallet | web/src/app/api/widget/click/route.ts:95-100 | with an unknown token the host payment's target is the first wallet in table order (the model's reading of an unordered `findFirst`) |
| WidgetClick.LateFailureKeepsEarlierWrites | web/src/app/api/widget/click/route.ts:24-115 | a failing event insert answers 500 but keeps the credits and the decrement already made |
| WidgetClick.ClickKeepsConsistency | web/migrations/1761210486592_init-db.js:206-236 | a click never breaks a key, `balance >= 0` or `amount > 0` |
| SqlText.QuoteCount | web/src/controller/GetAiRecommendations.tsx:118 | the count is zero exactly when the string has no quote |
| SqlText.Escape | web/src/controller/GetAiRecommendations.tsx:118 | escaping adds one character per quote |
| SqlText.EscapeIdentity | web/src/controller/GetAiRecommendations.tsx:118 | escaping changes a string exactly when it contains a quote |
| SqlText.EscapeAll | web/src/controller/GetAiRecommendations.tsx:119 | each interest is escaped in place, order kept |
| SqlText.EscapeRoundTrip | web/src/controller/GetAiRecommendations.tsx:118 | un-doubling the quotes of an escaped string gives the input back |
| SqlText.ElementsRoundTrip | web/src/controller/GetAiRecommendations.tsx:119-121 | the escaped, joined elements read back as the original list |
| SqlText.ArrayLiteralRoundTrip | web/src/controller/GetAiRecommendations.tsx:119-121 | the database reads the built `ARRAY[...]` literal as exactly the non-empty interest list, in order |
| SqlText.ParseArrayLiteral | web/src/controller/GetAiRecommendations.tsx:119-121 | a parse has at least one element and comes from text framed by `ARRAY['` and `']::text[]` |
| SqlText.ArrayLiteral | web/src/controller/GetAiRecommendations.tsx:119-121 | the literal built from the interests; `ArrayLiteralRoundTrip` states that the database reads it back |
| SqlText.EmptyListLiteral | web/src/controller/GetAiRecommendations.tsx:119-121 | an empty list builds `ARRAY['']`, which reads as one empty interest |
| Recommendation.OrNull | web/src/controller/GetAiRecommendations.tsx:73-76 | `s \|\| null`: null exactly for the empty string |
| Recommendation.FromPromotion | web/src/controller/GetAiRecommendations.tsx:69-77 | ORM row mapping: image, summary and category are null exactly when empty and otherwise copied; id, title, url and tags are copied |
| Recommendation.FromRaw | web/src/controller/GetAiRecommendations.tsx:213-222 | raw row mapping: only NULL becomes a default (`""`, `[]`, null); an empty image is kept |
| Recommendation.BestIndex | web/src/controller/GetAiRecommendations.tsx:196-203 | the `ORDER BY ... LIMIT 1` row: no row sorts before it, ties go to table order |
| Recommendation.FirstActive | web/src/controller/GetAiRecommendations.tsx:54-65 | the first active promotion, or none exactly when none is active |
| Recommendation.ActivePromotions | web/src/controller/GetAiRecommendations.tsx:90-92 | exactly the active promotions |
| Recommendation.TopBoostedIsMaximal | web/src/controller/GetAiRecommendations.tsx:90-102 | the pick is active with the highest boost; none only when nothing is active |
| Recommendation.Candidates | web/src/controller/GetAiRecommendations.tsx:199-201 | exactly the active rows matching an interest by category or by tag |
| Recommendation.Mismatch | web/src/controller/GetAiRecommendations.tsx:198 | 0 exactly for a category match, else 1 |
| Recommendation.FallbackRanking | web/src/controller/GetAiRecommendations.tsx:196-211 | the fallback returns a candidate or null; category matches rank first, then higher boost |
| Recommendation.PreferenceOf | web/src/controller/GetAiRecommendations.tsx:83-85 | the user's preferences row, or none exactly when no row has that user |
| Recommendation.VisitorGetsActivePromotion | web/src/controller/GetAiRecommendations.tsx:52-80 | `ROBINHOOD` gets an active promotion, or null exactly when none is active; preferences and raw rows play no part |
| Recommendation.NoInterestsGetsTopBoost | web/src/controller/GetAiRecommendations.tsx:87-115 | no interests gives an active promotion of maximal boost, or null when none is active |
| Recommendation.EmbeddingFailuresFallThrough | web/src/controller/GetAiRecommendations.tsx:128-191 | for a user with interests: a missing key or endpoint, a failed or non-OK request, an absent or empty vector, no distance, a failing query or no matching row makes the tier yield nothing, and the chain answers exactly the fallback's answer |
| Recommendation.Recommend | web/src/controller/GetAiRecommendations.tsx:40-223 | only the fallback tier can throw: an error comes from a user with interests and is the fallback's answer |
| Recommendation.EmbeddingTier | web/src/controller/GetAiRecommendations.tsx:128-191 | a recommendation only with both settings, an answered non-empty vector, a distance and a readable table, and it is one of the table's rows |
| Recommendation.FallbackAnswer | web/src/controller/GetAiRecommendations.tsx:193-222 | the fallback's error is thrown on; its row, if any, is mapped by `FromRaw` |
| Recommendation.RawQuery | web/src/controller/GetAiRecommendations.tsx:155-170 | fails exactly on a missing column or an unreadable literal; otherwise none exactly when no row is a candidate, else a candidate row of the table |
| Recommendation.FallbackQuery | web/src/controller/GetAiRecommendations.tsx:194-211 | the missing-column error without the columns; a returned row is one of the table |
| Recommendation.TopBoosted | web/src/controller/GetAiRecommendations.tsx:90-102 | an active promotion of the table, none exactly when none is active |
| Recommendation.MissingColumnsThrow | web/src/controller/GetAiRecommendations.tsx:196-209 | against the migration's table a user with interests gets the missing-column error |
| Recommendation.InterestResultsMatch | web/src/controller/GetAiRecommendations.tsx:157-222 | with interests, any result is an active row matching them by category or tag |
| PublishQueue.Step | web/src/app/api/bloc/queue/route.ts:11-48 | POST: 400 and unchanged iff a field is falsy, else append. GET: unchanged; the head item in the body iff the queue is non-empty. DELETE: remove the head. Every status is 200 or 400 |
| PublishQueue.StepReplies | web/src/app/api/bloc/queue/route.ts:11-48 | the bodies: "Missing parameters" or "Item added to queue" for POST, "Queue is empty" on an empty queue, the head `q[0]` for GET, "Item removed from queue" for DELETE |
| PublishQueue.Queue.constructor | web/src/app/api/bloc/queue/route.ts:9 | the queue starts empty |
| PublishQueue.Queue.HandlePost | web/src/app/api/bloc/queue/route.ts:11-22 | the array and the response are those of `Step` on POST |
| PublishQueue.Queue.HandleGet | web/src/app/api/bloc/queue/route.ts:24-33 | status 200, with the head item, or "Queue is empty" when empty; the array is not modified |
| PublishQueue.Queue.HandleDelete | web/src/app/api/bloc/queue/route.ts:35-48 | the array and the response are those of `Step` on DELETE |
| PublishQueue.Run | web/src/app/api/bloc/queue/route.ts:9-48 | a sequence of requests against the module-level array: its final queue and the items removed, in order; `RunIsFifo` and `RunAppend` state its properties |
| PublishQueue.Accepted | web/src/app/api/bloc/queue/route.ts:14-20 | the accepted POST items, in order; none is incomplete |
| PublishQueue.RunIsFifo | web/src/app/api/bloc/queue/route.ts:20-43 | over any run, the removed items followed by the remaining queue equal the initial queue followed by the accepted items |
| PublishQueue.RejectedPostIsInvisible | web/src/app/api/bloc/queue/route.ts:14-18 | a rejected POST changes nothing for the rest of a run |
| PublishQueue.DrainInOrder | web/src/app/api/bloc/queue/route.ts:20-47 | pushing `xs` and deleting `\|xs\|` times removes exactly `xs`, in order |
| PublishQueue.RunAppend | web/src/app/api/bloc/queue/route.ts:9-48 | a run of requests split in two is the second part run on the queue the first part leaves; the removed items concatenate |
| Chunking.GroupCount | microservices/classifier/utils.py:22 | the number of `range(0, n, size)` steps: ceil(n / size) |
| Chunking.Groups | microservices/classifier/utils.py:22 | ceil(n / size) groups, each of 1 to `size` words |
| Chunking.GroupsFlatten | microservices/classifier/utils.py:22 | the groups concatenate back to the word list |
| Chunking.GroupsAt | microservices/classifier/utils.py:22 | group `k` is `words[k*size : k*size+size]` |
| Chunking.ChunkText | microservices/classifier/utils.py:18-22 | at most `max_words` words gives `[text]` unchanged; a zero step raises; a negative one gives `[]` |
| Chunking.ChunkTextSplits | microservices/classifier/utils.py:22 | ceil(n / max_words) chunks of 1 to `max_words` words whose words, in order, are the text's words |
| Chunking.Window | microservices/classifier/utils.py:32-33 | window `k` starts at `k*step` and holds 1 to `size` items |
| Chunking.LastWindowReachesEnd | microservices/classifier/utils.py:35-37 | with `1 <= step <= size` the last window ends at the final word |
| Chunking.WindowsCover | microservices/classifier/utils.py:31-37 | with `1 <= step <= size` every word lies in some window |
| Chunking.ChunkTextOverlap | microservices/classifier/utils.py:25-38 | a short text gives `[text]`; otherwise the loop terminates and chunk `k` is the joined window starting at `k*(chunk_size - overlap)` |
| Chunking.OverlapChunkWords | microservices/classifier/utils.py:33 | an overlapping chunk holds at most `chunk_size` words, exactly its window's |
| Chunking.PyPrefix | microservices/classifier/utils.py:45 | Python `xs[:m]` for either sign of `m` |
| Chunking.ChunkTokens | microservices/classifier/utils.py:41-59 | a short input gives one chunk of the first `max_length` tokens; otherwise chunk `k` is its window cut to `max_length` |
| Chunking.TokenChunkBound | microservices/classifier/utils.py:50-53 | a token chunk is a prefix of its window, of at most `min(chunk_size, max_length)` tokens |
| Training.LexTotal | microservices/classifier/train.py:48 | the string order is total |
| Training.LexTransitive | microservices/classifier/train.py:48 | the string order is transitive |
| Training.Insert | microservices/classifier/train.py:48 | insertion keeps the list strictly increasing and adds exactly the new value |
| Training.SortedClasses | microservices/classifier/train.py:48 | `sorted(set(labels))` is strictly increasing, with exactly the labels as elements |
| Training.IndexIn | microservices/classifier/train.py:49 | the position of a class in `classes` |
| Training.InvertIndex | microservices/classifier/train.py:50 | `idx2label` inverts `label2idx` in both directions |
| Training.PrepareLabelsCorrect | microservices/classifier/train.py:48-51 | classes sorted and distinct; `label2idx[classes[i]] = i`; `idx2label` its inverse; each `y[i]` a valid index that decodes to `labels[i]` |
| Training.PrepareLabels | microservices/classifier/train.py:48-51 | the encoding of the labels; `PrepareLabelsCorrect` states its properties |
| Training.DropMissing | microservices/classifier/train.py:33-35 | keeps exactly the rows with both text and label present, each as often as it occurs |
| Training.DropMissingAppend | microservices/classifier/train.py:33-35 | the filter of a concatenation is the concatenation of the filters, so row order is kept |
| Training.Labels | microservices/classifier/train.py:79 | the label column, row by row |
| Training.FilterFrequent | microservices/classifier/train.py:77 | keeps exactly the rows whose label count is at least 2 |
| Training.FilterFrequentCounts | microservices/classifier/train.py:77 | every copy of a row with a frequent label is kept, and no copy of another row |
| Training.FilterFrequentAppend | microservices/classifier/train.py:77 | the filter of a concatenation is the concatenation of the filters, so row order is kept |
| Training.KeepFrequent | microservices/classifier/train.py:71-77 | the filter applied with the counts of the samples' own labels; `KeepFrequentCorrect` states what it keeps |
| Training.DroppedClasses | microservices/classifier/train.py:71-73 | the dropped classes are the labels seen fewer than 2 times |
| Training.KeepFrequentCorrect | microservices/classifier/train.py:71-77 | the filter keeps exactly rows of labels seen twice or more; each dropped class was seen exactly once; no kept row has a dropped class |
| Training.FitBatches | microservices/classifier/train.py:99-109 | the loop yields ceil(n / batch_size) batches `[k*b, min(n, k*b+b))`; `classes=` is passed on the first only |
| Training.StartMonotone | microservices/classifier/train.py:102 | batch starts never decrease |
| Training.BatchesTile | microservices/classifier/train.py:99-109 | every row index lies in exactly one batch, and only the first batch passes `classes` |
| AuthValidation.ValidatePassword | web/src/lib/validation/auth.ts:14-46 | never returns false: true exactly when length is 8 to 24 with an uppercase, a lowercase, a digit and a special character; otherwise it throws |
| AuthValidation.FirstBroken | web/src/lib/validation/auth.ts:14-46 | reference reading of the rules: success iff all hold, else the message of a broken rule |
| AuthValidation.FirstBrokenIsEarliest | web/src/lib/validation/auth.ts:14-44 | the earliest broken rule decides the message |
| AuthValidation.PasswordFollowsRules | web/src/lib/validation/auth.ts:14-46 | `ValidatePassword` equals the six rules read in order |
| AuthValidation.PasswordReportsFirstBrokenRule | web/src/lib/validation/auth.ts:24-44 | the error reported is that of the first failing check |
| AuthValidation.SearchFrom | web/src/lib/validation/auth.ts:54 | an unanchored regex test: true iff some substring fully matches |
| AuthValidation.ValidateEmail | web/src/lib/validation/auth.ts:49-58 | an empty email throws the empty error; otherwise true iff a substring matches, else the format error |
| AuthValidation.UnanchoredEmail | web/src/lib/validation/auth.ts:4 | without `^`/`$` anchors, a matching address inside any text is accepted |
| WebsiteValidation.ValidateDomain | web/src/lib/validation/validate_website.tsx:1-4 | acceptance implies the `https://` prefix and at least 3 more characters |
| WebsiteValidation.DomainGrammar | web/src/lib/validation/validate_website.tsx:2 | true iff the string is `https://` followed by two or more dot-separated `[a-zA-Z0-9-]+` labels |
| WebsiteValidation.RejectsForeignCharacter | web/src/lib/validation/validate_website.tsx:2 | a port, path, slash or any other character outside labels and dots is rejected |
| WebsiteValidation.RejectsSingleLabel | web/src/lib/validation/validate_website.tsx:2 | a host with no dot is rejected |
| WebsiteValidation.RejectsOtherScheme | web/src/lib/validation/validate_website.tsx:2 | any other scheme, `http://` included, is rejected |
| WebsiteValidation.ValidateRssUrl | web/src/lib/validation/validate_website.tsx:6-22 | false if either URL fails to parse; true only for an `https:` feed on the site's hostname |
| WebsiteValidation.SiteProtocolIgnored | web/src/lib/validation/validate_website.tsx:12-16 | any `https:` feed on the same hostname is accepted, whatever the site's protocol or the feed's path |
| WebsiteValidation.IsValidRssFeed | web/src/lib/validation/validate_website.tsx:24-35 | false on a thrown fetch or non-OK status; otherwise true iff the body contains `<rss` or `<feed` |
| Text.Strip | microservices/scraper/scraper_mod.py:148 | `str.strip`: the result sits inside the input, everything cut before and after it is whitespace, and it has no whitespace at either end |
| Text.Words | microservices/classifier/utils.py:19 | `str.split()`: non-empty words without whitespace whose concatenation is the input with its whitespace removed, in order; `WordsAtWhitespace` and `WordsOfWord` fix where the words split |
| Text.WordsAtWhitespace | microservices/classifier/utils.py:19 | a whitespace character splits: the words of `a + [c] + b` are those of `a` followed by those of `b` |
| Text.WordsOfWord | microservices/classifier/utils.py:19 | a non-empty run without whitespace is a single word; with `WordsAtWhitespace` this fixes the words of every text |
| Text.ReplaceFirst | web/src/app/api/dashboard/website/verify/route.ts:13-15 | `replace` with a string pattern: unchanged when the pattern does not occur; otherwise only its first occurrence is replaced by `rep` |
| Text.NonEmptyAppend | microservices/scraper/scraper_mod.py:149 | the empty-line filter of a concatenation is the concatenation of the filters, so order is kept |
| Text.SplitAtSeparator | microservices/scraper/scraper_mod.py:148 | splitting `a + sep + b` gives the parts of `a` followed by the parts of `b` |
| Text.ConcatSplit | microservices/classifier/utils.py:19 | the parts of a split, glued together, are the input without its separators |
| Scraper.HasVerification | microservices/scraper/scraper_mod.py:99-109 | true iff a page is given and its verification meta's content equals the code |
| Scraper.TitleImage | microservices/scraper/scraper_mod.py:198-239 | `''` without a page; otherwise the result is stripped |
| Scraper.FirstImage | microservices/scraper/scraper_mod.py:212-239 | the raw attribute of the first filled candidate, or `''`; `FirstImagePriority` states the order |
| Scraper.FirstImagePriority | microservices/scraper/scraper_mod.py:212-236 | the first filled candidate among og:image, twitter:image, image_src and the body image gives the raw value |
| Scraper.TitleImagePriority | microservices/scraper/scraper_mod.py:212-236 | the first non-empty candidate among og:image, twitter:image, image_src and the first body img wins, stripped |
| Scraper.NoImageCandidate | microservices/scraper/scraper_mod.py:238-239 | no filled candidate gives `''` |
| Scraper.MainContent | microservices/scraper/scraper_mod.py:138 | `article`, else `main`, else `body`; none only when all three are absent |
| Scraper.CleanLines | microservices/scraper/scraper_mod.py:148-149 | every kept line is non-empty, stripped and free of line breaks; `CleanLinesAtBreak` and `CleanLinesSingle` fix the lines of every text |
| Scraper.CleanLinesAtBreak | microservices/scraper/scraper_mod.py:148-149 | for any `splitlines` break `c` (`\n`, `\r`, `\x0b`, `\x0c`, `\x1c`-`\x1e`, `\x85`, U+2028, U+2029), the lines of `a + [c] + b` are the lines of `a` followed by those of `b`; with `CleanLinesSingle` this fixes the result for every text |
| Scraper.CleanLinesSingle | microservices/scraper/scraper_mod.py:148-149 | a text without a line break gives its stripped self, or no line when that is empty |
| Scraper.NormalizeLines | microservices/scraper/scraper_mod.py:148-149 | the clean lines joined with `\n`; `OutputLines` and `NormalizeIdempotent` state its properties |
| Scraper.ScrapeText | microservices/scraper/scraper_mod.py:121-141 | no page or no main content gives `''` |
| Scraper.OutputLines | microservices/scraper/scraper_mod.py:149 | the cleaned text's lines are exactly the clean lines, in order |
| Scraper.CleanLinesFixed | microservices/scraper/scraper_mod.py:148-149 | clean lines pass through the filter unchanged and in order |
| Scraper.NormalizeIdempotent | microservices/scraper/scraper_mod.py:148-149 | normalising the cleaned text again changes nothing |
| Controllers.VerifyWebsite | web/src/controller/VerifyWebsite.tsx:11-28 | an empty token throws "required"; no matching website throws "invalid"; success returns a website with that token; no table is written |
| Controllers.VerifiedWebsiteIsUnique | web/src/controller/VerifyWebsite.tsx:16-20 | under the unique key, the website returned is the only one with the token |
| Controllers.TouchingWallet | web/src/controller/ViewWallet.tsx:21-27 | the transactions entering or leaving the wallet, and only those |
| Controllers.InsertByDateSorted | web/src/controller/ViewWallet.tsx:28-30 | inserting by date keeps a newest-first list newest-first |
| Controllers.ByDateDescSorts | web/src/controller/ViewWallet.tsx:28-30 | the ordering is newest first and a permutation of its input |
| Controllers.ByDateDesc | web/src/controller/ViewWallet.tsx:28-30 | keeps the number of rows; `ByDateDescSorts` states the order and the permutation |
| Controllers.History | web/src/controller/ViewWallet.tsx:21-32 | the first `min(n, 20)` rows of the wallet's transactions sorted newest first |
| Controllers.WalletView | web/src/controller/ViewWallet.tsx:4-40 | throws "Wallet not found" exactly when the user has no wallet |
| Controllers.HistoryShape | web/src/controller/ViewWallet.tsx:21-32 | at most 20 of the wallet's transactions, newest first; all of them when there are no more than 20 |
| Controllers.HistoryIsMostRecent | web/src/controller/ViewWallet.tsx:28-31 | no transaction left out is newer than any shown |
| Controllers.WalletViewBalance | web/src/controller/ViewWallet.tsx:6-15 | the balance shown is that of the user's first wallet |
| Controllers.Synced | web/src/controller/syncUserProfileOnFirstLogin.tsx:5-23 | a null or empty id, or an existing user, changes nothing; otherwise exactly one `viewer` row is added |
| Controllers.SyncIdempotent | web/src/controller/syncUserProfileOnFirstLogin.tsx:9-22 | syncing twice equals syncing once |
| Controllers.SyncKeepsUserKey | web/src/controller/syncUserProfileOnFirstLogin.tsx:10-21 | the sync keeps user ids unique |
| Controllers.SyncUserProfileOnFirstLogin | web/src/controller/syncUserProfileOnFirstLogin.tsx:5-23 | the store ends in the state `Synced` describes |
| Controllers.ParseStatus | web/src/controller/CreatePromotion.tsx:39 | only the three `promotion_status` spellings are accepted |
| Controllers.CreatePromotion | web/src/controller/CreatePromotion.tsx:12-44 | not owning the content throws "Forbidden: ..." and inserts nothing; success inserts exactly the returned record, with the given id and budget |
| Controllers.CreatedStatus | web/src/controller/CreatePromotion.tsx:39 | a falsy status is stored as `active`; a valid one as given; any other value is refused |
| Controllers.HandleCreatePromotion | web/src/controller/CreatePromotion.tsx:12-44 | the result and the new store are those of `CreatePromotion` |
| Controllers.PromotionsOf | web/src/controller/GetArticlesByWebsite.ts:29-35 | each promotion row of that content item appears projected to `status`, `budget`, `credits_spent`, and nothing else appears |
| Controllers.PromotionsOfAppend | web/src/controller/GetArticlesByWebsite.ts:29-35 | the projection of a concatenation is the concatenation of the projections, so table order is kept |
| Controllers.ItemsOf | web/src/controller/GetArticlesByWebsite.ts:22-25 | the rows with that `website_id`, and only those |
| Controllers.ItemsOfAppend | web/src/controller/GetArticlesByWebsite.ts:22-25 | the filter of a concatenation is the concatenation of the filters, so every copy of a row is kept, in table order |
| Controllers.ArticlesByWebsite | web/src/controller/GetArticlesByWebsite.ts:4-47 | throws "Forbidden: ..." iff the caller does not own the website; otherwise one article per item, in order, with the id, title and projected promotions |
| Controllers.ArticlesBelongToWebsite | web/src/controller/GetArticlesByWebsite.ts:22-44 | every listed article is a content item of the requested website |
| Routes.FirstOwnedSite | web/src/app/api/dashboard/website/verify/route.ts:30-33 | the first website of the user with that domain, where an undefined domain drops its condition; none exactly when no row matches |
| Routes.VerifyDecision | web/src/app/api/dashboard/website/verify/route.ts:13-51 | only the update step names a row that exists |
| Routes.VerifySite | web/src/app/api/dashboard/website/verify/route.ts:7-78 | the handler as written never changes a table and answers only 200, 400, 401, 404 or 500 |
| Routes.VerifySiteIntended | web/src/app/api/dashboard/website/verify/route.ts:53-58 | with the update applied, anything but 200 leaves the tables unchanged |
| Routes.VerifyNeedsSession | web/src/app/api/dashboard/website/verify/route.ts:17-28 | a missing bearer token or an unknown session answers 401 and changes nothing |
| Routes.BearerPrefixRemoved | web/src/app/api/dashboard/website/verify/route.ts:13-15 | `Bearer <token>` yields the token |
| Routes.SessionToken | web/src/app/api/dashboard/website/verify/route.ts:13-15 | none without the header; a leading `Bearer ` is cut; a header without `Bearer ` is kept whole |
| Routes.VerifyLookupBeforeDomainCheck | web/src/app/api/dashboard/website/verify/route.ts:30-40 | no owned match gives 404 even with the domain missing; the missing-domain 400 comes only after a match |
| Routes.VerifyRejectsWrongToken | web/src/app/api/dashboard/website/verify/route.ts:43-51 | an absent, empty or different meta token gives 400 and no change |
| Routes.MatchingTokenFailsAsWritten | web/src/app/api/dashboard/website/verify/route.ts:53-58 | as written, a matching token answers 500 and the site stays unverified |
| Routes.MatchingTokenVerifies | web/src/app/api/dashboard/website/verify/route.ts:53-58 | as intended, a matching token answers 200 "verified"; that row alone becomes `active` with `verified_at` now |
| Routes.NewSite | web/src/app/api/dashboard/website/new/route.ts:6-45 | a failure answers 409 or 500 and leaves the tables alone; only 200 carries a token |
| Routes.HandleNewSite | web/src/app/api/dashboard/website/new/route.ts:6-45 | the status, token and new store are those of `NewSite` |
| Routes.NewSiteRowAppended | web/src/app/api/dashboard/website/new/route.ts:9-25 | success appends one row, with owner and domain from the body, `inactive`, unverified, token expiring now + 365 days; the response carries that row's token |
| Routes.DuplicateDomainConflicts | web/src/app/api/dashboard/website/new/route.ts:27-38 | a registered domain answers 409 and writes nothing |
| Routes.NewSiteKeepsKeys | web/migrations/1761210486592_init-db.js:85-97 | creation keeps the website id, domain and token unique |
| Routes.KeysClash | web/src/app/api/dashboard/website/new/route.ts:26-38 | a unique key of `websites` (id, domain or token) already taken, the case Prisma reports as `P2002` |
| Routes.Widget | web/src/app/api/widget/route.ts:11-17 | 400 exactly when `hostToken` or `userId` is falsy |
| Routes.WidgetAnswer | web/src/app/api/widget/route.ts:28-47 | a result is answered as is; an error carries its message, with 403 exactly when the message mentions an invalid verification token |
| Routes.RecommendThrowsMissingColumn | web/src/controller/GetAiRecommendations.tsx:196-209 | the only error the chain raises is the missing-column error |
| Routes.WidgetIgnoresHostToken | web/src/app/api/widget/route.ts:21-47 | with both inputs, the reply is a recommendation or 500, never 403, and does not depend on the host token |
| Routes.WidgetAnswersRecommendation | web/src/app/api/widget/route.ts:28-33 | a recommendation, null included, is answered with 200 |
| Routes.Promotions | web/src/app/api/dashboard/promotions/route.ts:5-34 | anything but 201 leaves the tables alone; statuses are 201, 400, 403 or 500 |
| Routes.HandlePromotions | web/src/app/api/dashboard/promotions/route.ts:5-34 | the reply and the new store are those of `Promotions` |
| Routes.PromotionInputRules | web/src/app/api/dashboard/promotions/route.ts:7-15 | unauthenticated gives 500, not 401; bad content id or budget gives 400 without creating; a non-string content id gives 500 |
| Routes.PromotionOwnership | web/src/app/api/dashboard/promotions/route.ts:17-32 | a non-owner gets 403 and no write; an owner with a valid status gets 201 and exactly one new promotion with the given id and budget |
| Routes.BadPromotionInput | web/src/app/api/dashboard/promotions/route.ts:10 | `!content_id \|\| typeof budget !== "number" \|\| budget <= 0` |
| Routes.PromotionErrorStatus | web/src/app/api/dashboard/promotions/route.ts:28-32 | 403 exactly when the message contains "Forbidden", else 500 |

## Left out

- The embedding tier's HTTP request and vector arithmetic: the endpoint's answer and the distance are inputs.
- BeautifulSoup and cheerio parsing and the scraper's tag-removal loops: a page is given by what each lookup finds and by the main element's text.
- HTTP sessions, retries, SHA-256 identifiers and S3 upload in the scraper: I/O.
- The identity provider, `AuthenticateUser` and the session lookup: an oracle from token to user id.
- The tokenizer and `convert_tokens_to_string`: a token sequence and a function.
- Model fitting, calibration, evaluation and persistence in `train.py`, and the classifier service: floating point and foreign libraries. The `partial_fit` calls are modelled only as the batch list handed to them.
- The shuffle and train/test split before the batch loop: randomness. `n` is the size of the training part.
- Concurrency: concurrent clicks, and several server instances each with their own queue. Requests are a single-threaded sequence.
- The click handler reads the body twice: modelled as one parsed body.
- The cron scheduler's timing: the purge is a method run at a given `now`.
- Random uuids, `gen_random_uuid()` and the auto-increment keys: supplied as parameters.
- The uuid, `inet` and `timestamp` input syntax: `inetValid` stands for the `inet` parse; uuids are plain strings.
- String lengths follow code points, not JavaScript's UTF-16 units, for the `varchar(255)`/`varchar(2048)` limits and the password length.
- Amounts are integers: JavaScript fractional `budget` values and `numeric` rounding are not modelled.
- JSON request bodies: only the fields read are modelled. The queue and the click's `promotion_id` use full JSON values. The click's `hostToken` and `userId`, the promotions route's `status`, the verify route's `domain` and the new-website fields are strings or absent. A number, boolean, `null` or object in one of those would reach the truthiness test, the `===` comparison or Prisma's argument validation, and is not modelled.
- Nullable columns: `promotions.remaining_impressions`, `boost`, `created_at` and `updated_at`, and `transactions.created_at`, have defaults but no `NOT NULL` (init-db.js:114-124, 237-240). The model always gives them a value. A NULL `boost` would sort first under `ORDER BY boost DESC`. A NULL count would never trip the inactivation trigger, and a NULL `updated_at` would never be purged. No modelled statement writes NULL there; only rows inserted by other code could hold one. `Recommendation.NoInterestsGetsTopBoost` and `Recommendation.TopBoostedIsMaximal` therefore hold for non-null boosts only.
- The `numeric(10,2)` upper bound of `wallets.balance` and `transactions.amount` (below 10^8, init-db.js:206-210, 236): balances are unbounded integers in the model. A credit that would overflow the column raises in PostgreSQL but succeeds in the model.
- The ORM's and PostgreSQL's error texts are stand-ins (`Controllers.BAD_STATUS`, `Routes.BAD_CONTENT_ID`, `Schema.NO_UPDATED_AT` and the syntax error of a bad array literal). Only their absence of "Forbidden" and of "Invalid verification token" matters to the routes.
- Chunking.ChunkTextOverlap: requires `chunk_size >= 1` and `overlap < chunk_size`. With `overlap >= chunk_size` and more words than `chunk_size` the source's loop never ends, because its step is not positive. With `chunk_size <= 0` and `overlap < chunk_size` the step is positive and the loop ends. Its chunks are then `words[start:end]` with `end <= start`, which is empty or, for a negative `end`, a Python negative-index slice. Those calls are not modelled.
- Chunking.ChunkTokens: the same requires, for the same two cases of the same loop.
- Training.CsvRow: cells are read as already-stringified values (`Option<string>`). `train.py` counts the raw `label` values (line 71) and applies `astype(str)` only afterwards (lines 79-80). The model takes `read_csv` to give the column one type, so that counting before or after the conversion finds the same classes.
- Training.FitBatches: requires `batch_size >= 1`. `range` with step 0 raises, and a negative step yields no batch.
- Controllers.ByDateDesc: rows with equal `created_at` come out in table order. The database does not fix that order.
- Controllers.TouchingWallet: states membership, not multiplicity, of the matching rows.
- Controllers.ItemsOf: `findMany` without `orderBy` (GetArticlesByWebsite.ts:22-25) returns the rows in whatever order the database reads them; the model assumes table order, which `ItemsOfAppend` states.
- Recommendation.RawQuery: ties in `distance`/`mismatch` and boost go to the earlier row. The database does not fix that order.
- The routes that only authenticate and forward one query, the UI pages, the recommendation loader script, and the preference and profile PUT handlers: not part of this model.

## Behaviour of the code as written

- The raw recommendation queries select `id` and filter on `active` (GetAiRecommendations.tsx:158-161, 197-200). The migration's `promotions` has `promotion_id` and a `status` enum instead. So for any user with interests the embedding tier swallows the error, and the fallback throws (`Recommendation.MissingColumnsThrow`). The widget then answers 500 (`Routes.WidgetIgnoresHostToken`).
- The doc comment of `getAiRecommendations` says results are limited to 10 rows. `LIMIT` is 1 (GetAiRecommendations.tsx:37, 49). The model returns at most one row.
- `transactions` gets an `updated_at` trigger but has no such column (init-db.js:219-242, 293-298). No modelled code updates a transaction, so the model has no function for that trigger; any update of a transactions row would raise, as `Schema.WebsiteUpdated` shows for `websites`.
- `users_update_trigger` (init-db.js:307-312) stamps `updated_at`; no modelled code updates a user, so it has no function in the model.
- `content_items` and the promotions' `content_id`/`credits_spent` columns are used by the controllers (CreatePromotion.tsx:19, GetArticlesByWebsite.ts:22, 33). The migration never creates them. The model keeps them as the separate tables `contentItems` and `contentPromotions`.
- The recommendation loader reads a `site-verification` meta tag. The server checks `credx-verification` (verify/route.ts:44).
- An `undefined` `userId` in a click drops the wallet filter: every wallet is credited (`WidgetClick.MissingViewerCreditsEveryWallet`). An unknown host token records a host payment addressed to `findFirst({ where: { user_id: undefined } })`. That query has neither a filter nor an `orderBy`, so PostgreSQL may return any wallet. The model assumes table order, which makes it the first wallet (`WidgetClick.UnknownHostPaymentAddressesFirstWallet`).
- An absent `promotion_id` in a click drops the decrement's filter: every promotion spends one impression. The event and both ledger rows then take their `serial` columns' sequence values as promotion id (`WidgetClick.MissingPromotionDecrementsEvery`). The insert then fails unless that value happens to name a promotion. A `promotion_id` that is neither a number nor absent fails Prisma's validation at the decrement, after both credits (`WidgetClick.MalformedPromotionIdKeepsCredits`).
- `events.promoted_content_id` and `transactions.content_id` are `serial`, so NOT NULL, yet their foreign keys say `ON DELETE SET NULL` (init-db.js:149-153, 221-225). The daily purge (init-db.js:351-353) therefore fails as a whole once an event or a transaction refers to a purgeable promotion (`Database.PurgeAccepted`). Such a promotion stays purgeable, so every later run fails too (`Database.PurgeStaysBlocked`). Any clicked promotion that goes inactive and stays untouched for 30 days causes this.
- The promotions route maps an authentication failure to 500 rather than 401 (`Routes.PromotionInputRules`).

## Findings

| source | as written | input that shows it | evidently intended | confidence | as-written member | corrected member |
|---|---|---|---|---|---|---|
| web/migrations/1761210486592_init-db.js:300-305 | `websites_update_trigger` runs `update_updated_at`, which assigns `NEW.updated_at`; `websites` (lines 72-104) has no such column, so every UPDATE of a website raises and the verify route answers 500 on a matching token | an owner of `https://a.b` whose page carries the stored token posts `{ domain: "https://a.b" }` to the verify route | the update applies and the route answers 200 "verified" with the site `active` | not executed | Routes.MatchingTokenFailsAsWritten | Routes.MatchingTokenVerifies |
