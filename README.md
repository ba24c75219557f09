# game-service core, modelled in Dafny

This project models the core of the game service: a gRPC service that
answers game queries from its own PostgreSQL store. When the store has no
answer, it falls back to the IGDB games API. The parts modelled:

- **The provider client** (`IGDBManager`):
  - the OAuth token cache in `Authenticate`, with its five-minute expiry buffer;
  - the four request bodies it sends, in IGDB's query language;
  - `ParseGamesResponse`, which maps the provider's JSON reply to `GameInfo` records permissively, element by element.
- **The JSON field extraction** (`JsonParser::ExtractField` and its three users) over an abstract nlohmann value. The model covers nlohmann's conversion rules (`get<std::uint32_t>`, `get<std::string>`, ...).
- **The tools**:
  - the line loop of `LoadEnv`;
  - `TimestampToString`, against a reference proleptic Gregorian calendar;
  - `ForceOriginalQuality`, the regular-expression rewrite of IGDB image URLs.
- **The service**, as a lookaside cache:
  - the store is read first;
  - an empty answer asks the provider and writes each record back;
  - a store exception is CANCELLED;
  - an empty search query is INVALID_ARGUMENT.

  The handler in the repository is a stub. The behaviour modelled is the one the service tests pin down.

The models come in three forms:

- **Classes with `modifies` clauses**, where the source updates state: `IgdbClient.Client` for the token cache and the requests sent, `Repository.Store`, and `GameService.Service`.
- **Methods with loop invariants, proved equal to specification functions**, where the source loops: `ParseGamesResponse` and its inner loops, and `LoadEnv`.
- **Functions and lemmas**, where the source computes a value.

Environment and I/O are parameters:

- the wall clock is `now`;
- the parsed reply of the token endpoint is `grant`;
- the HTTPS round trip is `transport`;
- the SQL selection of each read query is `answer`;
- whether the store throws on a rating update is `rejects`;
- the provider seen by the service is `provider`.

The source's integer widths are written out: `expires_in - 300` wraps in
`std::uint32_t`, hype counts of 2^31 and more turn negative in an `int32`
field, and `get<std::uint32_t>` wraps out-of-range numbers.

## Model

| member | source | states |
|---|---|---|
| Json.AsString | include/parser/json_parser.hpp:35 | `get<std::string>` succeeds exactly on a string, and gives that string |
| Json.AsBool | tests/json_parser_test.cpp:94-102 | `get<bool>` succeeds exactly on a boolean, and gives its value |
| Json.AsUint32 | src/managers/igdb_manager.cpp:90 | `get<std::uint32_t>` succeeds exactly on a number or a boolean; the result is below 2^32 and equals any integer already in range |
| Json.AsInt64 | src/managers/igdb_manager.cpp:320 | `get<time_t>` succeeds exactly on a number (not on a boolean); an in-range integer is kept |
| Json.AsDouble | src/managers/igdb_manager.cpp:308 | `get<double>` succeeds exactly on a number; a floating value is kept |
| Json.Truncate | src/managers/igdb_manager.cpp:90 | a floating value converted to an integer is truncated toward zero: between 0 and x, less than 1 away |
| Json.WrapUint32 | src/managers/igdb_manager.cpp:93 | conversion to `std::uint32_t` gives a value below 2^32 that is congruent to the input modulo 2^32 |
| Json.WrapInt64 | src/managers/igdb_manager.cpp:320 | conversion to a 64-bit `time_t` stays in range and keeps in-range values |
| JsonParser.ExtractField | include/parser/json_parser.hpp:26-43 | a value exactly when the text parsed, the top-level object has the field, and the field converts; the value is the converted member; otherwise nullopt |
| JsonParser.ExtractAccessToken | src/parser/json_parser.cpp:5-9 | a token exactly when the parsed object has a string `access_token`, and then that very string |
| JsonParser.ExtractTokenType | src/parser/json_parser.cpp:11-15 | a token type exactly when the parsed object has a string `token_type`, and then that very string |
| JsonParser.ExtractExpiresIn | src/parser/json_parser.cpp:17-21 | a lifetime exactly when `expires_in` is a number or a boolean (strings, null and containers give nullopt); it is below 2^32, and an in-range integer such as 3600 is returned unchanged |
| JsonParser.ExtractStoredField | include/parser/json_parser.hpp:34-35 | a member stored at the top level is found again and converted |
| JsonParser.NestedKeyNotFound | tests/json_parser_test.cpp:104-110 | a key that exists only inside a nested object is not found |
| JsonParser.ParserExamples | tests/json_parser_test.cpp:26-102 | the cases of the parser's unit tests: success, missing field, malformed text, wrong types, custom type |
| Decimal.NatToDecimal | src/managers/igdb_manager.cpp:289-290 | `std::to_string` of an unsigned value: non-empty decimal digits, with a leading zero only for zero |
| Decimal.NatRoundTrip | src/managers/igdb_manager.cpp:289-290 | the decimal text of n reads back as n |
| Decimal.IntToDecimal | src/managers/igdb_manager.cpp:177 | fmt's rendering of an integer: non-empty, with a leading '-' exactly for negative values |
| Decimal.IntRoundTrip | src/managers/igdb_manager.cpp:177 | the rendering of any integer parses back to that integer |
| Decimal.IntToDecimalInjective | src/managers/igdb_manager.cpp:118 | distinct integers render to distinct texts |
| GameEntities.ToInt32 | src/managers/igdb_manager.cpp:314 | a `std::uint32_t` stored in an `int32` field: values below 2^31 are kept, larger ones become negative by 2^32 |
| Utils.FindFirst | src/tools/utils.cpp:37 | `find('=')`: the first position of the character, with no earlier occurrence, or npos exactly when it is absent |
| Utils.ParseLine | src/tools/utils.cpp:35-44 | a line is skipped exactly when it is empty, starts with '#' or has no '='; otherwise key + "=" + value is the line and the key has no '=' |
| Utils.LoadEnvLines | src/tools/utils.cpp:32-46 | the getline loop builds exactly the map of the lines' assignments |
| Utils.DefinedIffAssigned | src/tools/utils.cpp:43 | a key is in the map exactly when some line assigns it |
| Utils.LastAssignmentWins | src/tools/utils.cpp:43 | a key's value comes from the last line that assigns it |
| Utils.CivilFromDays | src/tools/utils.cpp:123 | the broken-down UTC date of a day count: a valid date from 1970 on, falling on exactly that day |
| Utils.FromYear | src/tools/utils.cpp:123 | walking the years from y consumes exactly the given days |
| Utils.FromMonth | src/tools/utils.cpp:123 | walking the months of a year consumes exactly the given days |
| Utils.YearStep | src/tools/utils.cpp:123 | the first day of the next year comes one year length later (leap years by the 4/100/400 rule) |
| Utils.LeapStep | src/tools/utils.cpp:123 | the count of leap years grows by one exactly at a leap year |
| Utils.DaysBeforeYearMonotonic | src/tools/utils.cpp:123 | later years start at least 365 days per year later |
| Utils.DayWithinYear | src/tools/utils.cpp:123 | every date lies between the first day of its year and the first day of the next |
| Utils.DaysOfInjective | src/tools/utils.cpp:123 | distinct valid dates fall on distinct days |
| Utils.OneYearPerDay | src/tools/utils.cpp:123 | a day lies in only one year |
| Utils.DayOfYearInjective | src/tools/utils.cpp:123 | within a year, distinct dates have distinct offsets |
| Utils.CivilRoundTrip | src/tools/utils.cpp:123 | the day-count-to-date conversion inverts date-to-day-count for every date from 1970 on |
| Utils.Pad2 | src/tools/utils.cpp:125 | `%m` and `%d`: two digits whose value is the number |
| Utils.TimestampToString | src/tools/utils.cpp:118-127 | "N/A" for a non-positive timestamp; otherwise a text of at least ten characters |
| Utils.YearBeforeTenThousand | src/tools/utils.cpp:124 | before 10000-01-01 the year has at most four digits, so it fits the 11-byte buffer |
| Utils.TimestampNamesItsDay | src/tools/utils.cpp:118-127 | for 0 < t < 10000-01-01 the text is exactly YYYY-MM-DD and names the valid date of t's UTC day |
| Utils.WordRun | src/tools/utils.cpp:131 | the longest leading run of `[a-zA-Z0-9_]` characters |
| Utils.SizeTokenLength | src/tools/utils.cpp:131 | a match of `/t_[a-zA-Z0-9_]+/` at the start is at least five characters and starts and ends with '/' |
| Utils.NoSizeTokenUnchanged | src/tools/utils.cpp:129-133 | a URL with no size token is returned unchanged |
| Utils.ForceOriginalQuality | src/tools/utils.cpp:129-133 | the rewrite of an image URL is empty exactly when the URL is, and keeps its first character (a size token starts and is replaced with '/') |
| Utils.CopiesNonSlash | src/tools/utils.cpp:132 | a character other than '/' is copied |
| Utils.CopiesWordRun | src/tools/utils.cpp:132 | a run of word characters is copied unchanged |
| Utils.OriginalTokenFixed | src/tools/utils.cpp:132 | "/t_original/" is rewritten to itself |
| Utils.SizeTokenReplaced | src/tools/utils.cpp:132 | a size token at the start becomes "/t_original/" and the rest is rewritten |
| Utils.ForceOriginalQualityIdempotent | src/tools/utils.cpp:129-133 | rewriting twice gives the same URL as rewriting once |
| Utils.RewritesOneToken | src/tools/utils.cpp:129-133 | in host + size token + file name, only the token changes |
| Utils.CopiesPrefixWithoutT | src/tools/utils.cpp:132 | a prefix without 't' that does not end in '/' is copied |
| Utils.NoSchemePrefixAdded | tests/utils_test.cpp:39-53 | "//example.com/image.jpg" and "" come back unchanged, with no "https:" prefix |
| UtilsExamples.EpochDayOf2023 | tests/utils_test.cpp:55-59 | day 19358 after the epoch is 2023-01-01 |
| UtilsExamples.TimestampExample | tests/utils_test.cpp:55-59 | 1672531200 prints "2023-01-01" |
| UtilsExamples.NonPositiveTimestampExamples | tests/utils_test.cpp:61-69 | 0 and -100 print "N/A" |
| UtilsExamples.ThumbRewritten | tests/utils_test.cpp:19-27 | the thumbnail URL gets "/t_original/" (without the "https:" the test expects) |
| UtilsExamples.CoverBigRewritten | tests/utils_test.cpp:29-37 | the cover_big URL gets "/t_original/" (without the "https:" the test expects) |
| IgdbQueries.SearchBody | src/managers/igdb_manager.cpp:115-118 | a search body starts with the field projection and carries the relevance filter |
| IgdbQueries.SlugBody | src/managers/igdb_manager.cpp:136-137 | a slug body starts with the field projection and carries the relevance filter |
| IgdbQueries.GenreBody | src/managers/igdb_manager.cpp:156-157 | a genre body starts with the projection and carries the filter and "sort rating desc" |
| IgdbQueries.UpcomingBody | src/managers/igdb_manager.cpp:175-178 | an upcoming body starts with the projection and carries the filter, "hypes != null" and "sort hypes desc" |
| IgdbQueries.SplitRoundTrip | src/managers/igdb_manager.cpp:115-118 | a body laid out as head + x + mid + y + tail splits back into (x, y) |
| IgdbQueries.SearchRoundTrip | src/managers/igdb_manager.cpp:115-118 | a search body gives back its query and limit, for a query without '"' |
| IgdbQueries.SlugRoundTrip | src/managers/igdb_manager.cpp:17-19 | a slug body gives back its slug, for a slug without '"' |
| IgdbQueries.GenreRoundTrip | src/managers/igdb_manager.cpp:21-24 | a genre body gives back its genre and limit, for a genre without '"' |
| IgdbQueries.UpcomingRoundTrip | src/managers/igdb_manager.cpp:26-30 | an upcoming body gives back its instant and limit, for every pair |
| IgdbQueries.SearchBodyInjective | src/managers/igdb_manager.cpp:115-118 | different searches send different bodies |
| IgdbParse.ParseReleaseDates | src/managers/igdb_manager.cpp:325-329 | the release-date loop computes the dates of all entries in order, or fails on an entry without a numeric date |
| IgdbParse.ParseStrings | src/managers/igdb_manager.cpp:339-381 | each url/name loop keeps, in order, the (rewritten) strings of the entries that hold the key; a non-string value fails |
| IgdbParse.GameOf | src/managers/igdb_manager.cpp:283-383 | the record one element maps to: an element that is not an object gives the all-default record, and no record carries a playhub rating |
| IgdbParse.ParseGame | src/managers/igdb_manager.cpp:283-383 | the body of the per-element try block gives the record of the element, or fails where a conversion throws |
| IgdbParse.ParseGamesResponse | src/managers/igdb_manager.cpp:259-400 | the records of the elements that map, in order; nothing for an empty, unparsable or non-array reply |
| IgdbParse.DateAppended | src/managers/igdb_manager.cpp:328-329 | an entry with a numeric date extends the dates so far |
| IgdbParse.DateFails | src/managers/igdb_manager.cpp:328-329 | an entry without a readable date fails the whole element |
| IgdbParse.DatesFailFromPrefix | src/managers/igdb_manager.cpp:327-329 | a failure among the first entries fails the whole list |
| IgdbParse.CollectFailFromPrefix | src/managers/igdb_manager.cpp:341-346 | a failure among the first entries fails the whole list |
| IgdbParse.GamesOfAppend | src/managers/igdb_manager.cpp:281-390 | the records of a concatenation are the records of its parts, in order |
| IgdbParse.FailingElementDropped | src/managers/igdb_manager.cpp:385-389 | an element that throws is dropped whole; the others stay in order |
| IgdbParse.GoodElementKept | src/managers/igdb_manager.cpp:383 | an element that maps contributes its record at its place |
| IgdbParse.EveryElementKept | src/managers/igdb_manager.cpp:281-390 | when every element maps, record i is element i's |
| IgdbParse.GamesOfBound | src/managers/igdb_manager.cpp:281-390 | never more records than elements |
| IgdbParse.ResponseGamesBound | src/managers/igdb_manager.cpp:264-279 | no records unless the reply is an array, and never more than its elements |
| IgdbParse.MappedRecordDefaults | src/managers/igdb_manager.cpp:288-376 | the defaults of a mapped record: a missing or null id, name, slug or summary is "", rating 0.0, first release "N/A", hypes unset, a cover without an object holding "url" is "", and each of the six lists is empty when its member is missing or not an array |
| IgdbParse.IdReadsBack | src/managers/igdb_manager.cpp:288-290 | an in-range numeric id is stored as decimal text that reads back as the id |
| IgdbParse.LargeHypesWrap | src/managers/igdb_manager.cpp:313-314 | a hype count of 2^31 or more is stored negative |
| IgdbParse.CollectSkipsEntriesWithoutKey | src/managers/igdb_manager.cpp:342-343 | entries without the key, or with a null value, are skipped |
| IgdbParse.CollectKeepsEveryString | src/managers/igdb_manager.cpp:341-346 | when every entry holds a string, each is kept, rewritten, at its place |
| IgdbParse.CollectedUrlsOriginal | src/managers/igdb_manager.cpp:344-346 | every collected image URL is already at original quality |
| IgdbParse.ImageUrlsOriginal | src/managers/igdb_manager.cpp:332-356 | the cover, artwork and screenshot URLs of a record are all at original quality |
| IgdbClient.Authenticated | src/managers/igdb_manager.cpp:60-104 | one Authenticate step: a token is fetched exactly when none is cached or the expiry has come, and the expiry moves only on a successful fetch |
| IgdbClient.ReuseSeconds | include/managers/igdb_manager.hpp:58 | expires_in - 300 computed in `std::uint32_t`: exact from 300 on, wrapped by 2^32 below |
| IgdbClient.Client.constructor | include/managers/igdb_manager.hpp:51-52 | nothing cached and nothing sent |
| IgdbClient.Client.Authenticate | src/managers/igdb_manager.cpp:60-104 | the result and the new cache are those of the cache step, and a token is fetched exactly when the step fetches |
| IgdbClient.Client.Query | src/managers/igdb_manager.cpp:109-125 | on success, one request with the body and the current bearer token, answered by the parsed records; on failure, nothing sent and no records |
| IgdbClient.Client.SearchGames | src/managers/igdb_manager.cpp:106-126 | authenticate, then send the search body and return its parsed records |
| IgdbClient.Client.GetGameBySlug | src/managers/igdb_manager.cpp:128-145 | authenticate, then send the slug body and return its parsed records |
| IgdbClient.Client.GetGamesByGenre | src/managers/igdb_manager.cpp:147-165 | authenticate, then send the genre body and return its parsed records |
| IgdbClient.Client.GetUpcomingGames | src/managers/igdb_manager.cpp:167-186 | authenticate, then send the upcoming body for the current time and return its parsed records |
| IgdbClient.CacheHitReusesToken | src/managers/igdb_manager.cpp:62-66 | strictly before the expiry, a cached token is reused and nothing is fetched |
| IgdbClient.FetchOutcome | src/managers/igdb_manager.cpp:68-103 | a fetch succeeds exactly when the grant has a string token and any expires_in converts |
| IgdbClient.NoTokenChangesNothing | src/managers/igdb_manager.cpp:69-83 | a failed fetch, or a reply without a string access_token, fails and leaves the cache as it was |
| IgdbClient.GrantedTokenStored | src/managers/igdb_manager.cpp:85-86 | a granted token becomes both the current and the cached token |
| IgdbClient.ExpiryFromGrant | src/managers/igdb_manager.cpp:88-94 | the new expiry is now + (expires_in - 300) when given, and the old expiry when absent |
| IgdbClient.ShortLifetimeWraps | src/managers/igdb_manager.cpp:93 | a lifetime under 300 s wraps, so the token is kept for about 136 years |
| IgdbClient.AuthenticateKeepsCoherence | src/managers/igdb_manager.cpp:60-104 | a cached token is always the current one, and once cached it is never dropped |
| IgdbClient.FreshTokenReused | src/managers/igdb_manager.cpp:62-94 | after a successful fetch with a lifetime over 300 s, a call before the new expiry reuses the token without fetching |
| Repository.IdTextInjective | tests/game_service_test.cpp:346-356 | distinct identifiers have distinct texts, so a text names at most one row |
| Repository.WithRating | include/repository/repository.hpp:37-38 | only the rating of the rows named by the identifier text changes; identifiers, records and every other row stay |
| Repository.RowOfProviderId | src/repository/postgres_manager.cpp:19-30 | the first row holding the provider game, or none exactly when no row holds it |
| Repository.InsertedAsWritten | src/repository/postgres_manager.cpp:19-30 | the insert as written always adds a row under the next identifier |
| Repository.ReingestDuplicatesAsWritten | src/repository/postgres_manager.cpp:30 | ingesting one provider game twice with that insert stores it twice |
| Repository.Upsert | src/repository/postgres_manager.cpp:30-44 | the corrected insert: it adds a row exactly when no row holds the provider game, and otherwise keeps the row count |
| Repository.UpsertedRow | src/repository/postgres_manager.cpp:45-48 | the returned row holds the record just written |
| Repository.UpsertStoresRecord | src/repository/postgres_manager.cpp:30-44 | a known game keeps its row, identifier and rating; a new one adds one row; other rows are unchanged |
| Repository.UpsertKeepsUnique | src/repository/postgres_manager.cpp:30 | no provider game is ever stored twice |
| Repository.UpsertIdempotent | src/repository/postgres_manager.cpp:30-44 | upserting the same record twice leaves the store as upserting it once |
| Repository.UpsertFirstStep | src/repository/postgres_manager.cpp:66-90 | one more record of a batch is one more upsert and one more create call |
| Repository.CreatedRowsHold | src/repository/postgres_manager.cpp:66-90 | the i-th created row holds the i-th record |
| Repository.UpsertFirstBound | src/repository/postgres_manager.cpp:30 | a batch adds at most one row per record and keeps provider ids unique |
| Repository.UpsertFirstAscending | src/repository/postgres_manager.cpp:66-90 | identifiers stay ascending and below the next one across a batch |
| Repository.AscendingIdsDistinct | include/repository/repository.hpp:37-38 | in ascending rows, an earlier row has a smaller identifier than any later one |
| Repository.RatingTouchesOneRow | include/repository/repository.hpp:37-38 | with the store's identifiers, a rating update changes at most one row |
| Repository.Store.constructor | include/repository/repository.hpp:15-39 | an empty store |
| Repository.Store.Query | include/repository/repository.hpp:23-35 | a read answers from the current rows and is recorded |
| Repository.Store.CreateGame | include/repository/repository.hpp:22 | upserts the record, returns its row and keeps the store's invariant (ascending identifiers below the counter, unique provider ids) |
| Repository.Store.UpdateGameRating | include/repository/repository.hpp:37-38 | throws exactly when the store rejects the call (`rejects`), leaving the rows; otherwise only the rating of the row the identifier names changes; the counter never moves |
| GameService.Service.IngestNext | tests/game_service_test.cpp:113-139 | one CreateGame: the batch upsert and the created rows grow by one record |
| GameService.Service.Ingest | tests/game_service_test.cpp:113-139 | one CreateGame per provider record in order; row i holds record i, and the store is the batch upsert |
| GameService.Service.Lookaside | tests/game_service_test.cpp:92-160 | store first; an exception is CANCELLED and a non-empty answer is returned, both without asking the provider and with rows and counter unchanged; an empty one is filled from the provider, written back as the batch upsert, and the created rows are the answer |
| GameService.Service.SearchGames | src/handlers/game_grpc.cpp:8-21 | an empty query is INVALID_ARGUMENT with no call and nothing changed; otherwise the lookaside with the search, each branch stating status, answer, rows, counter, store calls and provider calls |
| GameService.Service.GetGamesByGenre | tests/game_service_test.cpp:239-281 | an empty genre is INVALID_ARGUMENT with nothing changed; otherwise the lookaside with the genre, each branch stating status, answer, rows, counter and calls |
| GameService.Service.GetUpcomingGames | tests/game_service_test.cpp:301-322 | the lookaside for upcoming games: on an exception or a hit, rows and counter unchanged and one store read; on a miss, the provider's upcoming list written back |
| GameService.Service.GetTopRatedGames | tests/game_service_test.cpp:284-298 | the store alone answers, and the provider is never asked |
| GameService.Service.ListGames | tests/game_service_test.cpp:325-343 | one page from the store alone, with the given limit, offset and sorting |
| GameService.Service.GetGame | tests/game_service_test.cpp:163-236 | an id is looked up in the store only (a miss is NOT_FOUND) with the rows unchanged; a slug hit or exception leaves the rows unchanged; a slug miss writes the provider's records back and answers with the first created row; neither is INVALID_ARGUMENT |
| GameService.Service.SetRating | tests/game_service_test.cpp:346-379 | exactly one UpdateGameRating call; INVALID_ARGUMENT exactly when the store throws, with the rows unchanged; OK otherwise, with that row's rating set; the counter and the provider untouched |

## Left out

- The HTTPS transport is a parameter, `transport`, that gives the parsed reply to a body. This covers `PerformHttpRequest` (TLS, DNS, Beast) and the Client-ID header.
- The token endpoint call `GetTwitchToken` is a parameter too, `grant`, where None stands for a failed, empty or unparsable reply. Reading the credentials with `getenv` is not modelled.
- JSON text parsing is not modelled: a value is given as already parsed, and None stands for text that does not parse. Floating-point numbers are reals, with no rounding.
- `LoadEnv`'s file checks and its `std::ifstream` are not modelled. The loop is modelled over the file's lines.
- Utils.TimestampToString: `std::localtime` is modelled as UTC, because the time zone is process state. Years from 10000 on overflow the 11-byte buffer of the source; the model still prints them in full.
- IgdbClient.Client.GetUpcomingGames: one `now` stands for both clock reads (the token check and `std::time`), which are a few microseconds apart in the source.
- Concurrency and the reuse of one client from several threads are not modelled.
- Standard error output is not modelled.
- `main.cpp` and the service's wiring are not modelled.
- The SQL that selects rows for each read query is not modelled. It is the parameter `answer` of the store, a function of the rows and the query.
- Why UpdateGameRating throws (a malformed UUID, a lost connection) is not modelled: the repository only declares the method. It is the parameter `rejects` of the store, and SetRating maps every such exception to INVALID_ARGUMENT.
- Row identifiers are UUIDs in the source. The model uses naturals drawn from a counter, whose decimal text stands for the UUID text; a rating update names its row by that text.
- Repository.Upsert: its contract states only the row count. What happens to each row is stated by Repository.UpsertStoresRecord, because the per-row clauses on the function itself make the proof of the write-back loop too costly.
- Repository.Store.CreateGame models the repository interface as the service tests mock it. The PostgreSQL statement at src/repository/postgres_manager.cpp:19-50 has sixteen placeholders, but CreateGame binds fourteen values at lines 71-79. That path, which returns an empty record from the catch block, is not modelled.
- `TimePointToProtobuf` (tests/utils_test.cpp:71-93) is not part of this model: its source is not among the files modelled.
- IgdbParse.DateOf: a release-date entry without "date" reads through nlohmann's const `operator[]`, which is undefined behaviour there. The model treats it as a type error: the element is dropped.
- ForceOriginalQuality follows the code, which never adds a scheme. The unit tests at tests/utils_test.cpp:19-53 expect an "https:" prefix, which the code does not produce. Utils.NoSchemePrefixAdded and UtilsExamples.ThumbRewritten state what the code returns.
- GameService.Service.GetGamesByGenre: the handler in the repository is a stub. The empty-genre check, the slug fallback of GetGame and the CANCELLED status for every store exception are choices of this model, supported by the service tests (tests/game_service_test.cpp), not by handler code.
- GameService.Service.ListGames: the protobuf sorting enum is an integer passed through to the store.
- The request limits are passed on as given. No default limit of 10 is applied, because the code applies none.

## Findings

| source | as written | input that shows it | evidently intended | confidence | as-written member | corrected member |
|---|---|---|---|---|---|---|
| src/repository/postgres_manager.cpp:30 | `ON CONFLICT (id)` names the store-generated UUID, which the insert never supplies, so the conflict never fires and every CreateGame adds a row | the same provider game (same `igdb_id`) returned by two provider fallbacks, for example two searches that miss the store | an upsert keyed on the provider id: a known game is updated in place, keeping its row, identifier and rating | not executed; the table schema is not part of this model (if `igdb_id` carries a unique constraint, the second insert fails instead of duplicating) | Repository.ReingestDuplicatesAsWritten | Repository.UpsertIdempotent |
