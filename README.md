# DatabaseService of the splash_brothers data scraper, in Dafny

The scraper's `DatabaseService` takes one player's games and writes them to
the DynamoDB table "splash-brothers-stats". Each item is keyed by
`(player_name, game_date)`. The service works in four steps:

1. It fetches the dates already stored for the player, once per service
   object (`existing_records`).
2. It keeps, in order, the games whose date is not among them.
3. For each game it parses the opponent text ("@SAC", "vs LAC", ...) into a
   team code and a home/away flag (`parse_opponent`). It converts the
   three-point fields with `String#to_i` and puts the item
   (`create_record`).
4. It reports `"<player>: upserted <n> record(s)"`, where n counts the puts
   that did not raise (`output_msg`).

The model has these files:

- `wrappers.dfy`: `Option` and `Result`.
- `numerals.dfy`: `Integer#to_s` (`NatToString`) and `String#to_i`
  (`ToI`) on decimal text, and the round trip between them.
- `opponent.dfy`: `parse_opponent`.
  - The regular expression `(@|vs)\s?([A-Z]{2,3})/i` is defined by what it
    matches (`IsMatch`) and by which match the Ruby engine reports: the
    leftmost, then the first in backtracking order (`IsRegexMatch`).
  - A scanner (`FindMatch`) is proved to return exactly that match.
  - `String#strip` is proved not to change the result.
  - `at_home` is the case-sensitive test on the matched prefix, so
    `"VS LAC"` is an away game.
- `records.dfy`: the pure side of `create_records`.
  - The candidate filter (`Candidates`).
  - The `put_item` requests, in order (`Requests`).
  - The requests the store accepts (`Accepted`).
  - The table after those puts (`Store`).
  - The message (`OutputMsg`).
- `database_service.dfy`: the stateful side.
  - `Table` is the DynamoDB table. It holds its items in a `map` field. The
    keys whose `put_item` raises, and whether the query raises, are fixed
    when the table is built. A ghost log records every query and put sent
    to it.
  - `DatabaseService` is the Ruby class. It has the memo field
    `existingRecords` (`@existing_records`) and the methods
    `ExistingRecords`, `CreateRecord` and `CreateRecords`, with its counting
    loop. Each method's postcondition gives the new table, the new log and
    the result in terms of the functions of `records.dfy`.
- `scenarios.dfy`: the RSpec examples for `create_records`, replayed on
  concrete tables, and the memoisation across two calls.

## Model

| member | source | states |
|---|---|---|
| Numerals.NatToString | lambda_functions/splash_brothers_data_scraper/source/database_service.rb:28 | the interpolated count is a non-empty run of decimal digits with no leading zero |
| Numerals.NatToStringValue | lambda_functions/splash_brothers_data_scraper/source/database_service.rb:28 | the digits of the rendered count have the value of the count |
| Numerals.NatToStringInjective | lambda_functions/splash_brothers_data_scraper/source/database_service.rb:28 | different counts are rendered as different text |
| Numerals.LeadingDigits | lambda_functions/splash_brothers_data_scraper/source/database_service.rb:41-42 | `to_i` reads the longest prefix of decimal digits: a prefix, all digits, followed by a non-digit or the end |
| Numerals.SkipLeadingSpaceIsSuffix | lambda_functions/splash_brothers_data_scraper/source/database_service.rb:41-42 | `to_i` skips exactly the leading whitespace: what is dropped is whitespace and what is left does not start with it |
| Numerals.ToI | lambda_functions/splash_brothers_data_scraper/source/database_service.rb:41-42 | `"3fga".to_i` is 0 when no digit follows the whitespace and optional sign, and is negative only after a minus sign |
| Numerals.ToIOfNatToString | lambda_functions/splash_brothers_data_scraper/source/database_service.rb:41-42 | `to_i` of the decimal text of n, followed by anything that does not start with a digit, is n |
| Numerals.ToIOfNegative | lambda_functions/splash_brothers_data_scraper/source/database_service.rb:41-42 | `to_i` of "-" followed by the decimal text of n is -n |
| Numerals.ToIOfEmpty | lambda_functions/splash_brothers_data_scraper/source/database_service.rb:41-42 | a missing three-point field reads as 0, as `nil.to_i` does, so the game is still written and counted |
| Numerals.ToIExamples | lambda_functions/splash_brothers_data_scraper/spec/database_service_spec.rb:69-70 | the fields "17", "14", "10" and "8" of the examples convert to 17, 14, 10 and 8 |
| OpponentParser.TrimStartIsSuffix | lambda_functions/splash_brothers_data_scraper/source/database_service.rb:52 | `strip` removes the longest whitespace prefix and nothing else |
| OpponentParser.TrimEndIsPrefix | lambda_functions/splash_brothers_data_scraper/source/database_service.rb:52 | `strip` removes the longest whitespace suffix and nothing else |
| OpponentParser.Strip | lambda_functions/splash_brothers_data_scraper/source/database_service.rb:52 | `strip` never lengthens the text; StripIsSlice and StripDoesNotChangeParse state what it removes and that it does not change the parse |
| OpponentParser.IsMatch | lambda_functions/splash_brothers_data_scraper/source/database_service.rb:52 | a match of the pattern lies inside the text and spans three to six characters |
| OpponentParser.IsRegexMatch | lambda_functions/splash_brothers_data_scraper/source/database_service.rb:52 | the reported match comes before every other match in the engine's order: every other match starts further right, or starts at the same place and is tried later |
| OpponentParser.LetterRun | lambda_functions/splash_brothers_data_scraper/source/database_service.rb:52 | `[A-Z]{2,3}` under `/i` takes as many letters as it can, at most three: the run is letters and stops at a non-letter or after three |
| OpponentParser.MatchAt | lambda_functions/splash_brothers_data_scraper/source/database_service.rb:52 | at one position the scanner returns a match of the pattern that no other match there outranks in backtracking order, and nothing only where no match starts there |
| OpponentParser.FindMatchFrom | lambda_functions/splash_brothers_data_scraper/source/database_service.rb:52 | the scanner returns the leftmost match at or after a position, first in backtracking order, and nothing only where no match starts there or later |
| OpponentParser.FindMatch | lambda_functions/splash_brothers_data_scraper/source/database_service.rb:52 | the scanner returns the match the Ruby engine reports, and nothing exactly when the pattern matches nowhere |
| OpponentParser.RegexMatchUnique | lambda_functions/splash_brothers_data_scraper/source/database_service.rb:52 | the reported match is determined by the text: at most one match is leftmost and first tried |
| OpponentParser.Captures | lambda_functions/splash_brothers_data_scraper/source/database_service.rb:54 | the code is the captured 2 or 3 letters as written, and `at_home` holds exactly when the captured prefix is lower-case "vs" |
| OpponentParser.PrefixIsVs | lambda_functions/splash_brothers_data_scraper/source/database_service.rb:54 | the captured prefix is "vs" exactly when it is two characters, a lower-case v and a lower-case s |
| OpponentParser.ParseOpponent | lambda_functions/splash_brothers_data_scraper/source/database_service.rb:51-55 | a parsed code has 2 or 3 letters |
| OpponentParser.ParseOpponentIsRegexMatch | lambda_functions/splash_brothers_data_scraper/source/database_service.rb:51-55 | `parse_opponent` returns the captures of the match the engine reports on the stripped text |
| OpponentParser.ParseOpponentFails | lambda_functions/splash_brothers_data_scraper/source/database_service.rb:52 | `parse_opponent` raises exactly when the pattern matches nowhere in the stripped text |
| OpponentParser.StripIsSlice | lambda_functions/splash_brothers_data_scraper/source/database_service.rb:52 | the stripped text is a slice of the raw text with only whitespace around it |
| OpponentParser.StripDoesNotChangeParse | lambda_functions/splash_brothers_data_scraper/source/database_service.rb:52 | stripping first changes nothing: parsing the raw text directly gives the same answer |
| OpponentParser.ParseAwayNoSpace | lambda_functions/splash_brothers_data_scraper/spec/database_service_spec.rb:109 | "@SAC" parses to (false, "SAC") |
| OpponentParser.ParseAwayWithSpace | lambda_functions/splash_brothers_data_scraper/spec/database_service_spec.rb:110 | "@ LAL" parses to (false, "LAL") |
| OpponentParser.ParseHomeWithSpace | lambda_functions/splash_brothers_data_scraper/spec/database_service_spec.rb:111 | "vs LAC" parses to (true, "LAC") |
| OpponentParser.ParseHomeNoSpace | lambda_functions/splash_brothers_data_scraper/spec/database_service_spec.rb:112 | "vsPOR" parses to (true, "POR") |
| OpponentParser.ParseUpperCaseVsIsAway | lambda_functions/splash_brothers_data_scraper/source/database_service.rb:54 | "VS LAC" matches under `/i` but parses to (false, "LAC"), because the home test is case-sensitive |
| OpponentParser.ParseLongNameIsCut | lambda_functions/splash_brothers_data_scraper/source/database_service.rb:52 | "vs BOSTON" parses to (true, "BOS"): the unanchored pattern takes three letters |
| OpponentParser.ParseAwayTwoLetters | lambda_functions/splash_brothers_data_scraper/spec/database_service_spec.rb:41 | "@NY" parses to (false, "NY") |
| OpponentParser.ParseHomeBos | lambda_functions/splash_brothers_data_scraper/spec/database_service_spec.rb:69 | "vs BOS" parses to (true, "BOS") |
| OpponentParser.ParseRejectsWithoutMarker | lambda_functions/splash_brothers_data_scraper/source/database_service.rb:52 | text with no "@", "v" or "V", such as the bare "BOS" of the examples, does not parse |
| Records.Candidates | lambda_functions/splash_brothers_data_scraper/source/database_service.rb:13 | the filter keeps at most as many games as it is given |
| Records.CandidatesFilter | lambda_functions/splash_brothers_data_scraper/source/database_service.rb:13 | a game is kept exactly when it is given and its date is not among the stored dates |
| Records.CandidatesAppend | lambda_functions/splash_brothers_data_scraper/source/database_service.rb:13 | the filter keeps input order: it distributes over concatenation |
| Records.CandidatesOfNothingStored | lambda_functions/splash_brothers_data_scraper/source/database_service.rb:13 | with no stored dates every game is kept, duplicate dates included |
| Records.BuildItem | lambda_functions/splash_brothers_data_scraper/source/database_service.rb:31-43 | an item is built exactly when the opponent parses, and its opponent code then has 2 or 3 letters |
| Records.RequestsFor | lambda_functions/splash_brothers_data_scraper/source/database_service.rb:31-49 | a game gives at most one put, and gives one exactly when its item can be built |
| Records.Requests | lambda_functions/splash_brothers_data_scraper/source/database_service.rb:18-20 | at most one `put_item` per game |
| Records.RequestsAppend | lambda_functions/splash_brothers_data_scraper/source/database_service.rb:18-20 | the requests for two runs of games are those of the first run, then those of the second |
| Records.RequestsStep | lambda_functions/splash_brothers_data_scraper/source/database_service.rb:18-20 | one more loop iteration adds exactly the request of its game |
| Records.RequestsComeFromGames | lambda_functions/splash_brothers_data_scraper/source/database_service.rb:31-44 | every request stores, under (player, game date), the item built from one of the games |
| Records.RequestsForEveryGame | lambda_functions/splash_brothers_data_scraper/source/database_service.rb:32 | there is one request per game exactly when every opponent parses |
| Records.Upserts | lambda_functions/splash_brothers_data_scraper/source/database_service.rb:13-20 | `create_records` sends at most one put per candidate, and there are at most as many candidates as games |
| Records.Accepted | lambda_functions/splash_brothers_data_scraper/source/database_service.rb:46-48 | at most as many puts succeed as are sent |
| Records.AcceptedFilter | lambda_functions/splash_brothers_data_scraper/source/database_service.rb:46-48 | a put succeeds exactly when it is sent and the store does not reject its key |
| Records.AcceptedAppend | lambda_functions/splash_brothers_data_scraper/source/database_service.rb:46-48 | which puts succeed is decided put by put, in order |
| Records.AcceptedAll | lambda_functions/splash_brothers_data_scraper/source/database_service.rb:46-48 | a store that rejects none of the keys accepts every put, in order |
| Records.StoreKeys | lambda_functions/splash_brothers_data_scraper/source/database_service.rb:34-44 | after the puts the table holds its old keys and the keys put: nothing is deleted |
| Records.StoreAppend | lambda_functions/splash_brothers_data_scraper/source/database_service.rb:34-44 | applying two runs of puts is applying their concatenation |
| Records.StoreFrame | lambda_functions/splash_brothers_data_scraper/source/database_service.rb:34-44 | a key no put touches keeps its item |
| Records.StoreLastWriteWins | lambda_functions/splash_brothers_data_scraper/source/database_service.rb:34-44 | a key holds the item of the last put to it: upserts overwrite |
| Records.NoStoredDateWritten | lambda_functions/splash_brothers_data_scraper/source/database_service.rb:13 | no put goes to a stored date, and every put is under the service's player |
| Records.CountBounds | lambda_functions/splash_brothers_data_scraper/source/database_service.rb:16-22 | count <= puts sent <= candidates <= games |
| Records.CountIsFull | lambda_functions/splash_brothers_data_scraper/source/database_service.rb:46-48 | every put sent is counted exactly when the store rejects none of their keys |
| Records.StoredThenNew | lambda_functions/splash_brothers_data_scraper/spec/database_service_spec.rb:37-63 | of a stored game and a new one, only the new one is put, with its own item |
| Records.FailedWriteIsolated | lambda_functions/splash_brothers_data_scraper/source/database_service.rb:47-48 | a put that raises does not stop the next one: of two parsed games whose first key is rejected, exactly the second is written |
| Records.OutputMsg | lambda_functions/splash_brothers_data_scraper/source/database_service.rb:27-29 | the message starts with the player's name and has the length of the fixed text plus the count's digits |
| Records.OutputMsgCount | lambda_functions/splash_brothers_data_scraper/source/database_service.rb:27-29 | the count can be read back with `to_i` from the text after "<player>: upserted " |
| Records.OutputMsgInjective | lambda_functions/splash_brothers_data_scraper/source/database_service.rb:27-29 | different counts give different messages |
| Service.Dates | lambda_functions/splash_brothers_data_scraper/source/database_service.rb:59-71 | the query answers d exactly when the table has an item under (player, d) |
| Service.Table.Query | lambda_functions/splash_brothers_data_scraper/source/database_service.rb:59-71 | the query is logged and returns the player's stored dates, or fails when the table fails queries |
| Service.Table.PutItem | lambda_functions/splash_brothers_data_scraper/source/database_service.rb:34-44 | the put is logged; it succeeds exactly when its key is not rejected, and then creates or overwrites that key and nothing else |
| Service.DatabaseService.constructor | lambda_functions/splash_brothers_data_scraper/source/database_service.rb:6-8 | a new service has its player name and no fetched dates |
| Service.DatabaseService.ExistingRecords | lambda_functions/splash_brothers_data_scraper/source/database_service.rb:57-74 | once fetched, the dates are returned without a query; otherwise the table is queried once and a successful answer is kept, even an empty one, while a failed one is not |
| Service.DatabaseService.CreateRecord | lambda_functions/splash_brothers_data_scraper/source/database_service.rb:31-49 | an opponent that does not parse gives 0 and sends nothing; otherwise exactly one put of the built item under (player, date) is sent, and the result is 1 exactly when it is accepted, in which case the table has the item under that key |
| Service.DatabaseService.CreateEach | lambda_functions/splash_brothers_data_scraper/source/database_service.rb:16-20 | the loop sends the candidates' requests in order, leaves the table as those accepted make it, and counts them |
| Service.DatabaseService.CreateRecords | lambda_functions/splash_brothers_data_scraper/source/database_service.rb:10-23 | empty input gives the 0 message without a query or a write; a failed query escapes with nothing written; otherwise the calls are at most one query followed by the puts of the candidates, the table is the old one updated by the accepted puts, and the message counts the accepted puts |
| Scenarios.EmptyInput | lambda_functions/splash_brothers_data_scraper/spec/database_service_spec.rb:14-20 | no games: "steph-curry: upserted 0 record(s)" and an empty table |
| Scenarios.AlreadyStored | lambda_functions/splash_brothers_data_scraper/spec/database_service_spec.rb:23-34 | the only game is stored: the 0 message and the table as it was |
| Scenarios.OneStoredOneNew | lambda_functions/splash_brothers_data_scraper/spec/database_service_spec.rb:37-63 | one stored game and "@NY": the 1 message and the NY item added under 2022-11-05 |
| Scenarios.OnlyAddedIsPut | lambda_functions/splash_brothers_data_scraper/spec/database_service_spec.rb:45-59 | of a stored game and a new one, the only put is the new game's, and a store that rejects nothing keeps it |
| Scenarios.NothingStored | lambda_functions/splash_brothers_data_scraper/spec/database_service_spec.rb:66-104 | "vs BOS" and "@NY" on an empty table: the 2 message and both items stored |
| Scenarios.BostonItem | lambda_functions/splash_brothers_data_scraper/spec/database_service_spec.rb:78-88 | the "vs BOS" game builds the item ("BOS", home, 17, 8) |
| Scenarios.NewYorkItem | lambda_functions/splash_brothers_data_scraper/spec/database_service_spec.rb:49-59 | the "@NY" game builds the item ("NY", away, 14, 10) |
| Scenarios.QueriedOnce | lambda_functions/splash_brothers_data_scraper/source/database_service.rb:57-58 | two calls on one service query the table once and send the same puts twice, since the memo does not learn the dates the first call wrote; the two messages are equal only because the table rejects a fixed set of keys (see "## Left out") |
| Scenarios.MessageOfDigit | lambda_functions/splash_brothers_data_scraper/source/database_service.rb:28 | a one-digit count appears in the message as that digit |
| Scenarios.MessageNone | lambda_functions/splash_brothers_data_scraper/spec/database_service_spec.rb:19 | the message for 0 is "steph-curry: upserted 0 record(s)" |
| Scenarios.MessageOne | lambda_functions/splash_brothers_data_scraper/spec/database_service_spec.rb:62 | the message for 1 is "steph-curry: upserted 1 record(s)" |
| Scenarios.MessageTwo | lambda_functions/splash_brothers_data_scraper/spec/database_service_spec.rb:103 | the message for 2 is "steph-curry: upserted 2 record(s)" |

## Left out

- The AWS client and its credentials (`dynamodb_client`, database_service.rb:80-82) are foreign code. The `Table` object stands in for them.
- The table name (database_service.rb:76-78) is fixed. A `Table` object stands for that one table, so the name is not a value in the model.
- The query's key condition, projection and response shape (database_service.rb:59-71) are not modelled. The query returns every stored date of the player as a set. DynamoDB's paging of large answers, which the source does not follow, is not modelled.
- Store failures are modelled only through fixed inputs: a query that always raises, and a fixed set of keys whose `put_item` raises. Timing, retries and partial failures inside the client are not modelled.
- Scenarios.QueriedOnce: a put to a given key either always raises or never does, because the rejected keys are fixed when the table is built. Failures that differ from one call to the next, which could make the two messages differ, are not modelled.
- Missing hash keys and `nil` fields in a game are modelled only in part. Every field of `Game` is text. A missing "3fga" or "3fgm" is the empty text: `nil.to_i` is 0, and so is `ToI("")` (`ToIOfEmpty`), so such a game is still written and counted. A missing opponent makes `nil.strip` raise, which `create_record`'s `rescue` turns into 0 without a write; in the model that is an opponent that does not parse. A missing date (`nil` as the sort key, which DynamoDB rejects) is not modelled.
- Numerals.ToI: covers leading whitespace, an optional sign and decimal digits. It does not cover the `_` digit separators or the `0d` prefix that Ruby's `String#to_i` also accepts.
- OpponentParser.IsLetter: ASCII letters only. Ruby's `/i` also matches a few non-ASCII characters by Unicode case folding (the Kelvin sign for `k`, the long s for `s`), and these are not modelled.
- OpponentParser.IsStripSpace: whitespace for `String#strip` is taken to be NUL, tab, line feed, vertical tab, form feed, carriage return and space, at both ends. This is the set current Ruby versions use.
- Concurrency is not modelled: the table changes only through the service's own calls. In the model, the memo can be stale only because of the service's own writes.
