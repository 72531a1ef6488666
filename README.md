# Monthly playlists, modelled in Dafny

A model of the browser-side core of the monthly-playlists generator
(`public/playlists.js`), with proofs about it. The generator reads a user's
saved tracks from the music service's Web API page by page. It buckets them
by the year and month each was saved, creates one public playlist per month
(retrying on HTTP 502), and adds the month's tracks to it in requests of at
most 100 URIs. The cleanup flow lists the user's playlists page by page,
picks the own playlists its name test accepts, and unfollows them with the
same 502 retry. As written, that test accepts any own playlist whose name is
7 code units long and does not end in "2000", generated or not (see
Findings); the modelled cleanup flow uses the corrected test.

Modules, one per component:

- `JsBuiltins`: the JavaScript built-ins the code relies on, as the code
  uses them. A JavaScript string is a sequence of UTF-16 code units
  (`JsString`), so `length` and `substring` offsets count code units;
  `Utf16` gives the JavaScript string of a Dafny text. Beside it:
  `String.prototype.substring` (it clamps and swaps its arguments),
  `toString` on integers, and jQuery's `$.inArray`, which returns an index
  or -1.
- `Auth`: `get_auth_header`.
- `Spotify`: the records read from the API, and the three kinds of request
  sent, reduced to the fields the code uses. A playlist's name and a saved
  track's `added_at` are held as JavaScript strings, since the code measures
  and cuts them.
- `Pagination`: `get_next_batch_of_items`, a fold over the responses the
  successive page requests receive.
- `Bucketizer` (with `MapSums` for counting): `get_month_year`, and
  `get_dated_tracks` as an imperative loop proved equal to the fold
  `Bucketize`.
- `Populator`: `populate_playlist` as an imperative loop. It returns the
  add-tracks requests it sends, proved equal to one request per 100-URI
  chunk.
- `Retry`: the 502 retry policy shared by `create_and_populate_playlist` and
  `unfollow_playlist`. It is a loop over the replies the attempts receive,
  proved to be a run of the policy (`IsRun`).
- `Classifier`: `get_range_array`, and `playlist_is_generated_by_this` as
  written. The corrected test is beside it (see Findings).
- `Generator`: the two flows, `all_tracks_fetched` /
  `create_and_populate_playlist` and `all_playlists_fetched` /
  `unfollow_playlist`, composed from the modules above.

The retry count follows the code. A 502 reply to the attempt made with
counter `retries` re-sends only while `retries < MAX_RETRIES`. So three 502s
in a row do not end the operation: a fourth attempt is made, and its reply
decides the outcome. Only a fourth consecutive 502 gives up
(`Retry.ThreeBadGatewaysThenSuccess`, `Retry.FourBadGatewaysExceed`).

Nothing here was executed. The contracts named in the table below are
proved by the verifier; the prose and "## Left out" are not.

## Model

| member | source | states |
|---|---|---|
| JsBuiltins.CodeUnitsOf | public/playlists.js:193 | a character is one code unit below U+10000, with its own value, and a surrogate pair from there on |
| JsBuiltins.Utf16Concat | public/playlists.js:46 | the JavaScript string of a concatenation is the concatenation of the parts' strings |
| JsBuiltins.Utf16Narrow | public/playlists.js:193 | a text of the Basic Multilingual Plane has one code unit per character, with the same values, so its `length` is its character count |
| JsBuiltins.Utf16NarrowInjective | public/playlists.js:201 | two such texts give the same JavaScript string only when they are the same text |
| JsBuiltins.Clamp | public/playlists.js:151-152 | an offset is clamped into [0, length], and left alone when it is already in range |
| JsBuiltins.Substring | public/playlists.js:151-152 | `substring` clamps both arguments into the string and swaps them when reversed; in range it is the slice between them |
| JsBuiltins.NatToString | public/playlists.js:211 | the numeral `toString` writes: non-empty, all digits, a leading `0` exactly for 0, one digit exactly below 10 |
| JsBuiltins.IntToString | public/playlists.js:211 | `i.toString()`: non-empty, starting with `-` exactly when `i` is negative |
| JsBuiltins.DecimalValueOfNatToString | public/playlists.js:211 | reading the numeral back gives the number |
| JsBuiltins.NumeralNarrow | public/playlists.js:211 | a numeral is made of Basic Multilingual Plane characters, so its JavaScript length is its character count |
| JsBuiltins.IntToStringInjective | public/playlists.js:210-212 | distinct integers give distinct numerals, so the range array holds each year's numeral once |
| JsBuiltins.NatToStringInjective | public/playlists.js:211 | distinct naturals give distinct numerals |
| JsBuiltins.NegativeNumeral | public/playlists.js:211 | the numeral of a negative integer is `-` followed by the numeral of its magnitude |
| JsBuiltins.FourDigitNumeral | public/playlists.js:197 | every year from 1000 to 9999, so every year of 2000..2020, has a 4-character numeral |
| JsBuiltins.InArray | public/playlists.js:201 | `$.inArray` is -1 exactly when the value is absent, and otherwise the index of its first occurrence |
| Auth.AuthHeader | public/playlists.js:156-158 | the header `'Bearer ' + token` carries the token back out unchanged |
| Auth.AuthHeaderOfTokenOf | public/playlists.js:156-158 | every header of the bearer form is the header of the token it carries |
| Auth.AuthHeaderInjective | public/playlists.js:156-158 | distinct tokens give distinct headers |
| Pagination.GetNextBatchOfItems | public/playlists.js:22-40 | a finished chain returns the accumulator followed by more items; the warning is raised exactly when the count differs from the terminal page's `total` |
| Pagination.FinishesAtTerminalPage | public/playlists.js:28-37 | when page t is the first without `next`, the result is the accumulator followed by the items of pages 0..t in order, and the warning compares that count with page t's `total` |
| Pagination.FinishedIffTerminal | public/playlists.js:28-38 | `on_finished` is reached exactly when every page up to some page without `next` was delivered; otherwise the chain stalls |
| Pagination.LaterResponsesIgnored | public/playlists.js:30-36 | no page after the one without `next` is requested |
| Pagination.AccumulatorPrefixes | public/playlists.js:29 | the accumulator is only a prefix: starting with items `xs` gives `xs` followed by what starting empty gives |
| Pagination.ConcatenatesAllPages | public/playlists.js:14-20 | fetching from an empty list across N delivered pages, the last without `next`, yields all the pages' items concatenated |
| Bucketizer.GetMonthYear | public/playlists.js:149-154 | the year is the first four code units and the month code units 5 to 7, both clamped on a short string |
| Bucketizer.GetMonthYearOfTimestamp | public/playlists.js:147-154 | a timestamp laid out as year, separator, month, rest yields that month and year |
| Bucketizer.GetMonthYearExample | public/playlists.js:147-148 | "2016-10-24T15:03:07Z" is month "10" of year "2016" |
| Bucketizer.Insert | public/playlists.js:129-142 | after one iteration the track's year and month have a bucket |
| Bucketizer.Bucketize | public/playlists.js:126-145 | the fold of the iterations over the tracks in order; no bucket ever holds more than the cap |
| Bucketizer.InsertBuckets | public/playlists.js:129-142 | one iteration adds the track's bucket if missing, appends the track exactly when that bucket holds fewer than the cap, and changes no other bucket; a full bucket leaves the whole object unchanged |
| Bucketizer.InsertShape | public/playlists.js:129-142 | one iteration replaces at most the one bucket of the track's year and month |
| Bucketizer.BucketContents | public/playlists.js:126-145 | every bucket holds exactly the first `cap` tracks saved in its month, in input order |
| Bucketizer.BucketKeys | public/playlists.js:130-135 | a bucket exists exactly for the months some track was saved in |
| Bucketizer.SavedInSnoc | public/playlists.js:128 | one more track adds its own month to the months tracks were saved in |
| Bucketizer.BucketsWithinCap | public/playlists.js:137-142 | no bucket is larger than the cap, and with a positive cap none is empty |
| Bucketizer.MatchingContains | public/playlists.js:129-141 | a track saved in a month makes that month's list of tracks non-empty |
| Bucketizer.InsertSize | public/playlists.js:137-142 | one iteration stores one more track exactly when the bucket is below the cap |
| Bucketizer.SizesUpdate | public/playlists.js:141 | replacing one month's bucket replaces only that month's count |
| Bucketizer.YearSizesUpdate | public/playlists.js:141 | replacing one year's months replaces only that year's count |
| Bucketizer.NoOverflowSnoc | public/playlists.js:137 | no month overflows after one more track exactly when none did before and the new track's month was below the cap |
| Bucketizer.SizeOfEmpty | public/playlists.js:127 | the empty object stores no tracks |
| Bucketizer.StoredCountStep | public/playlists.js:137-142 | one more listed track is stored exactly when its month held fewer than the cap |
| Bucketizer.StoredCount | public/playlists.js:126-145 | at most as many tracks are stored as listed, and all of them exactly when no month exceeds the cap |
| Bucketizer.ThirdTrackDropped | public/playlists.js:137-139 | with a cap of 2, the third track of a month is dropped and the first two kept in order |
| Bucketizer.AllBuckets | public/playlists.js:126-145 | for every key at once: the bucket is the first `cap` tracks of its month, no bucket exceeds the cap, and with a positive cap none is empty |
| Bucketizer.GetDatedTracks | public/playlists.js:126-145 | the loop computes the fold `Bucketize` with the cap 10000; each bucket is the first 10000 tracks of its month, and non-empty |
| MapSums.SumValuesRemove | public/playlists.js:141 | the total count does not depend on the order in which buckets are counted |
| MapSums.SumValuesUpdate | public/playlists.js:141 | changing one bucket's count changes the total by the difference |
| Populator.Chunks | public/playlists.js:92-104 | the chunks concatenate to the URIs, each holds 1 to 100 URIs, and all but the last hold exactly 100 |
| Populator.ChunksUnique | public/playlists.js:92-104 | there is only one way to cut the URIs into such chunks |
| Populator.ChunksOfFullThenBuffer | public/playlists.js:96-104 | full chunks followed by a shorter remainder are chunked as those chunks, then the remainder if non-empty |
| Populator.FlattenSnoc | public/playlists.js:97 | sending one more chunk extends the sent URIs by that chunk |
| Populator.ChunksOf250 | public/playlists.js:92-104 | 250 URIs go out as 100, 100 and 50, in order |
| Populator.Uris | public/playlists.js:95 | one URI per track, in order |
| Populator.Requests | public/playlists.js:97 | one add-tracks request per chunk, in order, each for the same user, playlist and header |
| Populator.RequestsSnoc | public/playlists.js:97 | one more chunk appends one more request |
| Populator.UrisSnoc | public/playlists.js:94-95 | one more track appends one more URI |
| Populator.UrisPerRequest | public/playlists.js:116 | the URI list of each request, in order |
| Populator.PopulationSendsAllUris | public/playlists.js:83-105 | with a valid id the requests carry every track's URI once, in order, 1 to 100 per request and exactly 100 in all but the last; with an invalid id nothing is sent |
| Populator.PopulatePlaylist | public/playlists.js:83-105 | the requests sent are none for a `null` or empty id, and otherwise one per 100-URI chunk of the tracks, for this user, playlist and token |
| Retry.OnReply | public/playlists.js:64-78 | a reply leads to another attempt exactly when it is a 502 and the counter is below 3; a success ends the operation with its body |
| Retry.RunWithRetry | public/playlists.js:51-81 | the attempts form a run of the policy on the replies: 1 to 4 attempts of the same request, all but the last answered by a 502, the outcome decided by the last reply |
| Retry.OutcomeDetermined | public/playlists.js:64-78 | the replies determine the number of attempts and the outcome |
| Retry.FourBadGatewaysExceed | public/playlists.js:69-77 | four consecutive 502s end the operation after the fourth attempt with "exceeded max retries" |
| Retry.ThreeBadGatewaysThenSuccess | public/playlists.js:72-74 | after three 502s a fourth attempt is still made, and a success then ends the operation successfully |
| Retry.NoRetryWithout502 | public/playlists.js:64-79 | a success or another status on the first attempt means that attempt is the only one |
| Classifier.RangeArray | public/playlists.js:208-214 | the range holds `last - first + 1` strings (none when reversed), string k being the numeral of `first + k` |
| Classifier.GetRangeArray | public/playlists.js:208-214 | the loop builds exactly `RangeArray(first, last)` |
| Classifier.InRangeArray | public/playlists.js:208-214 | a string is in the range exactly when it is the numeral of some integer in it |
| Classifier.InArrayZero | public/playlists.js:201 | `$.inArray` returns 0, the one falsy index, exactly when the value is the first element |
| Classifier.LiteralLengths | public/playlists.js:193-200 | the literals whose lengths give the offsets are 7, 0, 2, 3 and 7 code units long |
| Classifier.PlaylistIsGeneratedByThis | public/playlists.js:188-206 | as written, only the user's own playlists with a name of 7 code units can be accepted |
| Classifier.NumeralsOfFirstMonthAndYear | public/playlists.js:197-198 | the first elements of the two ranges are "1" and "2000" |
| Classifier.AsWrittenAccepts | public/playlists.js:188-206 | as written, the test accepts exactly the user's own playlists whose name is 7 code units long and whose last four are not "2000" |
| Classifier.AsWrittenAcceptsMonth13 | public/playlists.js:199-203 | as written, "13 2017" is accepted |
| Classifier.AsWrittenRejectsJanuary2000 | public/playlists.js:200-205 | as written, "01 2000" is rejected |
| Classifier.AsWrittenAcceptsChillEmoji | public/playlists.js:193-203 | as written, an own playlist "Chill😀" is accepted: the emoji is a surrogate pair, so the name is 7 code units |
| Classifier.AsWrittenAcceptsWorkout | public/playlists.js:188-206 | as written, an own playlist "Workout", which the generator never names, is accepted |
| Classifier.WorkoutName | public/playlists.js:193-200 | "Workout" is 7 code units long, and its last four are not "2000" |
| Classifier.ChillEmojiName | public/playlists.js:193 | "Chill😀" is 7 code units long, and its last four are not "2000" |
| Classifier.MonthTokensShape | public/playlists.js:185-187 | each month token "01".."12" is two Basic Multilingual Plane characters |
| Classifier.PlaylistIsGeneratedByThisIntended | public/playlists.js:185-187 | the corrected test, too, accepts only the user's own playlists with a name of 7 code units |
| Classifier.IntendedMembership | public/playlists.js:185-187 | the corrected test accepts exactly the own 7-code-unit names whose first two code units are a listed month and last four a listed year |
| Classifier.IntendedAccepts | public/playlists.js:185-187 | the corrected test accepts exactly the user's own 7-code-unit names made of a month "01".."12", one code unit, and the numeral of a year 2000..2020 |
| Classifier.GeneratedNameShape | public/playlists.js:46 | a month token, a space and a four-digit year make a 7-code-unit name with the month at offset 0 and the year at offset 3 |
| Classifier.MonthTokenListed | public/playlists.js:185-187 | every month token is among the corrected test's months |
| Classifier.YearListed | public/playlists.js:197 | the numeral of every year 2000..2020 is among the years |
| Classifier.IntendedRecognisesGeneratedNames | public/playlists.js:185-187 | every name built from a month token and a year 2000..2020 is accepted by the corrected test |
| Classifier.NumeralsOf2017 | public/playlists.js:211 | 2017's numeral is "2017" |
| Classifier.NameParts | public/playlists.js:46 | the JavaScript string of `month + " " + year` is the parts' strings joined |
| Classifier.NameOfJuly2017 | public/playlists.js:46 | "07 2017" is the name built for month "07" of 2017 |
| Classifier.IntendedAcceptsJuly2017 | public/playlists.js:185-187 | "07 2017" is accepted |
| Classifier.NameOfJanuary2000 | public/playlists.js:46 | "01 2000" is the name built for month "01" of 2000 |
| Classifier.IntendedAcceptsJanuary2000 | public/playlists.js:185-187 | "01 2000" is accepted |
| Classifier.IntendedRejectsOtherMonths | public/playlists.js:185-187 | a name not starting with a month token is rejected |
| Classifier.Month13NotListed | public/playlists.js:198 | "13" is not among the month tokens |
| Classifier.IntendedRejectsMonth13 | public/playlists.js:185-187 | "13 2017" is rejected |
| Classifier.IntendedRejectsOtherOwner | public/playlists.js:189-191 | another user's playlist is rejected whatever its name |
| Classifier.EmojiUnits | public/playlists.js:193 | the emoji U+1F600 is the surrogate pair 0xD83D, 0xDE00 |
| Classifier.EightUnitName | public/playlists.js:193 | "01😀2018" is 8 code units long, the emoji being a surrogate pair |
| Classifier.IntendedRejectsEightUnitName | public/playlists.js:193-195 | "01😀2018" is rejected for its length |
| Classifier.Month13EndsOtherwise | public/playlists.js:193-200 | "13 2017" is 7 code units long and does not end in "2000" |
| Classifier.January2000EndsIn2000 | public/playlists.js:193-200 | "01 2000" is 7 code units long and ends in "2000" |
| Generator.PlaylistName | public/playlists.js:46 | `month + " " + year` reads back as the month, a space and the year |
| Generator.MonthlyPlaylists | public/playlists.js:42-49 | one planned playlist for each bucket, named after its month and holding its tracks, and no other |
| Generator.TracksOf | public/playlists.js:141 | the `track` objects of the saved tracks, one each, in order |
| Generator.GeneratePlaylists | public/playlists.js:7-49 | when the fetch finishes, every planned playlist holds at most 10000 tracks |
| Generator.GeneratePlaylistsAtTerminalPage | public/playlists.js:14-49 | when page t is the first without `next`, the plan is that of the saved tracks of pages 0..t, in page order |
| Generator.GeneratePlaylistsPlansIffTerminal | public/playlists.js:22-43 | playlists are planned exactly when the pages up to one without `next` were all delivered |
| Generator.PlannedPlaylistsWithinCap | public/playlists.js:42-49 | every planned playlist holds 1 to 10000 tracks, exactly the first ones saved in the month it is named after |
| Generator.SingleMonthMatching | public/playlists.js:126-145 | tracks all saved in one month all belong to that month, in order |
| Generator.SingleMonthBuckets | public/playlists.js:130-135 | tracks all saved in one month create no other month's bucket |
| Generator.SingleBucketPlan | public/playlists.js:44-48 | a single bucket plans exactly one playlist, named after its month and holding its tracks |
| Generator.OneMonthPlan | public/playlists.js:42-49 | 1 to 10000 tracks saved in one month plan exactly one playlist holding all of them |
| Generator.ChunksOf120 | public/playlists.js:92-104 | 120 URIs go out as 100 and 20 |
| Generator.OctoberPrefix | public/playlists.js:149-154 | "2016-10" is the year "2016", a `-` and the month "10" |
| Generator.KeyOfOctober2016 | public/playlists.js:149-154 | a timestamp starting "2016-10" is month "10" of year "2016" |
| Generator.NameOfOctober2016 | public/playlists.js:46 | October 2016's playlist is named "10 2016" |
| Generator.OctoberOf2016 | public/playlists.js:42-105 | 120 tracks of October 2016 plan one playlist "10 2016" with all of them, populated by requests of 100 and 20 URIs |
| Generator.CreateAndPopulatePlaylist | public/playlists.js:51-81 | every attempt is the same public create request with the fixed description; a success populates the created playlist once, any other ending adds nothing |
| Generator.UnfollowPlaylist | public/playlists.js:220-245 | every attempt is the same unfollow request for this user and playlist, retried under the same policy |
| Generator.Select | public/playlists.js:178-182 | the `forEach` with an `if`: an element is kept exactly when it is listed and accepted, and no more are kept than listed |
| Generator.SelectCounts | public/playlists.js:178-182 | an accepted element is kept once per occurrence, a rejected one never |
| Generator.SelectConcat | public/playlists.js:178-182 | filtering a list split in two filters each part, the first part's elements first, so listing order is kept |
| Generator.PlaylistsToUnfollow | public/playlists.js:177-183 | the playlists unfollowed are exactly the listed ones the corrected test accepts, no more of them than were listed |
| Generator.PlaylistsToUnfollowCounts | public/playlists.js:178-182 | a playlist is unfollowed once for each time it is listed when the corrected test accepts it, and never otherwise |
| Generator.PlaylistsToUnfollowInOrder | public/playlists.js:178-182 | the playlists of an earlier part of the listing are unfollowed before those of a later part, each part filtered on its own |
| Generator.UnfollowAllPlaylists | public/playlists.js:164-183 | cleanup never selects another user's playlist, nor a name of any length but 7 code units |
| Generator.UnfollowAllPlaylistsAtTerminalPage | public/playlists.js:171-183 | when page t is the first without `next`, the playlists unfollowed are the generated ones among those of pages 0..t, in listing order |
| Generator.UnfollowAllPlaylistsIffTerminal | public/playlists.js:171-178 | playlists are unfollowed exactly when the pages up to one without `next` were all delivered |
| Generator.CleanupFindsGeneratedPlaylist | public/playlists.js:177-206 | a listed playlist the generator would have named for a month of 2000..2020 is selected by cleanup |

## Left out

- HTTP transport (`$.ajax`), URLs, JSON bodies and headers other than `Authorization`: each request is recorded as a value, and the server is replaced by the sequence of responses or replies the requests receive.
- `localStorage` and `refresh_token`: the access token is a parameter. A missing (`null`) token is not modelled, and the refresh token is never used by this code.
- `get_my_user_id` reads the page's DOM: the user id is a parameter.
- `console.log` output, including the over-limit message of `get_dated_tracks` and the count warning of `get_next_batch_of_items`. The warning is kept as the `countMismatch` flag.
- Concurrency: the requests of different months and playlists run concurrently in the source. Here the fan-out is a set (months) or a list (playlists), and each request chain is modelled on its own, with its own replies.
- The reply to an add-tracks request, and the order in which the service applies them: the source does not look at either.
- A create reply whose body has no `id` (`undefined`): the model's reply carries an optional id, so only `null` and `""` are among the invalid ids.
- What unfollowing does on the service side (the source notes it does not work). Only the requests sent are modelled.
- `app.js` (the OAuth server) and the HTML page are not part of this model.
- The iteration order of `$.each` over the bucket object: the monthly plan is a set.
- Track URIs, user ids, playlist ids and tokens are Dafny texts: the code only compares and concatenates them, never measures or cuts them.
- JsBuiltins.IntToString: matches `Number.prototype.toString` only for integers of magnitude below 10^21, where JavaScript switches to exponent notation; the code only converts 1..12 and 2000..2020.
- Generator.PlaylistsToUnfollow, Generator.UnfollowAllPlaylists: cleanup is modelled with the corrected test `PlaylistIsGeneratedByThisIntended`, not the test as written, so the model does not unfollow the ordinary own playlists (such as "Workout") that the code as written would unfollow; `Classifier.AsWrittenAccepts` states what the code as written selects.
- Classifier.GetRangeArray: JavaScript numbers are doubles, so above 2^53 `i++` stops advancing and the source's loop would not end; the model's integers are unbounded, and the code only calls it with 1..12 and 2000..2020.

## Findings

| source | as written | input that shows it | evidently intended | confidence | as-written member | corrected member |
|---|---|---|---|---|---|---|
| public/playlists.js:197-203 | `$.inArray(m, months) && $.inArray(y, years)` tests the returned indices for truthiness, against the unpadded numerals "1".."12": it is false only when an index is 0, and -1 (absent) is truthy | an own playlist named "13 2017", or "Workout", is accepted; "01 2000" is rejected | a month "01".."12" and a year "2000".."2020", each tested with `!= -1` | not executed | Classifier.PlaylistIsGeneratedByThis (Classifier.AsWrittenAccepts, Classifier.AsWrittenAcceptsMonth13, Classifier.AsWrittenRejectsJanuary2000, Classifier.AsWrittenAcceptsWorkout) | Classifier.PlaylistIsGeneratedByThisIntended (Classifier.IntendedAccepts, Classifier.IntendedAcceptsJanuary2000, Classifier.IntendedRejectsMonth13), used by Generator.PlaylistsToUnfollow |
