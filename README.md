# Playlist generator: a Dafny model of its decision logic

`generate.py` signs in to a music-streaming service with OAuth2. It scrapes a
chart page for (song, artist) pairs and keeps the pairs whose artist is on an
allow-list. It then drops the pairs it has already recorded in a local sqlite
database, looks each remaining pair up through the search endpoint and adds
the tracks it finds to a playlist. Most of the script is HTTP, HTML and SQL
glue. This project models the decisions made inside that glue and proves what
they guarantee:

- **Token lifecycle** (`get_access_token`, `fetch_access_token`,
  `fetch_refreshed_token`, `check_token_validity`). The `tokens` table is an
  append-only sequence of rows. The current row is the one with the largest
  `add_time`. With no row, the authorization code is exchanged. A row younger
  than one hour (strictly) is reused. An older row is refreshed with its own
  refresh token.
- **Artist filter** (`select_desirable_songs`). Each artist string is split on
  `"\xa0feat. "`, then on `'&'`. Each name is right-stripped and kept only if
  it is exactly an entry of the lower-cased allow-list.
- **Dedup guard** (`remove_already_added_songs`), modelled as written. With an
  empty `songs` table it records and returns every pair. With a non-empty
  table it records the pairs it has not seen and returns `None`.
- **URI resolution** (`fetch_songs_uri`). One search per pair. The first
  result's URI is kept when there is a result.
- **Smaller pieces**: the playlist pick (`fetch_playlist`), the status test of
  `add_to_playlist`, the whitespace normalisation and lower-casing of scraped
  text (`fetch_hot_songs`), and the extraction of the code from the redirect
  URL (`fetch_auth_code`).

Files:

- `wrappers.dfy`: `Option` and `Result`.
- `pystr.dfy` (module `PyStr`): the Python string built-ins the script relies
  on. These are `str.split`, `str.rstrip()`, `re.sub(' +', ' ', s)` and
  `str.lower()` on ASCII letters. `Split` comes with its inverse `Join`.
- `generate.dfy` (module `Generate`): everything else. The two sqlite tables
  are the `seq` fields `tokens` and `songs` of the class `Store`. Its methods
  append to them the way the source's `INSERT`s do. Each such method is tied
  by its postcondition to a pure function of the old table: `AccessTokenStep`,
  `ExchangeCode`, `Refresh`, `Dedup` and `DedupFixed`. The lemmas state the
  properties of those functions.

Each HTTP exchange is a function parameter. `post: TokenRequest ->
TokenResponse` is the token endpoint. `search: string -> seq<string>` maps a
query to the URIs of its results. The clock is an integer `now` in
microseconds passed in by the caller, and one hour is `3_600_000_000`.

Behaviour of the code that is easy to misread, which the model keeps:

- The filter strips only trailing whitespace and does not lower-case artist
  names; the pairs were lower-cased when they were scraped. A name after
  `'&'` keeps its leading space: `"bob & carol"` yields `"bob"` and
  `" carol"`. So `" carol"` matches only an allow-list entry spelled with that
  leading space.
- With an empty `songs` table the dedup guard returns the whole input,
  duplicates included. With a non-empty table it returns `None`.
- The status test of `add_to_playlist` treats only 400, 403 and 404 as errors. Any other status, 401 or 429 included, is reported as success.
- The `add_time` of a refreshed row is `now`, and that row keeps the old
  refresh token even when the response carries a new one.

## Model

| member | source | states |
|---|---|---|
| `Generate.TokenValid` | generate.py:130-133 | a row stamped at or after `now` is valid, and a row one hour old or older is not |
| `Generate.OneHourOldIsExpired` | generate.py:130-133 | a token exactly one hour old is invalid, and one a microsecond younger is valid (the comparison is strict) |
| `Generate.ExpiryIsPermanent` | generate.py:130-133 | once a token is invalid at some instant, it is invalid at every later instant |
| `Generate.NewRow` | generate.py:68-73 | a row is built exactly when the response has all four keys and a refresh token is at hand; it carries those values and add_time `now`; a missing `access_token` raises KeyError for that key, and every failure is a KeyError |
| `Generate.Latest` | generate.py:36-39 | the selected row is absent exactly for an empty table; otherwise it is a row of the table whose add_time is at least every row's add_time |
| `Generate.LatestAfterAppend` | generate.py:75-78 | a row appended with an add_time no smaller than any existing one becomes the selected row |
| `Generate.TokensAppendOnly` | generate.py:34-48 | a call leaves the existing rows untouched and appends at most one row; a failed call appends none |
| `Generate.ValidTokenIsReused` | generate.py:39-45 | when the latest row is still valid, its access token is returned and the table is unchanged |
| `Generate.ExpiredTokenIsRefreshed` | generate.py:82-105 | when the latest row has expired, exactly one row is appended; it carries the old row's refresh token, the response's access token and add_time `now`, and the response's access token is returned |
| `Generate.EmptyTableExchangesCode` | generate.py:46-79 | with an empty table the authorization code is exchanged; exactly one row, built from the response with the response's refresh token, is appended, and its access token is returned |
| `Generate.ReturnedTokenIsLatest` | generate.py:34-48 | a successful call returns the access token of the table's latest row afterwards, for every table, including one holding a row stamped after `now` |
| `Generate.SecondCallIsServedFromTable` | generate.py:34-48 | after a successful call, a second call at the same instant returns the same token, makes no request and leaves the table unchanged |
| `Generate.Store.constructor` | generate.py:244-253 | the store opens with the rows the two tables already hold |
| `Generate.Store.FetchAccessToken` | generate.py:51-79 | the new table and result are those of `ExchangeCode`: the row built from the code-exchange response is appended and the latest row is returned, or a KeyError for the first missing key leaves the table unchanged |
| `Generate.Store.FetchRefreshedToken` | generate.py:82-105 | the new table and result are those of `Refresh`: the row keeping the given refresh token is appended and the response's access token is returned, or a KeyError leaves the table unchanged |
| `Generate.Store.GetAccessToken` | generate.py:34-48 | the new table and result are those of `AccessTokenStep`, about which the token lemmas above are proved |
| `Generate.SelectDesirableSongs` | generate.py:178-188 | the loops produce exactly the allow-listed candidates of all input pairs, in input order and then split order |
| `Generate.AppendCredits` | generate.py:184-186 | the inner loops append one (song, right-stripped name) pair per name of every group, group by group |
| `Generate.DesirableMembership` | generate.py:188 | a pair passes the final filter if and only if it is a candidate and its artist is in the allow-list |
| `Generate.CleanedMembership` | generate.py:181-186 | a pair is a candidate if and only if it comes from the expansion of some input pair |
| `Generate.SelectedPairs` | generate.py:180-188 | a pair is selected if and only if its artist is in the lower-cased allow-list and it is a candidate of some input pair; its song is that input pair's song |
| `Generate.SelectionKeepsOrder` | generate.py:181-188 | selecting from `a + b` gives the selection from `a` followed by the selection from `b` |
| `Generate.SingleCandidate` | generate.py:182-186 | an artist string with neither separator yields exactly one candidate, the right-stripped string |
| `Generate.AmpersandKeepsLeadingSpace` | generate.py:182-186 | `a & b` (no feat. separator) yields the candidates `a` and `b`, each only right-stripped |
| `Generate.FeaturedAndCoCredited` | generate.py:182-186 | `m\xa0feat. f & c` yields the candidates `m`, `f` and `c` in that order, each only right-stripped |
| `Generate.FeaturingExample` | generate.py:182-186 | `alice\xa0feat. bob & carol` yields `alice`, `bob` and ` carol` (leading space kept) |
| `Generate.ResolvedUris` | generate.py:226-240 | at most one URI per input pair |
| `Generate.FetchSongsUri` | generate.py:226-240 | the loop returns exactly the resolved URIs of the pairs in order |
| `Generate.ResolvedSinglePair` | generate.py:232-239 | a pair queried as `song + " " + artist` contributes its top result's URI, or nothing when the search finds nothing |
| `Generate.ResolvedUrisConcat` | generate.py:231-239 | resolving `a + b` gives the URIs of `a` followed by those of `b`, so output order follows input order |
| `Generate.ResolvedUrisAreTopResults` | generate.py:238-239 | every returned URI is the first search result for some input pair |
| `Generate.Store.RemoveAlreadyAddedSongs` | generate.py:209-223 | the new `songs` table and the result are those of `Dedup`, the as-written guard |
| `Generate.UnseenMembership` | generate.py:217 | a pair is kept by the comprehension if and only if it is an input pair absent from the snapshot |
| `Generate.DedupRecordsEveryPair` | generate.py:213-222 | the guard never removes or alters recorded pairs, and afterwards every input pair is recorded |
| `Generate.DedupAppendsUnseen` | generate.py:216-219 | with a non-empty table, the appended pairs are exactly the input pairs absent from the pre-call table, and None is returned |
| `Generate.RecordedTableReturnsNone` | generate.py:216-219 | once a non-empty batch has been recorded, every later call returns None |
| `Generate.Store.RecordNewSongs` | generate.py:209-223 | corrected guard: returns and records exactly the pairs not recorded before, whether or not the table was empty |
| `Generate.FixedAgreesOnEmptyTable` | generate.py:220-223 | on an empty table the corrected guard returns and records exactly what the original does |
| `Generate.FixedRerunFindsNothing` | generate.py:209-223 | re-running the corrected guard on the same pairs returns no pairs and records nothing |
| `Generate.NewAtMostOnce` | generate.py:209-223 | a pair returned as new by the corrected guard is not returned as new by the next call |
| `Generate.UnseenConcat` | generate.py:217 | the comprehension over `a + b` gives its result over `a` followed by its result over `b`, so new pairs keep input order |
| `Generate.UnseenCount` | generate.py:217 | a pair occurs among the kept pairs as often as in the input when it is absent from the snapshot, and never otherwise |
| `Generate.FixedExtendsTable` | generate.py:220-223 | the corrected guard keeps the old table as a prefix of the new one |
| `Generate.RecordedOnce` | generate.py:209-223 | a new pair occurring once in the batch is recorded exactly once afterwards; a recorded pair keeps its count |
| `Generate.SameBatchDuplicateRecordedTwice` | generate.py:217-219 | a new pair given twice in one batch is returned and recorded twice |
| `Generate.StaysRecorded` | generate.py:209-223 | a recorded pair is still recorded after any sequence of runs of the corrected guard |
| `Generate.NewOnOneRunOnly` | generate.py:209-223 | a pair returned as new on one run is not returned as new on any later run, whatever the later runs are given |
| `Generate.FetchPlaylist` | generate.py:144-153 | an id is returned if and only if the listing is non-empty and its first playlist has the wanted name; the id is that playlist's |
| `Generate.FetchPlaylistMissesLaterMatch` | generate.py:149-153 | a listing whose wanted playlist is second yields None |
| `Generate.FindPlaylist` | generate.py:144-153 | corrected lookup: an id is returned if and only if some playlist has the wanted name, and it is the id of the first such playlist |
| `Generate.FindPlaylistExtendsFetch` | generate.py:149-153 | wherever the original finds a playlist, the corrected lookup finds the same one |
| `Generate.AddSucceeded` | generate.py:203 | 400, 403 and 404 are failures; every 2xx and every 5xx status counts as success; a failure has a status between 400 and 404 |
| `Generate.OtherClientErrorsCountAsSuccess` | generate.py:203 | every 4xx status other than 400, 403 and 404 (401, 402, 405 and 429 among them) is reported as success |
| `Generate.NormalizedIsClean` | generate.py:166 | normalised text has no two neighbouring spaces and does not end in whitespace |
| `Generate.NormalizeIdempotent` | generate.py:166 | normalising normalised text changes nothing |
| `Generate.EntryPairIsClean` | generate.py:165-173 | both fields of a scraped pair are free of space runs, and neither ends in whitespace |
| `Generate.FetchHotSongs` | generate.py:156-175 | the loops build one normalised, lower-cased pair per chart entry, in page order, and return the allow-listed selection of them |
| `Generate.AuthCodeFrom` | generate.py:115 | a code is extracted exactly when the URL contains `?code=`, otherwise IndexError; the code contains no `?code=` and is a prefix of the text after the first marker |
| `Generate.AuthCodeRoundTrip` | generate.py:115 | from `base?code=CODE`, with no `?` in `base` and no `?code=` in CODE, the code extracted is CODE |
| `Generate.AuthCodeMissing` | generate.py:115 | a redirect URL without `?code=` raises IndexError |
| `PyStr.FindFrom` | generate.py:115 | the index returned is the first occurrence of the separator at or after the start; None means there is none |
| `PyStr.Split` | generate.py:182 | `s.split(sep)` always has at least one piece |
| `PyStr.SplitCutsIffContains` | generate.py:115 | `s.split(sep)` has exactly one piece if and only if `s` does not contain `sep`, so indexing `[1]` fails exactly then |
| `PyStr.SplitFirstPieceIsPrefix` | generate.py:182 | the first piece is a prefix of `s`; when `sep` occurs, it ends right where the first occurrence starts |
| `PyStr.JoinSplit` | generate.py:182 | joining the pieces of `s.split(sep)` with `sep` gives back `s` |
| `PyStr.SplitPiecesAreFree` | generate.py:182 | no piece of `s.split(sep)` contains `sep` |
| `PyStr.SplitWithoutSeparator` | generate.py:182 | a string without the separator splits into itself alone |
| `PyStr.SplitFirst` | generate.py:182 | when `a` lacks the separator's first character, `(a + sep + b).split(sep)` is `[a]` followed by `b.split(sep)` |
| `PyStr.RStripIsTrailingTrim` | generate.py:186 | `rstrip()` returns a prefix that does not end in whitespace, and only whitespace was removed |
| `PyStr.RStripIdempotent` | generate.py:186 | stripping twice is stripping once |
| `PyStr.CollapseSpaces` | generate.py:166 | the result has no two neighbouring spaces, keeps the first character and keeps every non-space character in order |
| `PyStr.CollapseAppend` | generate.py:166 | text ending in a non-space collapses independently of what follows it |
| `PyStr.CollapseRun` | generate.py:166 | one or more spaces in front of a non-space become a single space |
| `PyStr.RunBecomesOneSpace` | generate.py:166 | a run of one or more spaces between two non-spaces becomes exactly one space, each side collapsed on its own |
| `PyStr.CollapseKeepsCollapsed` | generate.py:166 | text without space runs is left unchanged |
| `PyStr.Lower` | generate.py:173 | lower-casing keeps the length, leaves no ASCII capital and leaves every other character where it was |
| `PyStr.LowerIdempotent` | generate.py:173 | lower-casing lower-cased text changes nothing |
| `PyStr.LowerKeepsSpaces` | generate.py:173 | at every position, a character is a space (or whitespace) after lower-casing exactly when it was one before |

## Left out

- HTTP requests (lines 58, 88, 139, 147, 158, 201, 236) are not modelled. Each response is a parameter of the member that reads it.
- JSON decoding is not modelled. A token response is a record whose keys may each be missing, and a missing key is a KeyError. JSON `null` values and non-JSON bodies are not modelled. Nor are missing keys in the search, playlist and profile responses (`['tracks']['items']`, `['items']`, `['id']`).
- `fetch_user_profile` is left out: it is one HTTP request and one key lookup.
- `authenticate_client`, `get_auth_code`, `save_auth_code` and `prompt_user_input` are left out: they are the `auth.txt` file I/O, the browser and stdin. Of `fetch_auth_code`, only the split at line 115 is modelled.
- The HTML traversal with BeautifulSoup (lines 159-171) is a foreign library. A chart entry is given as the text of its title link and of its artist-info elements.
- Of `add_to_playlist`, only the status test at line 203 is modelled. Its POST, its printing and its chaining of the dedup guard into `fetch_songs_uri` are I/O and composition.
- The `__main__` block (lines 243-259) is left out: it opens the connection, creates the tables and chains the steps.
- The Basic-auth header (base64 of the client id and secret) and the `redirect_uri` field are not modelled. A request carries only its grant.
- Timestamps are integers, and `datetime.now()` and `strptime` are not modelled. The source reads the clock twice, once to check validity and once to stamp the new row; the model uses one `now` per call.
- `Latest`: SQL leaves the order of rows with equal `add_time` unspecified; the model takes the row inserted last. The source orders the stored timestamps as text; for the format it writes, that is chronological order, which is what the model's integer order is.
- The nullable `refresh_token` column is not modelled. A stored row always has a refresh token.
- `PyStr.Lower`: `str.lower()` is modelled on ASCII letters only. Other characters are left unchanged, whereas Python also lower-cases non-ASCII letters.
- `Generate.DedupFixed`: a pair that occurs twice in one batch and is new to the table is returned and recorded twice, as the source's comprehension keeps both. So "each pair is recorded once" is proved only for pairs that occur once in their batch (`Generate.RecordedOnce`). The guard does not deduplicate within a batch, in the source or in the corrected model.
- `CREATE TABLE if not exists songs` at line 213 is not modelled as a step. The store holds both tables from the start.

## Findings

| source | as written | input that shows it | evidently intended | confidence | as-written member | corrected member |
|---|---|---|---|---|---|---|
| generate.py:216-219 | with a non-empty `songs` table the new pairs are inserted, but the branch has no `return`, so the function returns `None`; `add_to_playlist` then iterates that `None` in `fetch_songs_uri` (line 194, 231) | any call once the `songs` table holds a pair, for example a second run after a first run that recorded one pair | return `new_songs`, the pairs not recorded before | high; not executed | `Generate.RecordedTableReturnsNone` | `Generate.Store.RecordNewSongs` |
| generate.py:149-153 | the `else: return None` sits inside the loop, so only the first playlist of the listing is compared with the wanted name | listing `[("Liked", "1"), ("Automated Playlist", "2")]` looked up by name `"Automated Playlist"` returns `None` | return `None` only after the loop has looked at every playlist | high; not executed | `Generate.FetchPlaylistMissesLaterMatch` | `Generate.FindPlaylist` |

The corrected members stand beside the as-written ones. `Generate.Store.RemoveAlreadyAddedSongs` and `Generate.FetchPlaylist` remain the model of the code.
