# genre-bot, modelled in Dafny

genre-bot is a Discord bot for rating music genres from a fixed catalog. The
catalog is a list of genre names, and a genre's id is its position in that
list. Each user has:

- a cursor, which `/next` uses to walk the catalog;
- one rating record per genre: a "skip" score and a "kiff" score, each 0 to 10,
  two flags ("Special" and "Flou"), a comment and a timestamp.

A computed score combines the two scores. `/search`, `/info`, `/rank` and
`/stats` read the catalog and the ratings. The search results and the ranking
are paginated views with previous/next buttons, and the ranking also has an
order selector.

This project models that engine, all of which lives in `main.py`:

| file | module | what it holds |
|---|---|---|
| `wrappers.dfy` | `Wrappers` | `Option` and `Result` |
| `text.dfy` | `Text` | ASCII `str.strip()`, `str.lower()`, the substring test, and `int()` in base 10 |
| `scoring.dfy` | `Scoring` | `computed_score` over exact reals |
| `store.dfy` | `RatingStore` | the progress and ratings tables as maps in the class `Store`; the upsert merge |
| `commands.dfy` | `Commands` | the `/next` cursor, `/info`, and the `/search` filter |
| `genre_view.dfy` | `GenreView` | `parse_score`, the rating form's submission, and the two flag toggles |
| `paging.dfy` | `Paging` | page count, page slice, clamped moves, button state, and the class `SearchResultsView` |
| `ranking.dfy` | `Ranking` | rank items, the stable sort, the class `RankView`, rank labels, and `/stats` |

The tables are maps, and the operations that change them are methods of
`Store` or take a `Store`. The views are classes with mutable `page`, `order`
and button fields. The pure parts are functions, and lemmas state their
properties: the score rule, score parsing, the search comprehension, the page
arithmetic, and the sort.

Where the code and its documented intent disagree, the model follows the code:

- The stored cursor is bounded to `[1, n]`, not unbounded. `next_genre`
  reduces it modulo `n` before it stores `served + 1` (`main.py:274-280`).
- `_page_slice` returns an end offset `start + page_size` that is not clamped.
  Only the slice itself stops at the end of the list (`main.py:299-302`,
  `main.py:520-524`).
- A comment field that holds only whitespace is truthy, so `on_submit` strips it
  to `""`, which overwrites the stored comment. It does not become `None`
  (`main.py:209`).
- `stats` counts Special rows and skips them before counting eligible rows, so
  `special + eligible == total` (`main.py:425-430`).

## Model

| member | source | states |
|---|---|---|
| RatingStore.Store.GetUserIdx | main.py:83-92 | returns the stored cursor, or 0 for an unseen user; afterwards that value is stored for the user; ratings are unchanged |
| RatingStore.Store.SetUserIdx | main.py:95-101 | overwrites the user's cursor whatever it was; nothing else changes |
| RatingStore.Store.GetRating | main.py:104-112 | returns a record exactly when one is stored for (user, genre), and then it is that record |
| RatingStore.Store.UpsertRating | main.py:115-147 | the (user, genre) record becomes the merge of the stored record with the update; every other record and the progress table are unchanged |
| RatingStore.Merged | main.py:120-133 | the record `upsert_rating` writes (no contract of its own; MergedFields states it field by field) |
| RatingStore.MergedFields | main.py:115-131 | a given field overwrites; an absent field keeps the stored value, or with no record stays None (scores, comment) or becomes 0 (flags); the timestamp is always refreshed |
| RatingStore.MergedTwice | main.py:115-147 | two upserts in sequence equal one upsert of the combined update, where the later given fields win |
| RatingStore.MergedIdempotent | main.py:115-147 | repeating the same upsert changes nothing further |
| RatingStore.MergedNeverClears | main.py:120-126 | no upsert turns a stored score or comment back into None |
| RatingStore.UpsertExample | main.py:115-147 | setting skip to 7 and then the comment to "x" leaves both in the record |
| RatingStore.Store.FetchUserRows | main.py:394-405 | each row is one of the user's records with its genre id; every record of the user appears; no genre appears twice |
| Commands.NextGenre | main.py:270-280 | serves id `cursor mod n` with its name, where the cursor is 0 for a new user; stores served id + 1, which lies in `[1, n]`; ratings are unchanged |
| Commands.Cursor | main.py:86-92 | the cursor `get_user_idx` reads: the stored one, or 0 for a user with none (no contract of its own; NextGenre and NextGenreTimes state their results through it) |
| Commands.ServedIds | main.py:273-280 | the ids k successive `/next` commands serve from a cursor: k ids, each in `[0, n)` |
| Commands.NextGenreTimes | main.py:270-280 | k successive `/next` commands on the store serve exactly `ServedIds` from the cursor stored before the first, leave the ratings unchanged, and leave the progress table as it was except that the user's cursor becomes the last served id + 1 (for k ≥ 1) |
| Commands.ServedIdsCycle | main.py:273-280 | the j-th id of `ServedIds` from cursor c, and so of k successive `/next` commands, is `(c + j) mod n` |
| Commands.FreshUserCycle | main.py:83-92 | `ServedIds` from cursor 0 over n + 3 steps is 0, 1, …, n−1, then 0, 1, 2 (mod n) |
| Commands.FreshUserNextGenres | main.py:270-280 | a user with no stored cursor who sends `/next` n + 3 times is served 0, 1, …, n−1, then 0, 1, 2 (mod n); the ratings are unchanged and the user's stored cursor becomes `2 mod n + 1`, every other cursor kept |
| Commands.InfoGenre | main.py:368-374 | returns a name exactly when `0 <= id < n`, and then it is the catalog entry at that id |
| Commands.ServedIdsResolve | main.py:273-276 | every id `/next` serves is accepted by `/info` |
| Commands.MatchesFrom | main.py:357 | the comprehension over `enumerate(genres)` from a position on (no contract of its own; MatchesFromExact states what it lists) |
| Commands.MatchesFromExact | main.py:357 | the comprehension lists exactly the genres whose lower-cased name contains the query: each listed pair is a catalog entry, ids strictly increase, and no match is missed |
| Commands.SearchGenres | main.py:351-361 | the query is refused exactly when it is blank after strip; "no match" means that no lower-cased name contains the stripped, lower-cased query; otherwise the results are non-empty and are exactly the matches, in catalog order |
| Commands.SearchResultsResolve | main.py:357 | every listed (id, name) is accepted by `/info` with that same name |
| GenreView.ParseScore | main.py:186-195 | None or blank text means no score; otherwise it is accepted exactly when the stripped text parses as an integer in 0..10, and the accepted value is that integer |
| GenreView.ScoreOf | main.py:190-195 | the verdict on stripped text: an accepted value always lies in 0..10 |
| GenreView.StrippedScore | main.py:186-191 | text that is already stripped and not empty is judged as it stands |
| GenreView.ScoreOfInteger | main.py:192-195 | non-empty stripped text that reads as n is accepted exactly when `0 <= n <= 10` |
| GenreView.ParseScoreOfTrimmed | main.py:189-195 | stripped text that reads as n is accepted exactly when `0 <= n <= 10`, and refused as out of range otherwise |
| GenreView.ParseScoreDecimal | main.py:192-195 | the decimal rendering of n is accepted as n when `n <= 10`, and refused otherwise |
| GenreView.ParseScoreNegative | main.py:193-194 | a negative number is always refused |
| GenreView.CommentArg | main.py:209 | None exactly when the field is missing or empty; otherwise it is the stripped text |
| GenreView.SubmitRating | main.py:185-210 | if either score is refused, the outcome is invalid and the store is untouched; otherwise the record becomes the merge with both parsed scores and the comment; flags and progress are unchanged |
| GenreView.SubmissionKeeps | main.py:185-210 | a submission keeps both flags, never clears a stored score or comment, and keeps a score whose field was blank |
| GenreView.Toggled | main.py:228-235 | the written flag is 0 or 1, and it is 1 exactly when nothing is stored or the stored flag is 0 |
| GenreView.ToggleFlag | main.py:226-250 | the record becomes the merge of the stored record with an update that gives only the toggled flag; progress is unchanged |
| GenreView.ToggleChangesOnlyThatFlag | main.py:226-250 | the chosen flag becomes the negation of the stored one (1 with no record); the scores, the comment and the other flag are kept (None/None/0 with no record) |
| GenreView.ToggleTwice | main.py:226-250 | two presses restore whether the flag is set and change nothing else but the timestamp |
| Scoring.ComputedScore | main.py:377-391 | None exactly when special is set or a score is missing; otherwise the result lies between the two scores |
| Scoring.ComputedScoreInHundredths | main.py:388-391 | in hundredths, the result is `35 skip + 65 kiff` with flou and `50 skip + 50 kiff` without |
| Scoring.ComputedScoreInRange | main.py:377-391 | with both scores in 0..10, the result lies in 0..10 |
| Scoring.FlouShiftsTowardsKiff | main.py:388-391 | the flou weighting equals the even weighting plus `0.15 (kiff − skip)` |
| Scoring.ComputedScoreMonotoneInKiff | main.py:388-391 | a higher kiff never lowers the score |
| Scoring.ComputedScoreExample | main.py:377-391 | skip 8 and kiff 6 give 7.0, or 6.7 with flou, and None when special |
| Paging.TotalPages | main.py:296-297 | exactly one page for no items, and otherwise the fewest pages of `page_size` that hold every item |
| Paging.PrevPage | main.py:333 | `max(0, page − 1)` (no contract of its own; NavigationClamps states its properties) |
| Paging.NextPage | main.py:339 | `min(pages − 1, page + 1)` (no contract of its own; NavigationClamps states its properties) |
| Paging.NavigationClamps | main.py:332-341 | prev and next keep the page in range, prev stays at 0, next stays on the last page, and away from the ends each undoes the other |
| Paging.PageSlice | main.py:299-302 | start is `page * k`, end is `start + k` (not clamped), and the slice is the items from start, at most k of them, cut at the end of the list |
| Paging.ValidPageSlice | main.py:299-302 | a page in range starts inside the list and shows between 1 and k items when there are any |
| Paging.PageOfItemInRange | main.py:296-302 | the page `i / k` of any item i is one of the pages |
| Paging.ItemOnItsPage | main.py:299-302 | item i is shown on page `i / k`, which is in range, at offset `i − start` |
| Paging.SearchResultsView.constructor | main.py:287-294 | the view opens on page 0 with the buttons in a consistent state |
| Paging.SearchResultsView.UpdateButtons | main.py:319-322 | prev is disabled exactly on page 0 and next exactly on the last page; the page is kept |
| Paging.SearchResultsView.Prev | main.py:331-335 | the page becomes `max(0, page − 1)`; the buttons match the new page |
| Paging.SearchResultsView.Next | main.py:337-341 | the page becomes `min(pages − 1, page + 1)`; the buttons match the new page |
| Paging.SearchResultsView.CurrentPage | main.py:299-302 | start is `page * k`, end is `start + k`, and the page shows exactly `min(k, n − start)` results, the ones from start on (at least one when there are any) |
| Ranking.RankItems | main.py:573-578 | as many items as rows with a computed score; an item is in the list exactly when some row gives it (score, id and catalog name) |
| Ranking.RankItemsInFetchOrder | main.py:573-578 | the items keep the fetch order: the scored row at position j gives item number c, where c counts the scored rows before it |
| Ranking.ItemOfScoredRow | main.py:573-578 | the same for one scored row j |
| Ranking.SortByScore | main.py:513-515 | a permutation, ordered by score in the chosen direction, where items of equal score keep their original order |
| Ranking.InsertOrdered | main.py:513-515 | inserting into an ordered list keeps it ordered |
| Ranking.InsertStable | main.py:513-515 | an inserted item goes ahead of the items with its own score, whose order is kept |
| Ranking.InsertPermutes | main.py:513-515 | insertion adds exactly the one item |
| Ranking.Top | main.py:464 | `scored_items[:k]`: the first `min(k, n)` items |
| Ranking.BottomReversed | main.py:465 | `scored_items[-k:][::-1]` for k ≥ 1: `min(k, n)` items, the last item first |
| Ranking.TopAndBottom | main.py:463-465 | for k ≥ 1, top-k and bottom-k have `min(k, n)` items; the top k score at least as much as every later item; the bottom k come worst first, in ascending order, and score at most as much as every earlier item |
| Ranking.TopScoresMost | main.py:464 | the first k items of a descending list score at least as much as every later item |
| Ranking.BottomAscending | main.py:465 | the last k items of a descending list, reversed, come in ascending order |
| Ranking.BottomScoresLeast | main.py:465 | the last k items of a descending list score at most as much as every earlier item |
| Ranking.Stats | main.py:407-465 | total, special, eligible, flou and scored counts equal the counts of rows with each property; `special + eligible == total`; scored and flou are at most eligible; top5 and bottom5 come from the descending stable sort of the rank items |
| Ranking.RankView.constructor | main.py:493-505 | the view opens in descending order, on page 0, with 15 items a page |
| Ranking.RankView.SortedItems | main.py:513-515 | the items, permuted, ordered by score in the current order, with equal scores kept in their original order |
| Ranking.RankView.CurrentPage | main.py:520-524 | start is `page * 15`, end is `start + 15`, total is the item count, and the page shows exactly `min(15, n − start)` entries, the sorted items from start on |
| Ranking.RankView.UpdateButtons | main.py:546-549 | prev is disabled exactly on page 0 and next exactly on the last page; page and order are kept |
| Ranking.RankView.Prev | main.py:551-555 | the page becomes `max(0, page − 1)`; the order is kept; the buttons match the page |
| Ranking.RankView.Next | main.py:557-561 | the page becomes `min(pages − 1, page + 1)`; the order is kept; the buttons match the page |
| Ranking.RankView.SelectOrder | main.py:485-489 | choosing an order sets it and returns to page 0, with prev disabled |
| Ranking.RankLabel | main.py:539-541 | `start + 1 + idx` (no contract of its own; RankLabelIsPosition states what it means) |
| Ranking.RankLabelIsPosition | main.py:539-541 | the label `start + 1 + idx` of a shown entry is that entry's 1-based position in the sorted list |
| Ranking.Rank | main.py:568-590 | no view exactly when no row has a computed score; otherwise a fresh view owned by the user over the rank items, descending, on page 0, 15 items a page |
| Text.Strip | main.py:352 | no whitespace is left at either end, and the result is empty exactly when the text is blank |
| Text.LeadingBlanks | main.py:352 | the length of the whitespace run the text starts with: all whitespace, and not followed by whitespace |
| Text.TrailingBlanks | main.py:352 | the length of the whitespace run the text ends with: all whitespace, and not preceded by whitespace |
| Text.StripDropsOnlyBlanks | main.py:352 | the stripped text is the infix of the text after its leading whitespace; only whitespace comes before and after it |
| Text.Lower | main.py:357 | `str.lower()` on ASCII, character by character: the result has the length of the text |
| Text.ParseInt | main.py:192 | `int()` in base 10 on stripped text: an optional sign then digits with single underscores between them, otherwise None (no contract of its own; ParseIntDecimal states the round trip) |
| Text.Contains | main.py:357 | true exactly when q occurs in t at some position |
| Text.ParseIntDecimal | main.py:192 | reading back the decimal rendering of n, with or without a minus sign, gives n or −n |

## Left out

- Discord presentation and dispatch are not modelled: embeds (`build_embed`, `_make_embed`), message text, slash-command registration, `interaction_check`, the close buttons, `MyClient` and `main()`/the token lookup. They are presentation and I/O. The paginated views keep their `user_id` but do not model who may click.
- SQLite is not modelled: connections, `db_init`'s table definitions and the SQL text. The tables are maps, and a genre's id is its catalog position.
- `load_genres` reads a file, which is not modelled. What remains of it is the precondition that the catalog is not empty (`|genres| > 0`).
- `slugify_for_everynoise` and `everynoise_url` are not modelled. They rely on Unicode NFKD normalisation and are display-only.
- Floating point is not modelled: `computed_score` is computed over exact reals, so IEEE rounding, the `stats` averages and the `:.2f` formatting are left out.
- The clock is not modelled: the timestamp `datetime.now(...)` is the parameter `now`.
- Text.Lower, Text.Strip and Text.ParseInt: `str.lower()`, `str.isspace()` and `int()` are modelled on ASCII only. Unicode case mapping, Unicode whitespace and non-ASCII digits are not.
- RatingStore.Store.UpsertRating and GenreView.ToggleFlag: the read and the write use two connections, so they are not atomic. The model runs them in sequence and does not capture concurrent interactions.
- RatingStore.Store.FetchUserRows: the order of the rows SQLite returns is unspecified, so the model picks rows in an arbitrary order. The ranking's tie order is therefore stated relative to the fetched order (RankItemsInFetchOrder, then SortByScore).
- Ranking.BottomReversed: takes k ≥ 1. Python's `s[-0:]` is the whole list, so `scored_items[-0:][::-1]` would reverse every item; `/stats` only uses k = 5.
- Ranking.Stats and Ranking.Rank require every fetched genre id to lie in the current catalog (`ValidIds`). The source indexes `genres[genre_id]` for each scored row (`main.py:442`, `main.py:578`). It raises IndexError when a stored id is past the end, which can happen if the genre file shrinks between runs. A negative id would index from the end of the list. The model does not capture that failure. The store methods accept any genre id, as the source does.
- The 2-character limit of the score fields and the 1000-character limit of the comment field (`main.py:176-178`) are enforced by Discord, not by the bot. They are not modelled, so `ParseScore` accepts text of any length.
