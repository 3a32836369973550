/**
 * The catalog commands: /next (the per-user cursor), /info (lookup by id) and
 * /search (case-insensitive substring match over the catalog). The catalog is
 * the list of genre names; a genre's id is its position in it.
 */
module Commands {
  import opened Wrappers
  import opened Text
  import opened RatingStore

  /** The cursor get_user_idx reads: the stored one, or 0 for a new user. */
  function Cursor(progress: map<int, int>, userId: int): int {
    if userId in progress then progress[userId] else 0
  }

  /** next_genre: serves the genre at the cursor taken modulo the catalog size
      and stores the served id plus one as the next cursor. The catalog is never
      empty (load_genres refuses an empty file). */
  method NextGenre(store: Store, genres: seq<string>, userId: int) returns (genreId: int, name: string)
    requires |genres| > 0
    modifies store
    ensures genreId == Cursor(old(store.progress), userId) % |genres|
    ensures 0 <= genreId < |genres| && name == genres[genreId]
    ensures store.progress == old(store.progress)[userId := genreId + 1]
    ensures 1 <= store.progress[userId] <= |genres|
    ensures store.ratings == old(store.ratings)
  {
    var idx := store.GetUserIdx(userId);
    idx := idx % |genres|;
    genreId := idx;
    name := genres[idx];
    store.SetUserIdx(userId, idx + 1);
  }

  /** The ids k successive /next commands serve, starting from a stored cursor. */
  function ServedIds(cursor: int, n: nat, k: nat): (ids: seq<int>)
    requires n > 0
    ensures |ids| == k
    ensures forall j :: 0 <= j < k ==> 0 <= ids[j] < n
    decreases k
  {
    if k == 0 then [] else [cursor % n] + ServedIds(cursor % n + 1, n, k - 1)
  }

  /** One step of the cursor walk: serve the cursor modulo n, continue from
      that id plus one. */
  lemma ServedIdsUnfold(c: int, n: nat, m: nat)
    requires n > 0 && m > 0
    ensures ServedIds(c, n, m) == [c % n] + ServedIds(c % n + 1, n, m - 1)
  {
  }

  /** k successive /next commands from one user: the ids served are the
      cursor walk ServedIds from the cursor stored before the first one. */
  method NextGenreTimes(store: Store, genres: seq<string>, userId: int, k: nat) returns (ids: seq<int>)
    requires |genres| > 0
    modifies store
    ensures ids == ServedIds(Cursor(old(store.progress), userId), |genres|, k)
    ensures store.ratings == old(store.ratings)
    ensures k == 0 ==> store.progress == old(store.progress)
    ensures k > 0 ==> store.progress == old(store.progress)[userId := ids[k - 1] + 1]
    ensures k > 0 ==> 1 <= store.progress[userId] <= |genres|
  {
    ghost var p0 := store.progress;
    ghost var c0 := Cursor(p0, userId);
    ids := [];
    var i := 0;
    while i < k
      invariant 0 <= i <= k && |ids| == i
      invariant ids + ServedIds(Cursor(store.progress, userId), |genres|, k - i) == ServedIds(c0, |genres|, k)
      invariant store.ratings == old(store.ratings)
      invariant i == 0 ==> store.progress == p0
      invariant i > 0 ==> store.progress == p0[userId := ids[i - 1] + 1] && 0 <= ids[i - 1] < |genres|
    {
      ghost var p := store.progress;
      ghost var c := Cursor(p, userId);
      var genreId, _ := NextGenre(store, genres, userId);
      ServedIdsUnfold(c, |genres|, k - i);
      ghost var rest := ServedIds(genreId + 1, |genres|, k - i - 1);
      assert store.progress == p[userId := genreId + 1];
      assert store.progress == p0[userId := genreId + 1];
      assert Cursor(store.progress, userId) == genreId + 1;
      assert (ids + [genreId]) + rest == ids + ([genreId] + rest);
      ids := ids + [genreId];
      i := i + 1;
    }
  }

  /** A new user sending /next n + 3 times on a catalog of n genres is served
      0, 1, ..., n - 1, then 0, 1, 2 (modulo n). */
  method FreshUserNextGenres(store: Store, genres: seq<string>, userId: int) returns (ids: seq<int>)
    requires |genres| > 0 && userId !in store.progress
    modifies store
    ensures |ids| == |genres| + 3
    ensures forall j :: 0 <= j < |genres| ==> ids[j] == j
    ensures ids[|genres|] == 0 && ids[|genres| + 1] == 1 % |genres| && ids[|genres| + 2] == 2 % |genres|
    ensures store.ratings == old(store.ratings)
    ensures store.progress == old(store.progress)[userId := 2 % |genres| + 1]
  {
    ids := NextGenreTimes(store, genres, userId, |genres| + 3);
    FreshUserCycle(|genres|);
  }

  /** a mod n is the only remainder r in [0, n) with a == q * n + r. */
  lemma ModUnique(a: int, q: int, r: int, n: int)
    requires n > 0 && 0 <= r < n && a == q * n + r
    ensures a % n == r
  {
    var d := q - a / n;
    assert d * n == a % n - r;
  }

  lemma ModOfMultiple(y: int, q: int, n: int)
    requires n > 0
    ensures (y + q * n) % n == y % n
  {
    assert y + q * n == (y / n + q) * n + y % n;
    ModUnique(y + q * n, y / n + q, y % n, n);
  }

  lemma ModShift(c: int, m: int, n: int)
    requires n > 0
    ensures (c % n + m) % n == (c + m) % n
  {
    assert c + m == (c % n + m) + (c / n) * n;
    ModOfMultiple(c % n + m, c / n, n);
  }

  /** From any cursor c, the j-th of k successive /next commands serves
      (c + j) mod n: the cursor walks the catalog round and round. */
  lemma {:induction false} ServedIdsCycle(cursor: int, n: nat, k: nat)
    requires n > 0
    ensures forall j :: 0 <= j < k ==> ServedIds(cursor, n, k)[j] == (cursor + j) % n
    decreases k
  {
    if k > 0 {
      var ids := ServedIds(cursor, n, k);
      var rest := ServedIds(cursor % n + 1, n, k - 1);
      assert ids == [cursor % n] + rest;
      ServedIdsCycle(cursor % n + 1, n, k - 1);
      forall j | 0 <= j < k
        ensures ids[j] == (cursor + j) % n
      {
        if j > 0 {
          assert ids[j] == rest[j - 1];
          assert rest[j - 1] == (cursor % n + j) % n;
          ModShift(cursor, j, n);
        }
      }
    }
  }

  /** A new user sending /next n + 3 times is served 0, 1, ..., n - 1, then
      0, 1, 2 (taken modulo n for catalogs of fewer than three genres). */
  lemma FreshUserCycle(n: nat)
    requires n > 0
    ensures var ids := ServedIds(0, n, n + 3);
            (forall j :: 0 <= j < n ==> ids[j] == j)
            && ids[n] == 0 && ids[n + 1] == 1 % n && ids[n + 2] == 2 % n
  {
    ServedIdsCycle(0, n, n + 3);
    var ids := ServedIds(0, n, n + 3);
    forall j | 0 <= j < n ensures ids[j] == j {
      assert ids[j] == j % n;
    }
    ModOfMultiple(0, 1, n);
    ModOfMultiple(1, 1, n);
    ModOfMultiple(2, 1, n);
  }

  /** info_genre: the name of a genre id, or None for an id outside the catalog. */
  function InfoGenre(genres: seq<string>, genreId: int): (r: Option<string>)
    ensures r.Some? <==> 0 <= genreId < |genres|
    ensures r.Some? ==> r.value == genres[genreId]
  {
    if genreId < 0 || genreId >= |genres| then None else Some(genres[genreId])
  }

  /** Every id /next serves is one /info accepts, with the same name. */
  lemma ServedIdsResolve(cursor: int, genres: seq<string>, k: nat, j: nat)
    requires |genres| > 0 && j < k
    ensures InfoGenre(genres, ServedIds(cursor, |genres|, k)[j]).Some?
  {
  }

  datatype SearchOutcome =
    | EmptyQuery                          // the query is blank once stripped
    | NoMatch                             // no genre name contains it
    | Found(results: seq<(int, string)>)  // (id, name) pairs, in catalog order

  /** Each listed pair is a genre at or after position from, with its own name,
      whose lower-cased name contains q. */
  ghost predicate AllMatch(q: string, genres: seq<string>, from: nat, results: seq<(int, string)>) {
    forall k :: 0 <= k < |results| ==>
      && from <= results[k].0 < |genres|
      && results[k].1 == genres[results[k].0]
      && IsSubstring(q, Lower(results[k].1))
  }

  ghost predicate IdsIncrease(results: seq<(int, string)>) {
    forall k, l :: 0 <= k < l < |results| ==> results[k].0 < results[l].0
  }

  /** Every matching genre at or after position from is listed. */
  ghost predicate NoneMissed(q: string, genres: seq<string>, from: nat, results: seq<(int, string)>) {
    forall i :: from <= i < |genres| && IsSubstring(q, Lower(genres[i])) ==>
      exists k :: 0 <= k < |results| && results[k].0 == i
  }

  /** results lists, in increasing id order, exactly the genres at or after
      position from whose lower-cased name contains q. */
  ghost predicate ExactMatches(q: string, genres: seq<string>, from: nat, results: seq<(int, string)>) {
    AllMatch(q, genres, from, results) && IdsIncrease(results) && NoneMissed(q, genres, from, results)
  }

  /** The comprehension over enumerate(genres) from position from on. */
  function MatchesFrom(q: string, genres: seq<string>, from: nat): (results: seq<(int, string)>)
    requires from <= |genres|
    decreases |genres| - from
  {
    if from == |genres| then []
    else
      (if Contains(q, Lower(genres[from])) then [(from as int, genres[from])] else [])
      + MatchesFrom(q, genres, from + 1)
  }

  lemma {:induction false} MatchesFromAllMatch(q: string, genres: seq<string>, from: nat)
    requires from <= |genres|
    ensures AllMatch(q, genres, from, MatchesFrom(q, genres, from))
    decreases |genres| - from
  {
    if from < |genres| {
      var here := if Contains(q, Lower(genres[from])) then [(from as int, genres[from])] else [];
      var rest := MatchesFrom(q, genres, from + 1);
      var all := here + rest;
      assert all == MatchesFrom(q, genres, from);
      MatchesFromAllMatch(q, genres, from + 1);
      forall k | 0 <= k < |all|
        ensures from <= all[k].0 < |genres| && all[k].1 == genres[all[k].0]
                && IsSubstring(q, Lower(all[k].1))
      {
        if k >= |here| {
          assert all[k] == rest[k - |here|];
        }
      }
    }
  }

  lemma {:induction false} MatchesFromIncrease(q: string, genres: seq<string>, from: nat)
    requires from <= |genres|
    ensures IdsIncrease(MatchesFrom(q, genres, from))
    ensures forall k :: 0 <= k < |MatchesFrom(q, genres, from)| ==> from <= MatchesFrom(q, genres, from)[k].0
    decreases |genres| - from
  {
    if from < |genres| {
      var here := if Contains(q, Lower(genres[from])) then [(from as int, genres[from])] else [];
      var rest := MatchesFrom(q, genres, from + 1);
      var all := here + rest;
      assert all == MatchesFrom(q, genres, from);
      MatchesFromIncrease(q, genres, from + 1);
      forall k | 0 <= k < |all| ensures from <= all[k].0 {
        if k >= |here| {
          assert all[k] == rest[k - |here|];
        }
      }
      forall k, l | 0 <= k < l < |all| ensures all[k].0 < all[l].0 {
        assert all[l] == rest[l - |here|];
        if k >= |here| {
          assert all[k] == rest[k - |here|];
        }
      }
    }
  }

  lemma {:induction false} MatchesFromNoneMissed(q: string, genres: seq<string>, from: nat)
    requires from <= |genres|
    ensures NoneMissed(q, genres, from, MatchesFrom(q, genres, from))
    decreases |genres| - from
  {
    if from < |genres| {
      var here := if Contains(q, Lower(genres[from])) then [(from as int, genres[from])] else [];
      var rest := MatchesFrom(q, genres, from + 1);
      var all := here + rest;
      assert all == MatchesFrom(q, genres, from);
      MatchesFromNoneMissed(q, genres, from + 1);
      forall i | from <= i < |genres| && IsSubstring(q, Lower(genres[i]))
        ensures exists k :: 0 <= k < |all| && all[k].0 == i
      {
        if i == from {
          assert all[0].0 == i;
        } else {
          var k :| 0 <= k < |rest| && rest[k].0 == i;
          assert all[|here| + k].0 == i;
        }
      }
    }
  }

  /** The comprehension keeps, in catalog order, exactly the matching genres. */
  lemma MatchesFromExact(q: string, genres: seq<string>, from: nat)
    requires from <= |genres|
    ensures ExactMatches(q, genres, from, MatchesFrom(q, genres, from))
  {
    MatchesFromAllMatch(q, genres, from);
    MatchesFromIncrease(q, genres, from);
    MatchesFromNoneMissed(q, genres, from);
  }

  /** search_genres: strips and lower-cases the query, refuses a blank one, and
      otherwise lists the matching genres, or reports that none matches. */
  function SearchGenres(query: string, genres: seq<string>): (o: SearchOutcome)
    ensures o.EmptyQuery? <==> IsBlank(query)
    ensures o.NoMatch? ==>
              forall i :: 0 <= i < |genres| ==> !IsSubstring(Lower(Strip(query)), Lower(genres[i]))
    ensures o.Found? ==> |o.results| > 0 && ExactMatches(Lower(Strip(query)), genres, 0, o.results)
  {
    var q := Lower(Strip(query));
    if q == [] then EmptyQuery
    else
      var results := MatchesFrom(q, genres, 0);
      MatchesFromExact(q, genres, 0);
      if results == [] then NoMatch else Found(results)
  }

  /** Every id /search lists is one /info accepts, with the same name. */
  lemma SearchResultsResolve(query: string, genres: seq<string>, k: nat)
    requires SearchGenres(query, genres).Found? && k < |SearchGenres(query, genres).results|
    ensures var (id, name) := SearchGenres(query, genres).results[k];
            InfoGenre(genres, id) == Some(name)
  {
  }
}
