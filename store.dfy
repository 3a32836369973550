/**
 * The persistent store: the progress table (one cursor per user) and the
 * ratings table (one record per user and genre), held as maps. SQL, the
 * connections and the table definitions are not modelled; the catalog table is
 * the list of genre names itself, a genre's id being its position.
 */
module RatingStore {
  import opened Wrappers

  /** A record of the ratings table: skip (score1), kiff (score2), the special
      (flag1) and flou (flag2) INTEGER flags, the comment and the timestamp. */
  datatype Rating = Rating(score1: Option<int>, score2: Option<int>,
                           flag1: int, flag2: int,
                           comment: Option<string>, updatedAt: string)

  /** The keyword arguments of upsert_rating; None means "keep what is stored". */
  datatype RatingUpdate = RatingUpdate(score1: Option<int>, score2: Option<int>,
                                       flag1: Option<int>, flag2: Option<int>,
                                       comment: Option<string>)

  /** One row of fetch_user_rows: a genre id and the user's record for it. */
  datatype Row = Row(genreId: int, rating: Rating)

  function Lookup(ratings: map<(int, int), Rating>, userId: int, genreId: int): Option<Rating> {
    if (userId, genreId) in ratings then Some(ratings[(userId, genreId)]) else None
  }

  /** Picks the given value, or the fallback when none was given. */
  function Keep<T>(given: Option<T>, fallback: T): T {
    if given.Some? then given.value else fallback
  }

  /** The record upsert_rating writes: every field given overrides, every field
      left out keeps the stored value, or, with nothing stored, stays None (scores
      and comment) or becomes 0 (flags); the timestamp is always refreshed. */
  function Merged(existing: Option<Rating>, u: RatingUpdate, now: string): Rating {
    match existing
    case Some(ex) =>
      Rating(if u.score1.Some? then u.score1 else ex.score1,
             if u.score2.Some? then u.score2 else ex.score2,
             Keep(u.flag1, ex.flag1), Keep(u.flag2, ex.flag2),
             if u.comment.Some? then u.comment else ex.comment,
             now)
    case None =>
      Rating(u.score1, u.score2, Keep(u.flag1, 0), Keep(u.flag2, 0), u.comment, now)
  }

  /** Field by field: a given value is written, an absent one keeps the old value. */
  lemma MergedFields(existing: Option<Rating>, u: RatingUpdate, now: string)
    ensures var r := Merged(existing, u, now);
      && r.updatedAt == now
      && (u.score1.Some? ==> r.score1 == u.score1)
      && (u.score2.Some? ==> r.score2 == u.score2)
      && (u.flag1.Some? ==> r.flag1 == u.flag1.value)
      && (u.flag2.Some? ==> r.flag2 == u.flag2.value)
      && (u.comment.Some? ==> r.comment == u.comment)
      && (existing.Some? ==>
            && (u.score1.None? ==> r.score1 == existing.value.score1)
            && (u.score2.None? ==> r.score2 == existing.value.score2)
            && (u.flag1.None? ==> r.flag1 == existing.value.flag1)
            && (u.flag2.None? ==> r.flag2 == existing.value.flag2)
            && (u.comment.None? ==> r.comment == existing.value.comment))
      && (existing.None? ==>
            && (u.score1.None? ==> r.score1.None?)
            && (u.score2.None? ==> r.score2.None?)
            && (u.flag1.None? ==> r.flag1 == 0)
            && (u.flag2.None? ==> r.flag2 == 0)
            && (u.comment.None? ==> r.comment.None?))
  {
  }

  /** Two updates in a row: the later one's given fields win, the earlier one's
      others survive. */
  function Then(first: RatingUpdate, second: RatingUpdate): RatingUpdate {
    RatingUpdate(if second.score1.Some? then second.score1 else first.score1,
                 if second.score2.Some? then second.score2 else first.score2,
                 if second.flag1.Some? then second.flag1 else first.flag1,
                 if second.flag2.Some? then second.flag2 else first.flag2,
                 if second.comment.Some? then second.comment else first.comment)
  }

  /** Two upserts in sequence write what one upsert of the combined update
      writes: neither erases a field the other set and it did not give. */
  lemma MergedTwice(existing: Option<Rating>, first: RatingUpdate, second: RatingUpdate, t1: string, t2: string)
    ensures Merged(Some(Merged(existing, first, t1)), second, t2) == Merged(existing, Then(first, second), t2)
  {
  }

  /** Repeating an upsert with the same arguments changes nothing more. */
  lemma MergedIdempotent(existing: Option<Rating>, u: RatingUpdate, now: string)
    ensures Merged(Some(Merged(existing, u, now)), u, now) == Merged(existing, u, now)
  {
  }

  /** No upsert turns a stored score or comment back into None. */
  lemma MergedNeverClears(ex: Rating, u: RatingUpdate, now: string)
    ensures ex.score1.Some? ==> Merged(Some(ex), u, now).score1.Some?
    ensures ex.score2.Some? ==> Merged(Some(ex), u, now).score2.Some?
    ensures ex.comment.Some? ==> Merged(Some(ex), u, now).comment.Some?
  {
  }

  /** The user's skip 7, then the comment "x": the record holds both. */
  lemma UpsertExample(existing: Option<Rating>, t1: string, t2: string)
    ensures var r := Merged(Some(Merged(existing, RatingUpdate(Some(7), None, None, None, None), t1)),
                            RatingUpdate(None, None, None, None, Some("x")), t2);
            r.score1 == Some(7) && r.comment == Some("x")
  {
  }

  lemma PickFrom(s: set<int>)
    requires |s| > 0
    ensures exists x :: x in s
  {
    if forall x :: x !in s {
      assert false;
    }
  }

  class Store {
    /** progress: user id -> idx. */
    var progress: map<int, int>
    /** ratings: (user id, genre id) -> record. */
    var ratings: map<(int, int), Rating>

    constructor ()
      ensures progress == map[] && ratings == map[]
    {
      progress := map[];
      ratings := map[];
    }

    function Stored(userId: int, genreId: int): Option<Rating>
      reads this
    {
      Lookup(ratings, userId, genreId)
    }

    /** get_user_idx: the stored cursor; a user seen for the first time reads 0
        and that 0 is stored. */
    method GetUserIdx(userId: int) returns (idx: int)
      modifies this
      ensures idx == (if userId in old(progress) then old(progress)[userId] else 0)
      ensures progress == old(progress)[userId := idx]
      ensures ratings == old(ratings)
    {
      if userId in progress {
        idx := progress[userId];
        assert progress == progress[userId := idx];
      } else {
        progress := progress[userId := 0];
        idx := 0;
      }
    }

    /** set_user_idx: overwrites the cursor whatever its value. */
    method SetUserIdx(userId: int, idx: int)
      modifies this
      ensures progress == old(progress)[userId := idx]
      ensures ratings == old(ratings)
    {
      progress := progress[userId := idx];
    }

    /** get_rating: the stored record, or None. */
    method GetRating(userId: int, genreId: int) returns (r: Option<Rating>)
      ensures r.Some? <==> (userId, genreId) in ratings
      ensures r.Some? ==> r.value == ratings[(userId, genreId)]
    {
      if (userId, genreId) in ratings {
        r := Some(ratings[(userId, genreId)]);
      } else {
        r := None;
      }
    }

    /** upsert_rating: reads the stored record, merges the given fields onto it
        and writes the result with the timestamp now; nothing else changes. */
    method UpsertRating(userId: int, genreId: int, u: RatingUpdate, now: string)
      modifies this
      ensures ratings == old(ratings)[(userId, genreId) := Merged(old(Stored(userId, genreId)), u, now)]
      ensures progress == old(progress)
    {
      var existing := GetRating(userId, genreId);
      var score1, score2, comment := u.score1, u.score2, u.comment;
      var flag1: int, flag2: int;
      if existing.Some? {
        var ex := existing.value;
        score1 := if u.score1.None? then ex.score1 else u.score1;
        score2 := if u.score2.None? then ex.score2 else u.score2;
        flag1 := if u.flag1.None? then ex.flag1 else u.flag1.value;
        flag2 := if u.flag2.None? then ex.flag2 else u.flag2.value;
        comment := if u.comment.None? then ex.comment else u.comment;
      } else {
        flag1 := if u.flag1.None? then 0 else u.flag1.value;
        flag2 := if u.flag2.None? then 0 else u.flag2.value;
      }
      ratings := ratings[(userId, genreId) := Rating(score1, score2, flag1, flag2, comment, now)];
    }

    /** fetch_user_rows: one row per record of the user, each genre once, in no
        particular order. */
    method FetchUserRows(userId: int) returns (rows: seq<Row>)
      ensures forall k :: 0 <= k < |rows| ==>
                (userId, rows[k].genreId) in ratings && rows[k].rating == ratings[(userId, rows[k].genreId)]
      ensures forall g :: (userId, g) in ratings ==> exists k :: 0 <= k < |rows| && rows[k].genreId == g
      ensures forall k, l :: 0 <= k < l < |rows| ==> rows[k].genreId != rows[l].genreId
    {
      var pending: set<int> := set key | key in ratings && key.0 == userId :: key.1;
      rows := [];
      while |pending| > 0
        invariant forall g :: g in pending ==> (userId, g) in ratings
        invariant forall k :: 0 <= k < |rows| ==>
                    (userId, rows[k].genreId) in ratings && rows[k].rating == ratings[(userId, rows[k].genreId)]
        invariant forall k :: 0 <= k < |rows| ==> rows[k].genreId !in pending
        invariant forall g :: (userId, g) in ratings ==>
                    g in pending || exists k :: 0 <= k < |rows| && rows[k].genreId == g
        invariant forall k, l :: 0 <= k < l < |rows| ==> rows[k].genreId != rows[l].genreId
        decreases |pending|
      {
        PickFrom(pending);
        var genreId :| genreId in pending;
        ghost var before := rows;
        rows := rows + [Row(genreId, ratings[(userId, genreId)])];
        pending := pending - {genreId};
        assert forall k :: 0 <= k < |before| ==> rows[k] == before[k];
        assert rows[|rows| - 1].genreId == genreId;
      }
    }
  }
}
