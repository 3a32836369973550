/**
 * The buttons under a genre: the rating form (its score parsing and its
 * submission) and the two flag toggles, Special (flag1) and Flou (flag2).
 */
module GenreView {
  import opened Wrappers
  import opened Text
  import opened RatingStore

  /** int() refused the text, or the number is outside 0..10; the form reports
      both the same way. */
  datatype ParseError = NotAnInteger | OutOfRange

  /** parse_score: no text, or text that is blank, means "no score"; otherwise
      the stripped text must read as an integer between 0 and 10. */
  function ParseScore(v: Option<string>): (r: Result<Option<int>, ParseError>)
    ensures r == Ok(None) <==> v.None? || IsBlank(v.value)
    ensures r.Ok? && r.value.Some? ==>
              0 <= r.value.value <= 10 && ParseInt(Strip(v.value)) == Some(r.value.value)
    ensures r.Err? <==>
              v.Some? && !IsBlank(v.value)
              && (ParseInt(Strip(v.value)).None? || !(0 <= ParseInt(Strip(v.value)).value <= 10))
  {
    if v.None? || v.value == [] then Ok(None)
    else ScoreOf(Strip(v.value))
  }

  /** The verdict on an already stripped field: empty means no score, then
      int() must accept it and the value must lie between 0 and 10. */
  function ScoreOf(s: string): (r: Result<Option<int>, ParseError>)
    ensures r.Ok? && r.value.Some? ==> 0 <= r.value.value <= 10
  {
    if s == [] then Ok(None)
    else match ParseInt(s)
      case None => Err(NotAnInteger)
      case Some(n) => if n < 0 || n > 10 then Err(OutOfRange) else Ok(Some(n))
  }

  lemma StrippedScore(s: string)
    requires |s| > 0 && Strip(s) == s
    ensures ParseScore(Some(s)) == ScoreOf(s)
  {
  }

  lemma ScoreOfInteger(s: string, n: int)
    requires |s| > 0 && ParseInt(s) == Some(n)
    ensures ScoreOf(s) == (if 0 <= n <= 10 then Ok(Some(n)) else Err(OutOfRange))
  {
  }

  /** Text without whitespace at its ends that int() reads as n is accepted
      exactly when n is between 0 and 10. */
  lemma ParseScoreOfTrimmed(s: string, n: int)
    requires |s| > 0 && Strip(s) == s && ParseInt(s) == Some(n)
    ensures ParseScore(Some(s)) == (if 0 <= n <= 10 then Ok(Some(n)) else Err(OutOfRange))
  {
    StrippedScore(s);
    ScoreOfInteger(s, n);
  }

  /** A score typed as its decimal digits is accepted exactly when it is at most
      10. */
  lemma ParseScoreDecimal(n: nat)
    ensures ParseScore(Some(Decimal(n))) == (if n <= 10 then Ok(Some(n)) else Err(OutOfRange))
  {
    StripKeepsTrimmed(Decimal(n));
    ParseIntDecimal(n);
    ParseScoreOfTrimmed(Decimal(n), n);
  }

  /** A negative score typed with its minus sign is always refused. */
  lemma ParseScoreNegative(n: nat)
    requires n > 0
    ensures ParseScore(Some("-" + Decimal(n))) == Err(OutOfRange)
  {
    var t := "-" + Decimal(n);
    assert t[|t| - 1] == Decimal(n)[|Decimal(n)| - 1];
    StripKeepsTrimmed(t);
    ParseIntDecimal(n);
    ParseScoreOfTrimmed(t, -(n as int));
  }

  /** The comment argument on_submit passes: the stripped text when the field
      holds any text, None when it is empty. */
  function CommentArg(raw: Option<string>): (c: Option<string>)
    ensures c.None? <==> raw.None? || raw.value == []
    ensures c.Some? ==> c.value == Strip(raw.value)
  {
    if raw.Some? && raw.value != [] then Some(Strip(raw.value)) else None
  }

  datatype SubmitOutcome = InvalidScores | Saved

  /** RateModal.on_submit: both scores are parsed first; if either is refused
      the store is left untouched, otherwise the two scores and the comment are
      upserted, each None keeping what was stored. */
  method SubmitRating(store: Store, userId: int, genreId: int,
                      raw1: Option<string>, raw2: Option<string>, rawComment: Option<string>,
                      now: string) returns (o: SubmitOutcome)
    modifies store
    ensures o == InvalidScores <==> ParseScore(raw1).Err? || ParseScore(raw2).Err?
    ensures o == InvalidScores ==> store.ratings == old(store.ratings)
    ensures o == Saved ==>
              store.ratings == old(store.ratings)[(userId, genreId) :=
                Merged(old(store.Stored(userId, genreId)),
                       RatingUpdate(ParseScore(raw1).value, ParseScore(raw2).value, None, None, CommentArg(rawComment)),
                       now)]
    ensures store.progress == old(store.progress)
  {
    var s1 := ParseScore(raw1);
    var s2 := ParseScore(raw2);
    if s1.Err? || s2.Err? {
      return InvalidScores;
    }
    store.UpsertRating(userId, genreId, RatingUpdate(s1.value, s2.value, None, None, CommentArg(rawComment)), now);
    o := Saved;
  }

  /** A submission never touches the flags and never turns a stored score or
      comment back into None: blank fields keep what was there. */
  lemma SubmissionKeeps(ex: Rating, raw1: Option<string>, raw2: Option<string>, rawComment: Option<string>, now: string)
    requires ParseScore(raw1).Ok? && ParseScore(raw2).Ok?
    ensures var r := Merged(Some(ex), RatingUpdate(ParseScore(raw1).value, ParseScore(raw2).value,
                                                   None, None, CommentArg(rawComment)), now);
      && r.flag1 == ex.flag1 && r.flag2 == ex.flag2
      && (ex.score1.Some? ==> r.score1.Some?)
      && (ex.score2.Some? ==> r.score2.Some?)
      && (ex.comment.Some? ==> r.comment.Some?)
      && (raw1.None? || IsBlank(raw1.value) ==> r.score1 == ex.score1)
      && (raw2.None? || IsBlank(raw2.value) ==> r.score2 == ex.score2)
  {
  }

  /** The two toggle buttons. */
  datatype Flag = Special | Flou

  function FlagOf(r: Rating, which: Flag): int {
    if which == Special then r.flag1 else r.flag2
  }

  /** An upsert that gives only the chosen flag. */
  function FlagUpdate(which: Flag, value: int): RatingUpdate {
    if which == Special then RatingUpdate(None, None, Some(value), None, None)
    else RatingUpdate(None, None, None, Some(value), None)
  }

  /** The value a toggle writes: 0 when the stored flag is set, 1 when it is
      clear or nothing is stored. */
  function Toggled(existing: Option<Rating>, which: Flag): (f: int)
    ensures f == 0 || f == 1
    ensures f == 1 <==> existing.None? || FlagOf(existing.value, which) == 0
  {
    if existing.Some? && FlagOf(existing.value, which) != 0 then 0 else 1
  }

  /** toggle_flag1 / toggle_flag2: read the record, write the negation of the
      chosen flag and nothing else. */
  method ToggleFlag(store: Store, userId: int, genreId: int, which: Flag, now: string)
    modifies store
    ensures store.ratings == old(store.ratings)[(userId, genreId) :=
              Merged(old(store.Stored(userId, genreId)),
                     FlagUpdate(which, Toggled(old(store.Stored(userId, genreId)), which)), now)]
    ensures store.progress == old(store.progress)
  {
    var r := store.GetRating(userId, genreId);
    var f := 0;
    if r.Some? {
      f := if FlagOf(r.value, which) != 0 then 0 else 1;
    } else {
      f := 1;
    }
    store.UpsertRating(userId, genreId, FlagUpdate(which, f), now);
  }

  /** A toggle sets the chosen flag to the negation of the stored one (to 1
      when nothing is stored) and keeps the scores, the comment and the other
      flag. */
  lemma ToggleChangesOnlyThatFlag(existing: Option<Rating>, which: Flag, now: string)
    ensures var r := Merged(existing, FlagUpdate(which, Toggled(existing, which)), now);
      && (FlagOf(r, which) != 0 <==> !(existing.Some? && FlagOf(existing.value, which) != 0))
      && (existing.Some? ==>
            && r.score1 == existing.value.score1 && r.score2 == existing.value.score2
            && r.comment == existing.value.comment
            && FlagOf(r, if which == Special then Flou else Special)
               == FlagOf(existing.value, if which == Special then Flou else Special))
      && (existing.None? ==>
            r.score1.None? && r.score2.None? && r.comment.None?
            && FlagOf(r, if which == Special then Flou else Special) == 0)
  {
  }

  /** Pressing the same toggle twice restores whether the flag is set, and
      leaves every other field as the first press left it. */
  lemma ToggleTwice(existing: Option<Rating>, which: Flag, t1: string, t2: string)
    ensures var r1 := Merged(existing, FlagUpdate(which, Toggled(existing, which)), t1);
            var r2 := Merged(Some(r1), FlagUpdate(which, Toggled(Some(r1), which)), t2);
      && (FlagOf(r2, which) != 0 <==> existing.Some? && FlagOf(existing.value, which) != 0)
      && r2 == (if which == Special then r1.(flag1 := r2.flag1) else r1.(flag2 := r2.flag2)).(updatedAt := t2)
  {
  }
}
