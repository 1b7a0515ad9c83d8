/**
 * The cast handlers: `post_cast` checks the two keys of the body and inserts
 * the (movie, actor) pair, `delete_cast` removes one. The `casts` table has
 * the pair as its primary key and a foreign key on each side, so the table
 * is a set of pairs and an insert fails when the pair is already there or
 * either side does not exist.
 */
module Casts {
  import opened Wrappers
  import opened Values
  import opened Http
  import opened Decimal

  /** `f"movie-{movie_id}-actor-{actor_id}"`, the id both handlers answer with. */
  function CastId(movieId: int, actorId: int): string
  {
    "movie-" + IntText(movieId) + "-actor-" + IntText(actorId)
  }

  /** Reads a cast id back into its pair. */
  function ParseCastId(s: string): Option<(int, int)>
  {
    if |s| < 6 || s[..6] != "movie-" then None
    else
      match ReadInt(s[6..])
      case None => None
      case Some((m, rest)) =>
        if |rest| < 7 || rest[..7] != "-actor-" then None
        else
          match ReadInt(rest[7..])
          case None => None
          case Some((a, tail)) => if tail == [] then Some((m, a)) else None
  }

  /** Every cast id reads back as the pair it was made from. */
  lemma CastIdRoundTrip(movieId: int, actorId: int)
    ensures ParseCastId(CastId(movieId, actorId)) == Some((movieId, actorId))
  {
    MovieIdRead(movieId, actorId);
    ActorIdRead(actorId);
    ParseCastIdOf(CastId(movieId, actorId), movieId, actorId, "-actor-" + IntText(actorId));
  }

  /** The first read of `ParseCastId`: after `movie-`, the movie id and then the rest. */
  lemma MovieIdRead(movieId: int, actorId: int)
    ensures var s := CastId(movieId, actorId);
      |s| >= 6 && s[..6] == "movie-" && ReadInt(s[6..]) == Some((movieId, "-actor-" + IntText(actorId)))
  {
    var tail := "-actor-" + IntText(actorId);
    assert CastId(movieId, actorId) == "movie-" + (IntText(movieId) + tail);
    Affixed("movie-", IntText(movieId) + tail);
    ReadIntText(movieId, tail);
  }

  /** The second read of `ParseCastId`: after `-actor-`, the actor id and nothing else. */
  lemma ActorIdRead(actorId: int)
    ensures var tail := "-actor-" + IntText(actorId);
      |tail| >= 7 && tail[..7] == "-actor-" && ReadInt(tail[7..]) == Some((actorId, []))
  {
    Affixed("-actor-", IntText(actorId));
    assert IntText(actorId) == IntText(actorId) + [];
    ReadIntText(actorId, []);
  }

  lemma Affixed(p: string, x: string)
    ensures (p + x)[..|p|] == p && (p + x)[|p|..] == x
  {
  }

  /** The two reads `ParseCastId` makes, and what it then answers. */
  lemma ParseCastIdOf(s: string, m: int, a: int, tail: string)
    requires |s| >= 6 && s[..6] == "movie-" && ReadInt(s[6..]) == Some((m, tail))
    requires |tail| >= 7 && tail[..7] == "-actor-" && ReadInt(tail[7..]) == Some((a, []))
    ensures ParseCastId(s) == Some((m, a))
  {
  }

  /** Different pairs get different ids. */
  lemma CastIdInjective(m1: int, a1: int, m2: int, a2: int)
    requires CastId(m1, a1) == CastId(m2, a2)
    ensures m1 == m2 && a1 == a2
  {
    CastIdRoundTrip(m1, a1);
    CastIdRoundTrip(m2, a2);
  }

  /** A key present with a non-zero integer. */
  predicate IsIdEntry(v: Option<Value>)
  {
    v.Some? && v.value.Int? && v.value.i != 0
  }

  /**
   * The check at the top of `post_cast`, reading the two ids under the keys
   * `movieKey` and `actorKey`: both must be truthy integers (0, absent, null
   * or a non-integer gives 400); a body that is not a JSON object has no
   * `get` and fails with 500.
   */
  function CastRequestUnder(body: Value, movieKey: string, actorKey: string): (r: Result<(int, int), int>)
    ensures !body.Dict? ==> r == Err(500)
    ensures body.Dict? && r.Err? ==> r.error == 400
    ensures r.Ok? ==> body.Dict? && Get(body.entries, movieKey) == Some(Int(r.value.0)) && r.value.0 != 0
    ensures r.Ok? ==> Get(body.entries, actorKey) == Some(Int(r.value.1)) && r.value.1 != 0
    ensures body.Dict? && IsIdEntry(Get(body.entries, movieKey)) && IsIdEntry(Get(body.entries, actorKey)) ==> r.Ok?
  {
    if !body.Dict? then Err(500)
    else
      var m := Get(body.entries, movieKey);
      var a := Get(body.entries, actorKey);
      if m.None? || a.None? || !Truthy(m.value) || !Truthy(a.value) || !m.value.Int? || !a.value.Int? then Err(400)
      else Ok((m.value.i, a.value.i))
  }

  /** `post_cast` as written reads the snake_case keys `movie_id` and `actor_id`. */
  function PostCastRequest(body: Value): (r: Result<(int, int), int>)
    ensures !body.Dict? ==> r == Err(500)
    ensures body.Dict? && r.Err? ==> r.error == 400
    ensures r.Ok? ==> body.Dict? && Get(body.entries, "movie_id") == Some(Int(r.value.0)) && r.value.0 != 0
    ensures r.Ok? ==> Get(body.entries, "actor_id") == Some(Int(r.value.1)) && r.value.1 != 0
    ensures body.Dict? && IsIdEntry(Get(body.entries, "movie_id")) && IsIdEntry(Get(body.entries, "actor_id")) ==> r.Ok?
  {
    CastRequestUnder(body, "movie_id", "actor_id")
  }

  /** Two non-zero integers under the snake_case keys are accepted as that pair. */
  lemma SnakeCaseCastAccepted(movieId: int, actorId: int)
    requires movieId != 0 && actorId != 0
    ensures PostCastRequest(Dict([("movie_id", Int(movieId)), ("actor_id", Int(actorId))])) == Ok((movieId, actorId))
  {
    var e := [("movie_id", Int(movieId)), ("actor_id", Int(actorId))];
    assert Get(e, "movie_id") == Some(Int(movieId)) && Get(e, "actor_id") == Some(Int(actorId));
  }

  /**
   * The body `casts_tests.test_create_cast` sends, with camelCase keys, is
   * refused: the handler looks only at the snake_case keys.
   */
  lemma CamelCaseCastRefused(movieId: int, actorId: int)
    ensures PostCastRequest(Dict([("movieId", Int(movieId)), ("actorId", Int(actorId))])) == Err(400)
  {
    var e := [("movieId", Int(movieId)), ("actorId", Int(actorId))];
    assert Keys(e) == ["movieId", "actorId"];
    assert Get(e, "movie_id") == None;
  }

  /** An id of 0 is refused before the store is touched. */
  lemma ZeroIdRefused(actorId: int)
    ensures PostCastRequest(Dict([("movie_id", Int(0)), ("actor_id", Int(actorId))])) == Err(400)
  {
    var e := [("movie_id", Int(0)), ("actor_id", Int(actorId))];
    assert Get(e, "movie_id") == Some(Int(0));
  }

  /** The check reading the camelCase keys the rest of the API uses for request bodies. */
  function PostCastRequestCamel(body: Value): Result<(int, int), int>
  {
    CastRequestUnder(body, "movieId", "actorId")
  }

  /** With the camelCase keys read, the body of `casts_tests.test_create_cast` is accepted. */
  lemma CamelCaseCastAccepted(movieId: int, actorId: int)
    requires movieId != 0 && actorId != 0
    ensures PostCastRequestCamel(Dict([("movieId", Int(movieId)), ("actorId", Int(actorId))])) == Ok((movieId, actorId))
  {
    var e := [("movieId", Int(movieId)), ("actorId", Int(actorId))];
    assert Get(e, "movieId") == Some(Int(movieId)) && Get(e, "actorId") == Some(Int(actorId));
  }

  /**
   * `post_cast` on the set of pairs, given the ids of the stored movies and
   * actors: a refused body, a pair already present or a missing movie or
   * actor gives 400 and leaves the set alone; otherwise the pair is added and
   * the answer is 201 with its id.
   */
  function PostCastResult(pairs: set<(int, int)>, body: Value, movies: set<int>, actors: set<int>): (Response, set<(int, int)>)
  {
    var req := PostCastRequest(body);
    if req.Err? then (Abort(req.error), pairs)
    else
      var (m, a) := req.value;
      if (m, a) in pairs || m !in movies || a !in actors then (Abort(400), pairs)
      else (Response(201, None, Some(SuccessId(Str(CastId(m, a))))), pairs + {(m, a)})
  }

  /**
   * The rows `delete_cast` selects as written. Python's `and` returns its
   * first operand when that is falsy, and SQLAlchemy's truth value of
   * `Cast.movie_id == movie_id` compares the two operand objects, which
   * differ, so the filter is on the movie id alone.
   */
  function RowsOfMovie(pairs: set<(int, int)>, movieId: int): (r: set<(int, int)>)
    ensures r <= pairs && forall p :: p in r <==> p in pairs && p.0 == movieId
  {
    set p | p in pairs && p.0 == movieId
  }

  /**
   * `delete_cast` as written: `one_or_404` answers 404 unless the movie
   * has exactly one cast row, and that row is deleted and named in the
   * answer whatever actor id the URL gives.
   */
  ghost function DeleteCastAsWritten(pairs: set<(int, int)>, movieId: int, actorId: int): (r: (Response, set<(int, int)>))
    ensures r.0.status == 404 <==> |RowsOfMovie(pairs, movieId)| != 1
    ensures r.0.status == 404 ==> r.1 == pairs
    ensures r.0.status != 404 ==>
      exists p :: RowsOfMovie(pairs, movieId) == {p} && r == (Response(200, None, Some(SuccessId(Str(CastId(p.0, p.1))))), pairs - {p})
  {
    var rows := RowsOfMovie(pairs, movieId);
    if |rows| != 1 then (Abort(404), pairs)
    else
      var p :| p in rows;
      assert rows == {p} by {
        assert |rows - {p}| == 0;
        assert rows - {p} == {};
      }
      (Response(200, None, Some(SuccessId(Str(CastId(p.0, p.1))))), pairs - {p})
  }

  /** As written, a DELETE naming another actor of a movie with one cast row removes that row. */
  lemma DeleteOtherActorAsWritten()
    ensures DeleteCastAsWritten({(1, 2)}, 1, 5) ==
      (Response(200, None, Some(SuccessId(Str(CastId(1, 2))))), {})
    ensures DeleteCastResult({(1, 2)}, 1, 5) == (Abort(404), {(1, 2)})
  {
    assert RowsOfMovie({(1, 2)}, 1) == {(1, 2)};
    var r := DeleteCastAsWritten({(1, 2)}, 1, 5);
    var p :| {(1, 2)} == {p} && r == (Response(200, None, Some(SuccessId(Str(CastId(p.0, p.1))))), {(1, 2)} - {p});
    assert p in {(1, 2)};
    assert p == (1, 2);
    assert {(1, 2)} - {p} == {};
  }

  /** As written, a DELETE of a pair whose movie has a second cast row answers 404. */
  lemma DeleteSharedMovieAsWritten()
    ensures DeleteCastAsWritten({(1, 2), (1, 3)}, 1, 2) == (Abort(404), {(1, 2), (1, 3)})
    ensures DeleteCastResult({(1, 2), (1, 3)}, 1, 2).0.status == 200
  {
    assert RowsOfMovie({(1, 2), (1, 3)}, 1) == {(1, 2), (1, 3)};
    assert |{(1, 2), (1, 3)}| == 2;
  }

  /** Where the movie has just the one cast row and the URL names it, both readings agree. */
  lemma DeleteAsWrittenAgrees(pairs: set<(int, int)>, movieId: int, actorId: int)
    requires RowsOfMovie(pairs, movieId) == {(movieId, actorId)}
    ensures DeleteCastAsWritten(pairs, movieId, actorId) == DeleteCastResult(pairs, movieId, actorId)
  {
  }

  /**
   * `delete_cast` as intended, with both clauses in the filter: 404 when the
   * pair is absent, else removed and 200 with its id.
   */
  function DeleteCastResult(pairs: set<(int, int)>, movieId: int, actorId: int): (Response, set<(int, int)>)
  {
    if (movieId, actorId) !in pairs then (Abort(404), pairs)
    else (Response(200, None, Some(SuccessId(Str(CastId(movieId, actorId))))), pairs - {(movieId, actorId)})
  }

  /**
   * A POST either changes nothing or adds exactly the requested pair, which
   * was absent and joins a stored movie to a stored actor; only a 201 adds.
   */
  lemma PostCastAddsOnlyThePair(pairs: set<(int, int)>, body: Value, movies: set<int>, actors: set<int>)
    ensures var r := PostCastResult(pairs, body, movies, actors);
      && (r.0.status != 201 ==> r.1 == pairs && r.0.status in {400, 500})
      && (r.0.status == 201 ==>
            && PostCastRequest(body).Ok?
            && var p := PostCastRequest(body).value;
            p !in pairs && p.0 in movies && p.1 in actors && r.1 == pairs + {p} && |r.1| == |pairs| + 1
            && r.0.payload == Some(SuccessId(Str(CastId(p.0, p.1)))))
  {
  }

  /** Posting the same pair a second time is refused and changes nothing. */
  lemma DuplicateCastRefused(pairs: set<(int, int)>, body: Value, movies: set<int>, actors: set<int>)
    requires PostCastResult(pairs, body, movies, actors).0.status == 201
    ensures var first := PostCastResult(pairs, body, movies, actors);
      PostCastResult(first.1, body, movies, actors) == (Abort(400), first.1)
  {
    var p := PostCastRequest(body).value;
    assert p in PostCastResult(pairs, body, movies, actors).1;
  }

  /** Deleting a pair just added answers with the same id and restores the set. */
  lemma PostThenDelete(pairs: set<(int, int)>, body: Value, movies: set<int>, actors: set<int>)
    requires PostCastResult(pairs, body, movies, actors).0.status == 201
    ensures var first := PostCastResult(pairs, body, movies, actors);
      var p := PostCastRequest(body).value;
      var second := DeleteCastResult(first.1, p.0, p.1);
      second.0.status == 200 && second.0.payload == first.0.payload && second.1 == pairs
  {
    var p := PostCastRequest(body).value;
    assert p !in pairs;
    assert pairs + {p} - {p} == pairs;
  }

  /** A DELETE removes exactly its pair, or answers 404 and removes nothing. */
  lemma DeleteRemovesOnlyThePair(pairs: set<(int, int)>, movieId: int, actorId: int)
    ensures var r := DeleteCastResult(pairs, movieId, actorId);
      && (r.0.status == 404 <==> (movieId, actorId) !in pairs)
      && r.1 == pairs - {(movieId, actorId)}
      && (r.0.status == 200 ==> |r.1| == |pairs| - 1)
  {
  }

  /** The `casts` table: the set of (movie id, actor id) pairs. */
  class CastStore {
    var pairs: set<(int, int)>

    constructor()
      ensures pairs == {}
    {
      pairs := {};
    }

    /** `post_cast`: the check, then `cast.add()`, whose failure is caught and answered with 400. */
    method PostCast(body: Value, movies: set<int>, actors: set<int>) returns (resp: Response)
      modifies this
      ensures (resp, pairs) == PostCastResult(old(pairs), body, movies, actors)
    {
      var req := PostCastRequest(body);
      if req.Err? {
        return Abort(req.error);
      }
      var (movieId, actorId) := req.value;
      if (movieId, actorId) in pairs || movieId !in movies || actorId !in actors {
        return Abort(400);
      }
      pairs := pairs + {(movieId, actorId)};
      return Response(201, None, Some(SuccessId(Str(CastId(movieId, actorId)))));
    }

    /** `delete_cast`: the row for the pair, or 404; then `cast.delete()`. */
    method DeleteCast(movieId: int, actorId: int) returns (resp: Response)
      modifies this
      ensures (resp, pairs) == DeleteCastResult(old(pairs), movieId, actorId)
    {
      if (movieId, actorId) !in pairs {
        return Abort(404);
      }
      pairs := pairs - {(movieId, actorId)};
      return Response(200, None, Some(SuccessId(Str(CastId(movieId, actorId)))));
    }
  }
}
