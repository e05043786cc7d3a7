/** The write side of the movies API: get, create, update and delete by id over the
    `Movies` table, which the model holds as a map from id to record. Request-body
    validation, which the [ApiController] attribute runs before every action, is part
    of create and update. Clock readings are parameters. */
module Store {
  import opened Movies

  /** The HTTP outcomes of the four operations. */
  datatype Reply =
    | Ok(movie: MovieResponse)       // 200 with the record
    | Created(movie: MovieResponse)  // 201 with the new record
    | Deleted                        // 200 "Movie deleted successfully"
    | NotFound                       // 404 "Movie not found"
    | BadRequest(errors: set<Field>) // 400 validation problem

  class MovieStore {
    var movies: map<int, Movie>
    /** The next value of the identity column: ids are generated here and never reused. */
    var nextId: int

    ghost predicate Valid()
      reads this
    {
      && nextId >= 1
      && forall id :: id in movies ==> movies[id].id == id && 1 <= id < nextId && ValidMovie(movies[id])
    }

    constructor ()
      ensures Valid() && movies == map[] && nextId == 1
    {
      movies := map[];
      nextId := 1;
    }

    /** GET api/movies/{id}. */
    method GetMovie(id: int) returns (r: Reply)
      ensures id !in movies ==> r == NotFound
      ensures id in movies ==> r.Ok? && FromResponse(r.movie) == movies[id]
    {
      if id !in movies {
        return NotFound;
      }
      r := Ok(ToResponse(movies[id]));
    }

    /** POST api/movies: a body that fails validation is refused and nothing is stored;
        otherwise a record with a fresh id is added, the four body fields copied and the
        two timestamps taken from two clock readings. */
    method CreateMovie(dto: MovieDto, createdAt: int, updatedAt: int) returns (r: Reply)
      requires Valid()
      modifies this
      ensures Valid()
      ensures !ValidDto(dto) ==> r == BadRequest(DtoErrors(dto)) && movies == old(movies) && nextId == old(nextId)
      ensures ValidDto(dto) ==>
                && old(nextId) !in old(movies)
                && dto.title.Some?
                && movies == old(movies)[old(nextId) := FromDto(dto, old(nextId), createdAt, updatedAt)]
                && nextId == old(nextId) + 1
                && r == Created(ToResponse(movies[old(nextId)]))
    {
      if !ValidDto(dto) {
        return BadRequest(DtoErrors(dto));
      }
      ValidDtoGivesValidMovie(dto, nextId, createdAt, updatedAt);
      var movie := FromDto(dto, nextId, createdAt, updatedAt);
      movies := movies[nextId := movie];
      nextId := nextId + 1;
      r := Created(ToResponse(movie));
    }

    /** PUT api/movies/{id}: an invalid body is refused first; a missing id is not
        found; otherwise title, genre, rating and poster URL are overwritten and
        `updatedAt` set to the clock, while id and `createdAt` stay. */
    method UpdateMovie(id: int, dto: MovieDto, now: int) returns (r: Reply)
      requires Valid()
      modifies this
      ensures Valid() && nextId == old(nextId)
      ensures !ValidDto(dto) ==> r == BadRequest(DtoErrors(dto)) && movies == old(movies)
      ensures ValidDto(dto) && id !in old(movies) ==> r == NotFound && movies == old(movies)
      ensures ValidDto(dto) && id in old(movies) ==>
                && dto.title.Some?
                && movies == old(movies)[id := FromDto(dto, id, old(movies)[id].createdAt, now)]
                && r == Ok(ToResponse(movies[id]))
    {
      if !ValidDto(dto) {
        return BadRequest(DtoErrors(dto));
      }
      if id !in movies {
        return NotFound;
      }
      var movie := movies[id];
      ValidDtoGivesValidMovie(dto, id, movie.createdAt, now);
      movie := movie.(title := dto.title.value, genre := dto.genre, rating := dto.rating,
                      posterUrl := dto.posterUrl, updatedAt := now);
      movies := movies[id := movie];
      r := Ok(ToResponse(movie));
    }

    /** DELETE api/movies/{id}: a missing id is not found and changes nothing; otherwise
        exactly that record is removed. */
    method DeleteMovie(id: int) returns (r: Reply)
      requires Valid()
      modifies this
      ensures Valid() && nextId == old(nextId)
      ensures id !in old(movies) ==> r == NotFound && movies == old(movies)
      ensures id in old(movies) ==> r == Deleted && movies == old(movies) - {id}
    {
      if id !in movies {
        return NotFound;
      }
      movies := movies - {id};
      r := Deleted;
    }
  }

  /** Deleting twice: the second delete of the same id reports not found. */
  method DeleteTwice(store: MovieStore, id: int) returns (first: Reply, second: Reply)
    requires store.Valid()
    modifies store
    ensures store.Valid()
    ensures second == NotFound
    ensures first == Deleted <==> id in old(store.movies)
    ensures store.movies == old(store.movies) - {id}
  {
    first := store.DeleteMovie(id);
    second := store.DeleteMovie(id);
  }
}
