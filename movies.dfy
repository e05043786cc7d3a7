/** The `Movie` entity, the request and response DTOs, and the data-annotation
    constraints both carry ([Required], [StringLength], [Range]). */
module Movies {
  import opened Optional
  import opened Text

  const MaxTitleLength := 200
  const MaxGenreLength := 100
  const MaxPosterUrlLength := 500
  const MinRating := 1
  const MaxRating := 5

  /** A stored movie. Timestamps are clock readings (ticks) handed in by the caller. */
  datatype Movie = Movie(
    id: int,
    title: string,
    genre: Option<string>,
    rating: Option<int>,
    posterUrl: Option<string>,
    createdAt: int,
    updatedAt: int)

  /** The request body of create and update: `CreateMovieDto` and `UpdateMovieDto`
      declare the same four properties with the same attributes, so one datatype
      stands for both. The title is nullable because JSON can carry `null` for it. */
  datatype MovieDto = MovieDto(
    title: Option<string>,
    genre: Option<string>,
    rating: Option<int>,
    posterUrl: Option<string>)

  /** `MovieResponseDto`: what the API returns for a movie. */
  datatype MovieResponse = MovieResponse(
    id: int,
    title: string,
    genre: Option<string>,
    rating: Option<int>,
    posterUrl: Option<string>,
    createdAt: int,
    updatedAt: int)

  /** The validated properties, as named in a validation-failure response. */
  datatype Field = Title | Genre | Rating | PosterUrl

  // ---------------------------------------------------------------------------
  // The three validation attributes, with the semantics of
  // System.ComponentModel.DataAnnotations.
  // ---------------------------------------------------------------------------

  /** [Required] on a string: not null, and (AllowEmptyStrings being false) not empty
      or white space only. */
  predicate RequiredOk(v: Option<string>)
  {
    !IsNullOrWhiteSpace(v)
  }

  /** [StringLength(max)]: null passes; otherwise at most `max` characters. */
  predicate StringLengthOk(v: Option<string>, max: nat)
  {
    v.None? || |v.value| <= max
  }

  /** [Range(lo, hi)] on an `int?`: null passes; otherwise lo <= v <= hi. */
  predicate RangeOk(v: Option<int>, lo: int, hi: int)
  {
    v.None? || lo <= v.value <= hi
  }

  /** The properties of a request body that violate their attributes. */
  function DtoErrors(dto: MovieDto): (errs: set<Field>)
    ensures Title in errs <==> dto.title.None? || IsNullOrWhiteSpace(dto.title) || |dto.title.value| > MaxTitleLength
    ensures Genre in errs <==> dto.genre.Some? && |dto.genre.value| > MaxGenreLength
    ensures Rating in errs <==> dto.rating.Some? && !(MinRating <= dto.rating.value <= MaxRating)
    ensures PosterUrl in errs <==> dto.posterUrl.Some? && |dto.posterUrl.value| > MaxPosterUrlLength
  {
    (if RequiredOk(dto.title) && StringLengthOk(dto.title, MaxTitleLength) then {} else {Title})
    + (if StringLengthOk(dto.genre, MaxGenreLength) then {} else {Genre})
    + (if RangeOk(dto.rating, MinRating, MaxRating) then {} else {Rating})
    + (if StringLengthOk(dto.posterUrl, MaxPosterUrlLength) then {} else {PosterUrl})
  }

  predicate ValidDto(dto: MovieDto)
  {
    DtoErrors(dto) == {}
  }

  /** The field constraints of the entity class. */
  predicate ValidMovie(m: Movie)
  {
    && RequiredOk(Some(m.title))
    && StringLengthOk(Some(m.title), MaxTitleLength)
    && StringLengthOk(m.genre, MaxGenreLength)
    && RangeOk(m.rating, MinRating, MaxRating)
    && StringLengthOk(m.posterUrl, MaxPosterUrlLength)
  }

  /** A record built from a request body: the four client fields copied, the id and
      both timestamps supplied by the server. */
  function FromDto(dto: MovieDto, id: int, createdAt: int, updatedAt: int): (m: Movie)
    requires dto.title.Some?
  {
    Movie(id, dto.title.value, dto.genre, dto.rating, dto.posterUrl, createdAt, updatedAt)
  }

  /** The request constraints are the entity constraints: every record built from a
      body that passed validation satisfies the entity's invariant, and the fields
      the client sent are exactly the stored ones. */
  lemma ValidDtoGivesValidMovie(dto: MovieDto, id: int, createdAt: int, updatedAt: int)
    requires ValidDto(dto)
    ensures dto.title.Some?
    ensures ValidMovie(FromDto(dto, id, createdAt, updatedAt))
    ensures ToDto(FromDto(dto, id, createdAt, updatedAt)) == dto
  {
  }

  /** The client-visible fields of a record, as an update body would resend them;
      with the record's own id and timestamps the body rebuilds the record. */
  function ToDto(m: Movie): (dto: MovieDto)
    ensures dto.title.Some? && FromDto(dto, m.id, m.createdAt, m.updatedAt) == m
  {
    MovieDto(Some(m.title), m.genre, m.rating, m.posterUrl)
  }

  /** A stored record passes the request validation when resent as a body. */
  lemma ValidMovieIsValidDto(m: Movie)
    requires ValidMovie(m)
    ensures ValidDto(ToDto(m))
  {
  }

  function ToResponse(m: Movie): (r: MovieResponse)
  {
    MovieResponse(m.id, m.title, m.genre, m.rating, m.posterUrl, m.createdAt, m.updatedAt)
  }

  function FromResponse(r: MovieResponse): (m: Movie)
  {
    Movie(r.id, r.title, r.genre, r.rating, r.posterUrl, r.createdAt, r.updatedAt)
  }

  /** The response carries all seven entity fields: nothing is lost in the mapping. */
  lemma ResponseRoundTrip(m: Movie, r: MovieResponse)
    ensures FromResponse(ToResponse(m)) == m
    ensures ToResponse(FromResponse(r)) == r
  {
  }

  // ---------------------------------------------------------------------------
  // Boundary cases of the constraints.
  // ---------------------------------------------------------------------------

  /** A 200-character title is accepted and a 201-character one rejected. */
  lemma TitleLengthBoundary()
    ensures ValidDto(MovieDto(Some(seq(200, _ => 'a')), None, None, None))
    ensures !ValidDto(MovieDto(Some(seq(201, _ => 'a')), None, None, None))
  {
    var t := seq(200, _ => 'a');
    assert !IsDotNetWhiteSpace(t[0]);
  }

  /** Ratings 0 and 6 are rejected, 1 and 5 accepted, and no rating is accepted. */
  lemma RatingBoundary(title: string)
    requires 0 < |title| <= MaxTitleLength && !IsDotNetWhiteSpace(title[0])
    ensures !ValidDto(MovieDto(Some(title), None, Some(0), None))
    ensures !ValidDto(MovieDto(Some(title), None, Some(6), None))
    ensures ValidDto(MovieDto(Some(title), None, Some(1), None))
    ensures ValidDto(MovieDto(Some(title), None, Some(5), None))
    ensures ValidDto(MovieDto(Some(title), None, None, None))
  {
  }

  /** A title made of white space only is rejected, however short. */
  lemma BlankTitleRejected(title: string)
    requires forall i :: 0 <= i < |title| ==> IsDotNetWhiteSpace(title[i])
    ensures Title in DtoErrors(MovieDto(Some(title), None, None, None))
  {
  }
}
