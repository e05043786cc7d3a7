# MovieManagementApp, modelled in Dafny

MovieManagementApp is a small movie catalogue. Its server is an ASP.NET Core API that
stores `Movie` records in PostgreSQL through Entity Framework Core. Its browser client
is a Next.js/React application. This project models the logic of that system and
proves properties of the model:

- **Listing** (`listing.dfy`): `GET api/movies` filters by a case-insensitive title
  substring and a case-insensitive exact genre. It then orders by title, or by rating
  with title as the tie-break, in the direction chosen by `sortBy`/`sortOrder`.
  `GET api/movies/genres` lists the distinct non-empty genres in ascending order. Both
  are pure functions over a snapshot of the stored records.
- **Store** (`store.dfy`): get, create, update and delete by id. The `Movies` table is
  a class `MovieStore` that holds a `map<int, Movie>` and the next identity value. The
  methods update these fields. Request-body validation, which `[ApiController]` runs
  before each action, is part of create and update. The clock is a parameter.
- **Entity and DTOs** (`movies.dfy`): the `Movie` record, the request body shared by
  create and update, and the response body. `[Required]`, `[StringLength]` and
  `[Range]` are validity predicates.
- **Connection string** (`connection_string.dfy`): at start-up, a `postgres://` or
  `postgresql://` URL is rewritten into an Npgsql `Key=Value;` connection string. A
  missing or empty string is an error. Any other string is used as it is. This is a
  pure function from the configured value to a result or an error.
- **Create form** (`create_form.dfy`): the create form's `handleChange` (including
  JavaScript `parseInt` as the rating input uses it), `validate` and the trimming that
  `handleSubmit` does before it sends the body. The React state is a class
  `CreateMovieForm` with `formData`, `errors` and the sequence of submitted bodies.
- **Support** (`text.dfy`, `string_ops.dfy`, `optional.dfy`):
  - ASCII case folding;
  - the .NET and the JavaScript white-space sets;
  - `trim`, `Contains`, and ordinal string order;
  - the .NET `LastIndexOf`, `Split`, `string.Join` and `Replace(x, "")`, and the
    first-occurrence `IndexOf` they are specified with;
  - nullable values.

Design choices the model makes explicit:

- Titles and genres are compared in ordinal (code-point lexicographic) order, and
  `ToLower` folds ASCII letters only. This stands in for the database collation, which
  EF Core delegates to PostgreSQL.
- The database, not the controller, decides where records without a rating go. The
  model takes it as a parameter `NullPlacement` (`NullsLow` or `NullsHigh`) and proves
  the properties for both.
- SQL does not fix the order of records with equal sort keys. The model sorts with a
  deterministic insertion sort, and its contracts state only what the query promises:
  the result is sorted by the key and is a permutation of the filtered records.
- An unrecognised `sortBy` sorts by title ascending even when `sortOrder` is "desc"
  (`Listing.FallbackOrderSpec`, `Listing.UnknownSortByIgnoresDesc`). So does a null
  `sortBy`, which is what an empty query value binds to. An absent `sortBy` parameter
  takes its default "title" and so follows `sortOrder` (`Listing.SortByDefaultVersusEmpty`).

## Model

| member | source | states |
|---|---|---|
| Text.ToLowerIdempotent | MovieManagementApp/MovieManagementAPI/Controllers/MoviesController.cs:37 | folding an already folded string changes nothing |
| Text.ContainsIff | MovieManagementApp/MovieManagementAPI/Controllers/MoviesController.cs:37 | `Contains` holds exactly when the pattern occurs at some position |
| Text.TrimStartSpec | MovieManagementApp/movie-management-ui/components/CreateMovieForm.tsx:35 | the result of trimming the start is a suffix; everything cut is white space; it does not start with white space |
| Text.TrimEndSpec | MovieManagementApp/movie-management-ui/components/CreateMovieForm.tsx:35 | the result of trimming the end is a prefix; everything cut is white space; it does not end with white space |
| Text.TrimIsSlice | MovieManagementApp/movie-management-ui/components/CreateMovieForm.tsx:54-55 | `trim()` returns a slice of its input with only white space cut at either end, and the slice neither starts nor ends with white space |
| Text.TrimEmptyIff | MovieManagementApp/movie-management-ui/components/CreateMovieForm.tsx:35 | `trim()` is empty exactly when every character is white space |
| Text.TrimIdempotent | MovieManagementApp/movie-management-ui/components/CreateMovieForm.tsx:54-55 | trimming twice is trimming once |
| Text.StrLeRefl | MovieManagementApp/MovieManagementAPI/Controllers/MoviesController.cs:49-55 | the title order is reflexive |
| Text.StrLeAntisym | MovieManagementApp/MovieManagementAPI/Controllers/MoviesController.cs:49-55 | the title order is antisymmetric |
| Text.StrLeTrans | MovieManagementApp/MovieManagementAPI/Controllers/MoviesController.cs:49-55 | the title order is transitive |
| Text.StrLeTotal | MovieManagementApp/MovieManagementAPI/Controllers/MoviesController.cs:49-55 | any two titles are comparable |
| StringOps.IndexOf | MovieManagementApp/MovieManagementAPI/Program.cs:31-39 | -1 exactly when the character is absent; otherwise the position of its first occurrence |
| StringOps.LastIndexOf | MovieManagementApp/MovieManagementAPI/Program.cs:25 | -1 exactly when the character is absent; otherwise the position of its last occurrence |
| StringOps.Split | MovieManagementApp/MovieManagementAPI/Program.cs:31 | `Split` gives at least one piece, and no piece holds the separator |
| StringOps.JoinSplit | MovieManagementApp/MovieManagementAPI/Program.cs:31-33 | joining the pieces of a split with the same separator gives back the input |
| StringOps.SplitJoin | MovieManagementApp/MovieManagementAPI/Program.cs:31-33 | splitting a join of separator-free pieces gives back the pieces |
| StringOps.SplitHead | MovieManagementApp/MovieManagementAPI/Program.cs:32 | the first piece is the text before the first separator |
| StringOps.SplitTail | MovieManagementApp/MovieManagementAPI/Program.cs:33 | there is one piece exactly when the separator is absent; the rest of the pieces, joined, are the text after the first separator |
| StringOps.RemoveAllAbsent | MovieManagementApp/MovieManagementAPI/Program.cs:22 | `Replace(pat, "")` leaves a string without `pat` unchanged |
| StringOps.RemoveAllSkip | MovieManagementApp/MovieManagementAPI/Program.cs:22 | a stretch with no occurrence starting in it is copied, and deletion continues after it |
| StringOps.RemoveAllPrefix | MovieManagementApp/MovieManagementAPI/Program.cs:22 | a leading occurrence is deleted |
| Movies.DtoErrors | MovieManagementApp/MovieManagementAPI/DTOs/MovieDto.cs:5-35 | title flagged iff null, blank or over 200; genre iff over 100; rating iff outside 1..5; poster URL iff over 500; null optional fields pass |
| Movies.ValidDtoGivesValidMovie | MovieManagementApp/MovieManagementAPI/Models/Post.cs:8-27 | a record built from a valid body satisfies the entity's constraints and carries exactly the body's fields |
| Movies.ValidMovieIsValidDto | MovieManagementApp/MovieManagementAPI/DTOs/MovieDto.cs:21-35 | a valid stored record resent as an update body passes validation: the entity and DTO constraints coincide |
| Movies.ToDto | MovieManagementApp/MovieManagementAPI/DTOs/MovieDto.cs:21-35 | the body resent for a record, with the record's id and timestamps, rebuilds exactly that record: the body carries every client field |
| Movies.ResponseRoundTrip | MovieManagementApp/MovieManagementAPI/DTOs/MovieDto.cs:37-46 | the response carries all seven entity fields: mapping there and back is the identity |
| Movies.TitleLengthBoundary | MovieManagementApp/MovieManagementAPI/DTOs/MovieDto.cs:7-9 | a 200-character title passes, 201 characters fail |
| Movies.RatingBoundary | MovieManagementApp/MovieManagementAPI/DTOs/MovieDto.cs:14-15 | ratings 0 and 6 fail, 1 and 5 pass, no rating passes |
| Movies.BlankTitleRejected | MovieManagementApp/MovieManagementAPI/DTOs/MovieDto.cs:7 | a white-space-only title (the empty one included) is rejected |
| Listing.FilterCount | MovieManagementApp/MovieManagementAPI/Controllers/MoviesController.cs:35-44 | the filters keep each passing record with its multiplicity and drop every other one |
| Listing.FilterNothing | MovieManagementApp/MovieManagementAPI/Controllers/MoviesController.cs:35-44 | with neither filter the stored sequence is kept as it is |
| Listing.ChooseOrdering | MovieManagementApp/MovieManagementAPI/Controllers/MoviesController.cs:47-56 | title-descending iff `sortBy` folds to "title" and `sortOrder` to "desc"; rating-ascending/descending iff `sortBy` folds to "rating" and `sortOrder` does not / does fold to "desc" |
| Listing.PrecedesTotal | MovieManagementApp/MovieManagementAPI/Controllers/MoviesController.cs:49-55 | each of the four orders is total |
| Listing.PrecedesTrans | MovieManagementApp/MovieManagementAPI/Controllers/MoviesController.cs:49-55 | each of the four orders is transitive |
| Listing.InsertPerm | MovieManagementApp/MovieManagementAPI/Controllers/MoviesController.cs:47-58 | insertion adds exactly the inserted record |
| Listing.InsertSorted | MovieManagementApp/MovieManagementAPI/Controllers/MoviesController.cs:47-58 | insertion into a sorted list keeps it sorted |
| Listing.SortPerm | MovieManagementApp/MovieManagementAPI/Controllers/MoviesController.cs:47-58 | the ordering is a permutation of its input |
| Listing.SortSorted | MovieManagementApp/MovieManagementAPI/Controllers/MoviesController.cs:47-58 | the ordering is sorted by the chosen key |
| Listing.GetMoviesSpec | MovieManagementApp/MovieManagementAPI/Controllers/MoviesController.cs:32-58 | the result holds exactly the passing records, each as often as stored, sorted in the selected order |
| Listing.NoFilterKeepsAll | MovieManagementApp/MovieManagementAPI/Controllers/MoviesController.cs:35-44 | blank search and blank genre keep every record: the result is a permutation of the store |
| Listing.SearchFilterSpec | MovieManagementApp/MovieManagementAPI/Controllers/MoviesController.cs:35-38 | a non-blank search keeps exactly the records whose folded title contains the folded, untrimmed search text |
| Listing.GenreFilterSpec | MovieManagementApp/MovieManagementAPI/Controllers/MoviesController.cs:41-44 | a non-blank genre keeps exactly the records with a non-null genre equal to it up to case; null genres are dropped |
| Listing.TitleOrderSpec | MovieManagementApp/MovieManagementAPI/Controllers/MoviesController.cs:49-51 | "title" sorts titles ascending, descending only when `sortOrder` folds to "desc" |
| Listing.RatingOrderSpec | MovieManagementApp/MovieManagementAPI/Controllers/MoviesController.cs:52-54 | "rating" orders ratings in the chosen direction, and equal ratings by title ascending in both directions |
| Listing.FallbackOrderSpec | MovieManagementApp/MovieManagementAPI/Controllers/MoviesController.cs:55 | a null or unrecognised `sortBy` gives the title-ascending result whatever `sortOrder` is |
| Listing.AbsentSortByFollowsOrder | MovieManagementApp/MovieManagementAPI/Controllers/MoviesController.cs:24-51 | without a `sortBy` parameter (default "title") titles descend exactly when the given `sortOrder` folds to "desc", and ascend otherwise, including when `sortOrder` is absent (default "asc") |
| Listing.SortByDefaultVersusEmpty | MovieManagementApp/MovieManagementAPI/Controllers/MoviesController.cs:27-55 | `?sortOrder=desc` alone chooses title-descending; an empty `sortBy` binds to null and chooses title-ascending; no parameters choose title-ascending |
| Listing.BareRequestKeepsAll | MovieManagementApp/MovieManagementAPI/Controllers/MoviesController.cs:24-58 | a request without parameters returns a permutation of every record, titles ascending |
| Listing.InsertDistinct | MovieManagementApp/MovieManagementAPI/Controllers/MoviesController.cs:89-90 | inserting a genre yields exactly the old genres plus it |
| Listing.InsertDistinctSorted | MovieManagementApp/MovieManagementAPI/Controllers/MoviesController.cs:89-90 | inserting keeps the genre list strictly ascending |
| Listing.GetGenresSpec | MovieManagementApp/MovieManagementAPI/Controllers/MoviesController.cs:86-91 | the genres are strictly ascending (so distinct), exclude "", and are exactly the non-empty genres of the records |
| Listing.SciFiFixture | MovieManagementApp/MovieManagementAPI/Controllers/MoviesController.cs:41-51 | genre "sci-fi" over Inception, Joker and The Matrix gives [Inception, The Matrix] |
| Listing.NullRatingPrecedes | MovieManagementApp/MovieManagementAPI/Controllers/MoviesController.cs:52-54 | how an unrated record and records rated 2 and 4 compare under each direction and null placement |
| Listing.NullsLowAscFixture | MovieManagementApp/MovieManagementAPI/Controllers/MoviesController.cs:54 | unrated A, B (2), C (4), ascending with nulls low: A B C |
| Listing.NullsLowDescFixture | MovieManagementApp/MovieManagementAPI/Controllers/MoviesController.cs:53 | descending with nulls low: C B A |
| Listing.NullsHighAscFixture | MovieManagementApp/MovieManagementAPI/Controllers/MoviesController.cs:54 | ascending with nulls high: B C A |
| Listing.NullsHighDescFixture | MovieManagementApp/MovieManagementAPI/Controllers/MoviesController.cs:53 | descending with nulls high: A C B |
| Listing.UnknownSortByIgnoresDesc | MovieManagementApp/MovieManagementAPI/Controllers/MoviesController.cs:55 | `sortBy` "director" with "desc" still yields titles ascending |
| Store.MovieStore.constructor | MovieManagementApp/MovieManagementAPI/Models/Post.cs:8-10 | an empty table whose identity counter starts at 1 |
| Store.MovieStore.GetMovie | MovieManagementApp/MovieManagementAPI/Controllers/MoviesController.cs:104-126 | NotFound exactly for an absent id; otherwise the response of the stored record; the store is unchanged |
| Store.MovieStore.CreateMovie | MovieManagementApp/MovieManagementAPI/Controllers/MoviesController.cs:137-165 | an invalid body gives BadRequest with its errors and stores nothing; otherwise a record with a fresh id, the four body fields and both clock readings is added and returned; the invariant holds |
| Store.MovieStore.UpdateMovie | MovieManagementApp/MovieManagementAPI/Controllers/MoviesController.cs:176-207 | an invalid body gives BadRequest, an absent id NotFound, both leaving the store unchanged; otherwise title, genre, rating and poster URL are overwritten, `updatedAt` is set to now, id and `createdAt` are kept, and no other record changes |
| Store.MovieStore.DeleteMovie | MovieManagementApp/MovieManagementAPI/Controllers/MoviesController.cs:218-232 | NotFound and no change for an absent id; otherwise exactly that key is removed |
| Store.DeleteTwice | MovieManagementApp/MovieManagementAPI/Controllers/MoviesController.cs:222-229 | a second delete of the same id is NotFound; the first succeeds iff the id was stored |
| ConnectionString.UserName | MovieManagementApp/MovieManagementAPI/Program.cs:31-32 | the user name is the text before the first ':' |
| ConnectionString.Password | MovieManagementApp/MovieManagementAPI/Program.cs:31-33 | the password is everything after the first ':', further ':' included, or "" without a ':' |
| ConnectionString.Host | MovieManagementApp/MovieManagementAPI/Program.cs:35-37 | the host is the text before the first ':' of the segment before the first '/' |
| ConnectionString.Port | MovieManagementApp/MovieManagementAPI/Program.cs:35-38 | the port is the second ':'-field of that segment only, or "5432" without a ':' |
| ConnectionString.Database | MovieManagementApp/MovieManagementAPI/Program.cs:35-39 | the database is the second '/'-field cut at '?', or "postgres" without a '/' |
| ConnectionString.Rewrite | MovieManagementApp/MovieManagementAPI/Program.cs:17-53 | the error exactly for a null or empty value; a value with neither scheme prefix is used unchanged |
| ConnectionString.StripSchemesPrefix | MovieManagementApp/MovieManagementAPI/Program.cs:22 | a scheme prefix followed by scheme-free text strips to that text |
| ConnectionString.SplitAtLastAt | MovieManagementApp/MovieManagementAPI/Program.cs:25-41 | the split is at the last '@': user info may hold '@', and the fields are rendered in the fixed key order |
| ConnectionString.NoUserInfoKept | MovieManagementApp/MovieManagementAPI/Program.cs:25-26 | without an '@', or with the only '@' first, the scheme-stripped text is the result |
| ConnectionString.HostInfoFields | MovieManagementApp/MovieManagementAPI/Program.cs:35-39 | `host:port/database?options` yields host, port and database, with the options dropped |
| ConnectionString.DatabaseBeforeQuery | MovieManagementApp/MovieManagementAPI/Program.cs:39 | the database name stops at '?' |
| ConnectionString.RewriteUrlFields | MovieManagementApp/MovieManagementAPI/Program.cs:25-41 | the scheme-free URL renders as its own five fields |
| ConnectionString.RewriteRoundTrip | MovieManagementApp/MovieManagementAPI/Program.cs:17-41 | a well-formed URL with scheme-free parts rewrites to `Host=…;Port=…;Database=…;Username=…;Password=…;SSL Mode=Require;Trust Server Certificate=true` with its own fields |
| ConnectionString.BareHostFields | MovieManagementApp/MovieManagementAPI/Program.cs:35-39 | a bare host name gives port "5432" and database "postgres" |
| ConnectionString.RewriteUrlDefaults | MovieManagementApp/MovieManagementAPI/Program.cs:25-41 | `user:password@host` renders with the default port and database |
| ConnectionString.RewriteDefaults | MovieManagementApp/MovieManagementAPI/Program.cs:17-41 | a schemed `user:password@host` rewrites with port "5432" and database "postgres" |
| ConnectionString.SchemeInPasswordRemoved | MovieManagementApp/MovieManagementAPI/Program.cs:22 | as written: the password "a" + "postgres://" + "b" becomes "ab" in the connection string |
| ConnectionString.StripSchemePrefix | MovieManagementApp/MovieManagementAPI/Program.cs:20-22 | corrected strip: only the leading scheme is removed |
| ConnectionString.RewritePrefixOnly | MovieManagementApp/MovieManagementAPI/Program.cs:17-53 | corrected rewrite: the same error and pass-through cases as the original |
| ConnectionString.PrefixOnlyRoundTrip | MovieManagementApp/MovieManagementAPI/Program.cs:17-41 | corrected rewrite: every well-formed URL renders with its own fields, whatever scheme text its password holds |
| ConnectionString.PrefixOnlyAgrees | MovieManagementApp/MovieManagementAPI/Program.cs:22 | the corrected and the original rewrite agree when the text after the scheme holds no scheme text |
| CreateForm.DigitPrefix | MovieManagementApp/movie-management-ui/components/CreateMovieForm.tsx:23 | `parseInt` reads the longest run of digits of the radix |
| CreateForm.DecimalString | MovieManagementApp/movie-management-ui/components/CreateMovieForm.tsx:23 | a decimal numeral is a non-empty run of digits without a leading zero |
| CreateForm.ParseIntDecimal | MovieManagementApp/movie-management-ui/components/CreateMovieForm.tsx:23 | `parseInt` reads every decimal numeral back as its value, with and without a minus sign |
| CreateForm.ChangeField | MovieManagementApp/movie-management-ui/components/CreateMovieForm.tsx:21-24 | the rating input stores `parseInt(value)` or undefined for ""; the other inputs store the raw text; all other fields are unchanged |
| CreateForm.ClearError | MovieManagementApp/movie-management-ui/components/CreateMovieForm.tsx:25-30 | a set error of the edited field becomes ""; every other error is unchanged; nothing changes when none was set |
| CreateForm.ValidationErrors | MovieManagementApp/movie-management-ui/components/CreateMovieForm.tsx:33-40 | errors are only ever recorded for the title and the rating |
| CreateForm.ValidationErrorsSpec | MovieManagementApp/movie-management-ui/components/CreateMovieForm.tsx:35-40 | a title error iff the title is white space only; a rating error iff the rating is a non-zero number outside 1..5; no error iff neither |
| CreateForm.FalsyRatingNotFlagged | MovieManagementApp/movie-management-ui/components/CreateMovieForm.tsx:38 | undefined, 0 and NaN ratings are never flagged |
| CreateForm.TrimOrUndefined | MovieManagementApp/movie-management-ui/components/CreateMovieForm.tsx:54-55 | `x?.trim() \|\| undefined`: undefined exactly for undefined or blank text, otherwise the non-empty trimmed text |
| CreateForm.Normalize | MovieManagementApp/movie-management-ui/components/CreateMovieForm.tsx:52-56 | genre and poster URL are trimmed (blank becomes undefined); title and rating pass through unchanged |
| CreateForm.NormalizeIdempotent | MovieManagementApp/movie-management-ui/components/CreateMovieForm.tsx:52-56 | normalising twice is normalising once, and the body never holds a blank or untrimmed genre or poster URL |
| CreateForm.NoKeysIffEmpty | MovieManagementApp/movie-management-ui/components/CreateMovieForm.tsx:42 | an error map has no keys exactly when it is empty |
| CreateForm.CreateMovieForm.constructor | MovieManagementApp/movie-management-ui/components/CreateMovieForm.tsx:9-15 | empty title, empty genre and poster URL, undefined rating, no errors, nothing submitted |
| CreateForm.CreateMovieForm.HandleChange | MovieManagementApp/movie-management-ui/components/CreateMovieForm.tsx:19-31 | the form data becomes the field update and the errors the error update of the event; nothing is submitted |
| CreateForm.CreateMovieForm.Validate | MovieManagementApp/movie-management-ui/components/CreateMovieForm.tsx:33-43 | the error map is replaced wholesale by the validation errors, and the result is true iff there are none |
| CreateForm.CreateMovieForm.HandleSubmit | MovieManagementApp/movie-management-ui/components/CreateMovieForm.tsx:45-57 | an invalid form sends nothing; a valid one sends its normalised body exactly once; the form data is unchanged |

## Left out

- HTTP and async plumbing are not modelled: `ActionResult` wrapping, the `try/catch`
  mapping to status 500, logging and `Console.WriteLine`. They are foreign calls with
  no logic of their own.
- The health and manual-migrate endpoints, migrations, seeding, CORS, Swagger and
  application start-up are left out. They are database introspection and framework
  wiring.
- Reading `DefaultConnection` or `DATABASE_URL` from configuration is I/O. The
  configured value is the parameter of `ConnectionString.Rewrite`.
- `DateTime.UtcNow` is not modelled. Each clock reading is an integer parameter, and
  the two readings in create may differ. No ordering between readings is assumed, so
  `updatedAt >= createdAt` is not a store invariant.
- Store.MovieStore.CreateMovie: the identity column is an unbounded counter. The
  32-bit overflow of `int` ids is not modelled.
- Listing.GetMovies uses ordinal order and ASCII case folding. PostgreSQL collation,
  Unicode case mapping and the SQL translation of `ToLower` decide this in the real
  system, and those are not modelled.
- ConnectionString.Rewrite models the culture-sensitive `StartsWith(string)` of the
  scheme test as an ordinal prefix test. Under a culture that ignores some code
  points, such as a leading soft hyphen, .NET would parse a URL that the model passes
  through unchanged.
- Listing.GetMoviesQuery binds an empty or white-space query value to null, as
  ASP.NET Core's `ConvertEmptyStringToNull` does for `string` parameters. Other
  model-binding details, such as repeated parameters, are not modelled.
- Listing.GetMovies takes null placement as a parameter. No single placement is
  assumed, because the database decides it.
- Listing.Sort is a deterministic insertion sort. The contracts do not promise a tie
  order for title-only sorting, and SQL does not promise one either.
- Movies.DtoErrors counts string length in characters. .NET counts UTF-16 code units,
  so text outside the Basic Multilingual Plane is not modelled.
- Movies.DtoErrors leaves out the JSON deserialiser's own errors (a malformed body, a
  non-integer rating). Model-binding failures before validation are not modelled.
- When validation fails, the 400 reply carries the set of failing properties, not
  the ASP.NET problem-details text.
- CreateForm.ParseInt does not model IEEE double precision: large magnitudes are
  exact integers here. JavaScript's full white-space set beyond the listed
  characters, and the radix rules of `parseInt` beyond "0x"/"0X", are left out too.
- The React runtime is left out: asynchronous state batching, the `submitting` flag,
  toasts, router navigation and the error after a failed create call. Submitting is
  modelled as appending the body to `submitted`, in place of the axios call in
  `lib/api.ts`, which is not part of this model.
- `components/MovieList.tsx`, `app/layout.tsx`, `app/page.tsx` and the edit page are
  display logic and are not part of this model. So is `Data/ApplicationDbContext.cs`,
  which only configures indexes.

## Findings

| source | as written | input that shows it | evidently intended | confidence | as-written member | corrected member |
|---|---|---|---|---|---|---|
| MovieManagementApp/MovieManagementAPI/Program.cs:22 | `Replace("postgresql://", "").Replace("postgres://", "")` deletes scheme text wherever it occurs in the URL | `postgres://u:apostgres://b@h:5432/d` gives `Password=ab` | only the leading scheme is removed, so the password `apostgres://b` comes through verbatim | not executed | ConnectionString.SchemeInPasswordRemoved | ConnectionString.PrefixOnlyRoundTrip |
