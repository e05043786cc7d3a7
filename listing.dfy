/** The read side of the movies API: the filter-and-sort pipeline of the list
    endpoint and the genre enumeration. Both are pure functions of a snapshot of
    the stored records. */
module Listing {
  import opened Optional
  import opened Text
  import opened Movies

  // ---------------------------------------------------------------------------
  // Filtering.
  // ---------------------------------------------------------------------------

  /** The title filter: a blank `search` keeps everything; otherwise the folded
      title must contain the folded, untrimmed search text. */
  predicate SearchMatches(m: Movie, search: Option<string>)
  {
    IsNullOrWhiteSpace(search) || Contains(ToLower(m.title), ToLower(search.value))
  }

  /** The genre filter: a blank `genre` keeps everything; otherwise the record needs a
      genre equal to it after folding both. */
  predicate GenreMatches(m: Movie, genre: Option<string>)
  {
    IsNullOrWhiteSpace(genre) || (m.genre.Some? && ToLower(m.genre.value) == ToLower(genre.value))
  }

  predicate Keep(m: Movie, search: Option<string>, genre: Option<string>)
  {
    SearchMatches(m, search) && GenreMatches(m, genre)
  }

  /** Both filters applied, in the stored order. */
  function Filter(movies: seq<Movie>, search: Option<string>, genre: Option<string>): seq<Movie>
  {
    if movies == [] then []
    else
      var rest := Filter(movies[1..], search, genre);
      if Keep(movies[0], search, genre) then [movies[0]] + rest else rest
  }

  /** Each record is kept as often as it occurs, or dropped. */
  lemma {:induction false} FilterCount(movies: seq<Movie>, search: Option<string>, genre: Option<string>)
    ensures forall m :: multiset(Filter(movies, search, genre))[m]
                        == if Keep(m, search, genre) then multiset(movies)[m] else 0
  {
    if movies != [] {
      FilterCount(movies[1..], search, genre);
      assert movies == [movies[0]] + movies[1..];
    }
  }

  // ---------------------------------------------------------------------------
  // Ordering.
  // ---------------------------------------------------------------------------

  /** The five branches of the sort switch collapse to four orders. */
  datatype Ordering = TitleAsc | TitleDesc | RatingAsc | RatingDesc

  /** Where records without a rating fall. The database decides this, not the
      controller, so the model leaves it as a parameter: `NullsHigh` treats a missing
      rating as larger than every present one (PostgreSQL's default), `NullsLow` as
      smaller. */
  datatype NullPlacement = NullsLow | NullsHigh

  predicate IsDesc(sortOrder: Option<string>)
  {
    sortOrder.Some? && ToLower(sortOrder.value) == "desc"
  }

  /** The `sortBy?.ToLower() switch` of the list endpoint. */
  function ChooseOrdering(sortBy: Option<string>, sortOrder: Option<string>): (o: Ordering)
    ensures o == TitleDesc <==> sortBy.Some? && ToLower(sortBy.value) == "title" && IsDesc(sortOrder)
    ensures o == RatingAsc <==> sortBy.Some? && ToLower(sortBy.value) == "rating" && !IsDesc(sortOrder)
    ensures o == RatingDesc <==> sortBy.Some? && ToLower(sortBy.value) == "rating" && IsDesc(sortOrder)
  {
    if sortBy.Some? && ToLower(sortBy.value) == "title" then
      if IsDesc(sortOrder) then TitleDesc else TitleAsc
    else if sortBy.Some? && ToLower(sortBy.value) == "rating" then
      if IsDesc(sortOrder) then RatingDesc else RatingAsc
    else
      TitleAsc
  }

  /** The strict order on rating keys for a given null placement. */
  predicate RatingLt(a: Option<int>, b: Option<int>, nulls: NullPlacement)
  {
    match (a, b)
    case (Some(x), Some(y)) => x < y
    case (None, Some(_)) => nulls == NullsLow
    case (Some(_), None) => nulls == NullsHigh
    case (None, None) => false
  }

  predicate RatingLe(a: Option<int>, b: Option<int>, nulls: NullPlacement)
  {
    RatingLt(a, b, nulls) || a == b
  }

  /** `a` may be placed before `b`: the primary key in the chosen direction, and for
      the rating orders a tie broken by title ascending. */
  predicate Precedes(o: Ordering, nulls: NullPlacement, a: Movie, b: Movie)
  {
    match o
    case TitleAsc => StrLe(a.title, b.title)
    case TitleDesc => StrLe(b.title, a.title)
    case RatingAsc => RatingLt(a.rating, b.rating, nulls) || (a.rating == b.rating && StrLe(a.title, b.title))
    case RatingDesc => RatingLt(b.rating, a.rating, nulls) || (a.rating == b.rating && StrLe(a.title, b.title))
  }

  lemma PrecedesTotal(o: Ordering, nulls: NullPlacement, a: Movie, b: Movie)
    ensures Precedes(o, nulls, a, b) || Precedes(o, nulls, b, a)
  {
    StrLeTotal(a.title, b.title);
  }

  lemma PrecedesTrans(o: Ordering, nulls: NullPlacement, a: Movie, b: Movie, c: Movie)
    requires Precedes(o, nulls, a, b) && Precedes(o, nulls, b, c)
    ensures Precedes(o, nulls, a, c)
  {
    match o
    case TitleAsc => StrLeTrans(a.title, b.title, c.title);
    case TitleDesc => StrLeTrans(c.title, b.title, a.title);
    case _ =>
      if a.rating == b.rating && b.rating == c.rating {
        StrLeTrans(a.title, b.title, c.title);
      }
  }

  ghost predicate Sorted(o: Ordering, nulls: NullPlacement, s: seq<Movie>)
  {
    forall i, j :: 0 <= i < j < |s| ==> Precedes(o, nulls, s[i], s[j])
  }

  /** Inserts `x` before the first element it may precede. */
  function Insert(o: Ordering, nulls: NullPlacement, x: Movie, s: seq<Movie>): seq<Movie>
  {
    if s == [] then [x]
    else if Precedes(o, nulls, x, s[0]) then [x] + s
    else [s[0]] + Insert(o, nulls, x, s[1..])
  }

  /** Insertion adds exactly `x`. */
  lemma {:induction false} InsertPerm(o: Ordering, nulls: NullPlacement, x: Movie, s: seq<Movie>)
    ensures multiset(Insert(o, nulls, x, s)) == multiset(s) + multiset{x}
  {
    if s != [] && !Precedes(o, nulls, x, s[0]) {
      InsertPerm(o, nulls, x, s[1..]);
      assert s == [s[0]] + s[1..];
    }
  }

  lemma {:induction false} InsertSorted(o: Ordering, nulls: NullPlacement, x: Movie, s: seq<Movie>)
    requires Sorted(o, nulls, s)
    ensures Sorted(o, nulls, Insert(o, nulls, x, s))
  {
    if s == [] {
    } else if Precedes(o, nulls, x, s[0]) {
      InsertFrontSorted(o, nulls, x, s);
    } else {
      PrecedesTotal(o, nulls, x, s[0]);
      var tail := Insert(o, nulls, x, s[1..]);
      InsertSorted(o, nulls, x, s[1..]);
      InsertPerm(o, nulls, x, s[1..]);
      forall j | 0 <= j < |tail| ensures Precedes(o, nulls, s[0], tail[j]) {
        assert tail[j] in multiset(tail);
        if tail[j] != x {
          var k :| 0 <= k < |s[1..]| && s[1..][k] == tail[j];
          assert s[k + 1] == tail[j];
        }
      }
      ConsSorted(o, nulls, s[0], tail);
    }
  }

  /** `x` precedes the head of a sorted list, so it precedes all of it. */
  lemma InsertFrontSorted(o: Ordering, nulls: NullPlacement, x: Movie, s: seq<Movie>)
    requires Sorted(o, nulls, s) && s != [] && Precedes(o, nulls, x, s[0])
    ensures Sorted(o, nulls, [x] + s)
  {
    forall j | 0 <= j < |s| ensures Precedes(o, nulls, x, s[j]) {
      if j > 0 {
        PrecedesTrans(o, nulls, x, s[0], s[j]);
      }
    }
    ConsSorted(o, nulls, x, s);
  }

  lemma ConsSorted(o: Ordering, nulls: NullPlacement, x: Movie, s: seq<Movie>)
    requires Sorted(o, nulls, s)
    requires forall j :: 0 <= j < |s| ==> Precedes(o, nulls, x, s[j])
    ensures Sorted(o, nulls, [x] + s)
  {
    var r := [x] + s;
    forall i, j | 0 <= i < j < |r| ensures Precedes(o, nulls, r[i], r[j]) {
      assert r[j] == s[j - 1];
      if i > 0 {
        assert r[i] == s[i - 1];
      }
    }
  }

  /** Insertion sort: the deterministic stand-in for the database's ORDER BY. */
  function Sort(o: Ordering, nulls: NullPlacement, s: seq<Movie>): seq<Movie>
  {
    if s == [] then [] else Insert(o, nulls, s[0], Sort(o, nulls, s[1..]))
  }

  /** Sorting rearranges and neither adds nor drops a record. */
  lemma {:induction false} SortPerm(o: Ordering, nulls: NullPlacement, s: seq<Movie>)
    ensures multiset(Sort(o, nulls, s)) == multiset(s)
  {
    if s != [] {
      SortPerm(o, nulls, s[1..]);
      InsertPerm(o, nulls, s[0], Sort(o, nulls, s[1..]));
      assert s == [s[0]] + s[1..];
    }
  }

  lemma {:induction false} SortSorted(o: Ordering, nulls: NullPlacement, s: seq<Movie>)
    ensures Sorted(o, nulls, Sort(o, nulls, s))
  {
    if s != [] {
      SortSorted(o, nulls, s[1..]);
      InsertSorted(o, nulls, s[0], Sort(o, nulls, s[1..]));
    }
  }

  // ---------------------------------------------------------------------------
  // The list endpoint.
  // ---------------------------------------------------------------------------

  function GetMovies(movies: seq<Movie>, search: Option<string>, genre: Option<string>,
                     sortBy: Option<string>, sortOrder: Option<string>, nulls: NullPlacement): (r: seq<Movie>)
  {
    Sort(ChooseOrdering(sortBy, sortOrder), nulls, Filter(movies, search, genre))
  }

  /** The result holds exactly the records passing both filters, each as often as it
      is stored, in the order the sort parameters select. */
  lemma GetMoviesSpec(movies: seq<Movie>, search: Option<string>, genre: Option<string>,
                      sortBy: Option<string>, sortOrder: Option<string>, nulls: NullPlacement)
    ensures var r := GetMovies(movies, search, genre, sortBy, sortOrder, nulls);
            && (forall m :: multiset(r)[m] == if Keep(m, search, genre) then multiset(movies)[m] else 0)
            && (forall m :: m in r <==> m in movies && SearchMatches(m, search) && GenreMatches(m, genre))
            && Sorted(ChooseOrdering(sortBy, sortOrder), nulls, r)
  {
    var r := GetMovies(movies, search, genre, sortBy, sortOrder, nulls);
    FilterCount(movies, search, genre);
    SortPerm(ChooseOrdering(sortBy, sortOrder), nulls, Filter(movies, search, genre));
    SortSorted(ChooseOrdering(sortBy, sortOrder), nulls, Filter(movies, search, genre));
    forall m ensures m in r <==> m in movies && Keep(m, search, genre) {
      assert m in r <==> m in multiset(r);
      assert m in movies <==> m in multiset(movies);
    }
  }

  /** With a blank search text and a blank genre nothing is filtered out. */
  lemma NoFilterKeepsAll(movies: seq<Movie>, search: Option<string>, genre: Option<string>,
                         sortBy: Option<string>, sortOrder: Option<string>, nulls: NullPlacement)
    requires IsNullOrWhiteSpace(search) && IsNullOrWhiteSpace(genre)
    ensures multiset(GetMovies(movies, search, genre, sortBy, sortOrder, nulls)) == multiset(movies)
  {
    var r := GetMovies(movies, search, genre, sortBy, sortOrder, nulls);
    GetMoviesSpec(movies, search, genre, sortBy, sortOrder, nulls);
    assert forall m :: multiset(r)[m] == multiset(movies)[m];
  }

  /** A non-blank search keeps exactly the records whose folded title contains the
      folded search text at some position. */
  lemma SearchFilterSpec(movies: seq<Movie>, search: string, sortBy: Option<string>,
                         sortOrder: Option<string>, nulls: NullPlacement, m: Movie)
    requires !IsNullOrWhiteSpace(Some(search))
    ensures m in GetMovies(movies, Some(search), None, sortBy, sortOrder, nulls)
            <==> m in movies && exists i: nat :: OccursAt(ToLower(m.title), ToLower(search), i)
  {
    GetMoviesSpec(movies, Some(search), None, sortBy, sortOrder, nulls);
    ContainsIff(ToLower(m.title), ToLower(search));
  }

  /** A non-blank genre keeps exactly the records with a genre equal to it up to case;
      records without a genre are always dropped. */
  lemma GenreFilterSpec(movies: seq<Movie>, genre: string, sortBy: Option<string>,
                        sortOrder: Option<string>, nulls: NullPlacement, m: Movie)
    requires !IsNullOrWhiteSpace(Some(genre))
    ensures m in GetMovies(movies, None, Some(genre), sortBy, sortOrder, nulls)
            <==> m in movies && m.genre.Some? && ToLower(m.genre.value) == ToLower(genre)
    ensures m.genre.None? ==> m !in GetMovies(movies, None, Some(genre), sortBy, sortOrder, nulls)
  {
    GetMoviesSpec(movies, None, Some(genre), sortBy, sortOrder, nulls);
  }

  /** `sortBy` = "title" (any case): titles ascend, or descend when `sortOrder` is
      "desc" (any case); any other `sortOrder`, or none, ascends. */
  lemma TitleOrderSpec(movies: seq<Movie>, search: Option<string>, genre: Option<string>,
                       sortBy: string, sortOrder: Option<string>, nulls: NullPlacement)
    requires ToLower(sortBy) == "title"
    ensures var r := GetMovies(movies, search, genre, Some(sortBy), sortOrder, nulls);
            forall i, j :: 0 <= i < j < |r| ==>
              if IsDesc(sortOrder) then StrLe(r[j].title, r[i].title) else StrLe(r[i].title, r[j].title)
  {
    GetMoviesSpec(movies, search, genre, Some(sortBy), sortOrder, nulls);
  }

  /** `sortBy` = "rating" (any case): ratings follow the chosen direction, and records
      with equal ratings are in title-ascending order in both directions. */
  lemma RatingOrderSpec(movies: seq<Movie>, search: Option<string>, genre: Option<string>,
                        sortBy: string, sortOrder: Option<string>, nulls: NullPlacement)
    requires ToLower(sortBy) == "rating"
    ensures var r := GetMovies(movies, search, genre, Some(sortBy), sortOrder, nulls);
            && (forall i, j :: 0 <= i < j < |r| ==>
                 if IsDesc(sortOrder) then RatingLe(r[j].rating, r[i].rating, nulls)
                 else RatingLe(r[i].rating, r[j].rating, nulls))
            && (forall i, j :: 0 <= i < j < |r| && r[i].rating == r[j].rating ==> StrLe(r[i].title, r[j].title))
  {
    assert ToLower(sortBy) != "title";
    GetMoviesSpec(movies, search, genre, Some(sortBy), sortOrder, nulls);
  }

  /** A null `sortBy` (what an empty or white-space query value binds to) or an
      unrecognised one sorts by title ascending and ignores `sortOrder` entirely,
      "desc" included. */
  lemma FallbackOrderSpec(movies: seq<Movie>, search: Option<string>, genre: Option<string>,
                          sortBy: Option<string>, sortOrder: Option<string>, otherOrder: Option<string>,
                          nulls: NullPlacement)
    requires sortBy.None? || (ToLower(sortBy.value) != "title" && ToLower(sortBy.value) != "rating")
    ensures var r := GetMovies(movies, search, genre, sortBy, sortOrder, nulls);
            && r == GetMovies(movies, search, genre, sortBy, otherOrder, nulls)
            && r == GetMovies(movies, search, genre, Some("title"), Some("asc"), nulls)
            && forall i, j :: 0 <= i < j < |r| ==> StrLe(r[i].title, r[j].title)
  {
    assert ToLower("title") == "title";
    assert ToLower("asc") == "asc" && "asc" != "desc";
    GetMoviesSpec(movies, search, genre, sortBy, sortOrder, nulls);
  }

  // ---------------------------------------------------------------------------
  // Binding of the query string.
  // ---------------------------------------------------------------------------

  /** A query-string parameter as the request carries it. */
  datatype QueryParam = Absent | Present(text: string)

  /** Model binding of a `string?` parameter: an absent parameter takes the declared
      default; an empty or white-space value is converted to null; any other value is
      bound as written. */
  function Bind(p: QueryParam, default: Option<string>): Option<string>
  {
    match p
    case Absent => default
    case Present(text) => if IsNullOrWhiteSpace(Some(text)) then None else Some(text)
  }

  /** The list endpoint as a request reaches it: `search` and `genre` default to
      null, `sortBy` to "title" and `sortOrder` to "asc". */
  function GetMoviesQuery(movies: seq<Movie>, search: QueryParam, genre: QueryParam,
                          sortBy: QueryParam, sortOrder: QueryParam, nulls: NullPlacement): seq<Movie>
  {
    GetMovies(movies, Bind(search, None), Bind(genre, None),
              Bind(sortBy, Some("title")), Bind(sortOrder, Some("asc")), nulls)
  }

  /** Without a `sortBy` parameter the titles are sorted, and descend exactly when the
      `sortOrder` given folds to "desc"; without a `sortOrder` too they ascend. */
  lemma AbsentSortByFollowsOrder(movies: seq<Movie>, search: QueryParam, genre: QueryParam,
                                 sortOrder: QueryParam, nulls: NullPlacement)
    ensures var r := GetMoviesQuery(movies, search, genre, Absent, sortOrder, nulls);
            forall i, j :: 0 <= i < j < |r| ==>
              if sortOrder.Present? && ToLower(sortOrder.text) == "desc" then StrLe(r[j].title, r[i].title)
              else StrLe(r[i].title, r[j].title)
  {
    LowerFixed("title");
    LowerFixed("asc");
    var order := Bind(sortOrder, Some("asc"));
    if sortOrder.Present? && ToLower(sortOrder.text) == "desc" {
      assert !IsDotNetWhiteSpace(sortOrder.text[0]) by {
        assert ToLower(sortOrder.text)[0] == 'd';
      }
      assert IsDesc(order);
    }
    TitleOrderSpec(movies, Bind(search, None), Bind(genre, None), "title", order, nulls);
  }

  /** `?sortOrder=desc` alone sorts titles descending, while `?sortBy=&sortOrder=desc`
      (an empty `sortBy`, bound to null) sorts them ascending. */
  lemma SortByDefaultVersusEmpty()
    ensures ChooseOrdering(Bind(Absent, Some("title")), Bind(Present("desc"), Some("asc"))) == TitleDesc
    ensures ChooseOrdering(Bind(Present(""), Some("title")), Bind(Present("desc"), Some("asc"))) == TitleAsc
    ensures ChooseOrdering(Bind(Absent, Some("title")), Bind(Absent, Some("asc"))) == TitleAsc
  {
    LowerFixed("title");
    LowerFixed("desc");
    LowerFixed("asc");
    assert !IsDotNetWhiteSpace("desc"[0]);
  }

  /** A request without parameters keeps every record, in title-ascending order. */
  lemma BareRequestKeepsAll(movies: seq<Movie>, nulls: NullPlacement)
    ensures var r := GetMoviesQuery(movies, Absent, Absent, Absent, Absent, nulls);
            && multiset(r) == multiset(movies)
            && forall i, j :: 0 <= i < j < |r| ==> StrLe(r[i].title, r[j].title)
  {
    NoFilterKeepsAll(movies, None, None, Some("title"), Some("asc"), nulls);
    AbsentSortByFollowsOrder(movies, Absent, Absent, Absent, nulls);
  }

  // ---------------------------------------------------------------------------
  // The genre endpoint.
  // ---------------------------------------------------------------------------

  ghost predicate StrictlySorted(s: seq<string>)
  {
    forall i, j :: 0 <= i < j < |s| ==> StrLt(s[i], s[j])
  }

  /** Adds `g` to an ascending list without duplicates, keeping it so. */
  function InsertDistinct(g: string, s: seq<string>): (r: seq<string>)
    ensures forall x :: x in r <==> x == g || x in s
  {
    if s == [] then [g]
    else if g == s[0] then s
    else if StrLe(g, s[0]) then [g] + s
    else [s[0]] + InsertDistinct(g, s[1..])
  }

  lemma {:induction false} InsertDistinctSorted(g: string, s: seq<string>)
    requires StrictlySorted(s)
    ensures StrictlySorted(InsertDistinct(g, s))
  {
    var r := InsertDistinct(g, s);
    if s == [] || g == s[0] {
    } else if StrLe(g, s[0]) {
      forall j | 1 <= j < |r| ensures StrLt(r[0], r[j]) {
        if j > 1 {
          StrLeTrans(g, s[0], s[j - 1]);
          if g == s[j - 1] {
            StrLeAntisym(g, s[0]);
          }
        }
      }
    } else {
      StrLeTotal(g, s[0]);
      var tail := InsertDistinct(g, s[1..]);
      InsertDistinctSorted(g, s[1..]);
      forall j | 0 <= j < |tail| ensures StrLt(s[0], tail[j]) {
        assert tail[j] in tail;
        if tail[j] != g {
          var k :| 0 <= k < |s[1..]| && s[1..][k] == tail[j];
          assert s[k + 1] == tail[j];
        }
      }
      assert r == [s[0]] + tail;
    }
  }

  /** The non-null, non-empty genres of the records, each once, in ascending
      ordinal order. */
  function GetGenres(movies: seq<Movie>): (r: seq<string>)
  {
    if movies == [] then []
    else
      var rest := GetGenres(movies[1..]);
      match movies[0].genre
      case Some(g) => if g != "" then InsertDistinct(g, rest) else rest
      case None => rest
  }

  /** `g` is some record's genre. */
  ghost predicate HasGenre(movies: seq<Movie>, g: string)
  {
    exists i :: 0 <= i < |movies| && movies[i].genre == Some(g)
  }

  /** The genre list is strictly ascending (hence free of duplicates), never holds
      "", and holds exactly the non-empty genres that occur in the records. */
  lemma {:induction false} GetGenresSpec(movies: seq<Movie>)
    ensures StrictlySorted(GetGenres(movies))
    ensures "" !in GetGenres(movies)
    ensures forall g :: g in GetGenres(movies) <==> g != "" && HasGenre(movies, g)
  {
    if movies != [] {
      var rest := GetGenres(movies[1..]);
      GetGenresSpec(movies[1..]);
      if movies[0].genre.Some? && movies[0].genre.value != "" {
        InsertDistinctSorted(movies[0].genre.value, rest);
      }
      forall g ensures HasGenre(movies, g) <==> movies[0].genre == Some(g) || HasGenre(movies[1..], g) {
        if HasGenre(movies, g) {
          var i :| 0 <= i < |movies| && movies[i].genre == Some(g);
          if i > 0 {
            assert movies[1..][i - 1].genre == Some(g);
          }
        }
        if HasGenre(movies[1..], g) {
          var i :| 0 <= i < |movies[1..]| && movies[1..][i].genre == Some(g);
          assert movies[i + 1].genre == Some(g);
        }
      }
    }
  }

  // ---------------------------------------------------------------------------
  // Fixtures.
  // ---------------------------------------------------------------------------

  lemma FilterCons(x: Movie, rest: seq<Movie>, search: Option<string>, genre: Option<string>)
    ensures Filter([x] + rest, search, genre)
            == if Keep(x, search, genre) then [x] + Filter(rest, search, genre) else Filter(rest, search, genre)
  {
    assert ([x] + rest)[1..] == rest;
  }

  lemma InsertOne(o: Ordering, nulls: NullPlacement, x: Movie, z: Movie)
    ensures Insert(o, nulls, x, [z]) == if Precedes(o, nulls, x, z) then [x, z] else [z, x]
  {
    assert [z][1..] == [];
  }

  lemma SortTwo(o: Ordering, nulls: NullPlacement, x: Movie, y: Movie)
    ensures Sort(o, nulls, [x, y]) == if Precedes(o, nulls, x, y) then [x, y] else [y, x]
  {
    assert [y][1..] == [];
    assert Sort(o, nulls, [y]) == [y];
    assert [x, y][1..] == [y];
    InsertOne(o, nulls, x, y);
  }

  lemma SortThree(o: Ordering, nulls: NullPlacement, x: Movie, y: Movie, z: Movie)
    ensures Sort(o, nulls, [x, y, z]) == Insert(o, nulls, x, Sort(o, nulls, [y, z]))
  {
    assert [x, y, z][1..] == [y, z];
  }

  lemma InsertTwo(o: Ordering, nulls: NullPlacement, x: Movie, y: Movie, z: Movie)
    ensures Insert(o, nulls, x, [y, z])
            == if Precedes(o, nulls, x, y) then [x, y, z] else [y] + Insert(o, nulls, x, [z])
  {
    assert [y, z][1..] == [z];
  }

  /** Folding leaves a string of lower-case letters as it is. */
  lemma LowerFixed(s: string)
    requires forall i :: 0 <= i < |s| ==> 'a' <= s[i] <= 'z'
    ensures ToLower(s) == s
  {
  }

  lemma ChooseTitleAsc()
    ensures ChooseOrdering(Some("title"), Some("asc")) == TitleAsc
  {
    LowerFixed("title");
    LowerFixed("asc");
  }

  lemma ChooseDirectorDesc()
    ensures ChooseOrdering(Some("director"), Some("desc")) == TitleAsc
  {
    assert |ToLower("director")| == 8;
  }

  /** With no search text and no genre every record passes. */
  lemma {:induction false} FilterNothing(movies: seq<Movie>)
    ensures Filter(movies, None, None) == movies
  {
    if movies != [] {
      FilterNothing(movies[1..]);
      FilterCons(movies[0], movies[1..], None, None);
      assert movies == [movies[0]] + movies[1..];
    }
  }

  /** Three seeded records: two Sci-Fi titles and a Thriller. */
  const Inception := Movie(1, "Inception", Some("Sci-Fi"), Some(5), None, 0, 0)
  const Joker := Movie(2, "Joker", Some("Thriller"), Some(5), None, 0, 0)
  const TheMatrix := Movie(3, "The Matrix", Some("Sci-Fi"), Some(5), None, 0, 0)

  lemma SciFiGenreTests()
    ensures Keep(Inception, None, Some("sci-fi"))
    ensures !Keep(Joker, None, Some("sci-fi"))
    ensures Keep(TheMatrix, None, Some("sci-fi"))
  {
    assert !IsDotNetWhiteSpace("sci-fi"[0]);
    assert ToLower("Sci-Fi") == "sci-fi";
    assert ToLower("sci-fi") == "sci-fi";
    assert |ToLower("Thriller")| != |ToLower("sci-fi")|;
  }

  lemma FilterTheMatrix()
    ensures Filter([TheMatrix], None, Some("sci-fi")) == [TheMatrix]
  {
    SciFiGenreTests();
    FilterCons(TheMatrix, [], None, Some("sci-fi"));
    assert [TheMatrix] + [] == [TheMatrix];
  }

  lemma FilterJoker()
    ensures Filter([Joker, TheMatrix], None, Some("sci-fi")) == [TheMatrix]
  {
    SciFiGenreTests();
    FilterTheMatrix();
    FilterCons(Joker, [TheMatrix], None, Some("sci-fi"));
    assert [Joker] + [TheMatrix] == [Joker, TheMatrix];
  }

  lemma SciFiFilter()
    ensures Filter([Inception, Joker, TheMatrix], None, Some("sci-fi")) == [Inception, TheMatrix]
  {
    SciFiGenreTests();
    FilterJoker();
    FilterCons(Inception, [Joker, TheMatrix], None, Some("sci-fi"));
    assert [Inception] + [Joker, TheMatrix] == [Inception, Joker, TheMatrix];
    assert [Inception] + [TheMatrix] == [Inception, TheMatrix];
  }

  /** The three seeded records filtered by genre "sci-fi" in lower case: the two
      Sci-Fi titles remain, in title order. */
  lemma SciFiFixture(nulls: NullPlacement)
    ensures GetMovies([Inception, Joker, TheMatrix], None, Some("sci-fi"), Some("title"), Some("asc"), nulls)
            == [Inception, TheMatrix]
  {
    SciFiFilter();
    ChooseTitleAsc();
    assert StrLe("Inception", "The Matrix");
    SortTwo(TitleAsc, nulls, Inception, TheMatrix);
  }

  /** Three records for the null-placement fixtures: A has no rating, B is rated 2
      and C is rated 4. */
  const UnratedA := Movie(1, "A", None, None, None, 0, 0)
  const RatedB := Movie(2, "B", None, Some(2), None, 0, 0)
  const RatedC := Movie(3, "C", None, Some(4), None, 0, 0)

  /** How the three records compare under each rating order and null placement. */
  lemma NullRatingPrecedes()
    ensures Precedes(RatingAsc, NullsLow, RatedB, RatedC) && Precedes(RatingAsc, NullsLow, UnratedA, RatedB)
    ensures !Precedes(RatingDesc, NullsLow, RatedB, RatedC) && !Precedes(RatingDesc, NullsLow, UnratedA, RatedC)
    ensures !Precedes(RatingDesc, NullsLow, UnratedA, RatedB)
    ensures Precedes(RatingAsc, NullsHigh, RatedB, RatedC) && !Precedes(RatingAsc, NullsHigh, UnratedA, RatedB)
    ensures !Precedes(RatingAsc, NullsHigh, UnratedA, RatedC)
    ensures !Precedes(RatingDesc, NullsHigh, RatedB, RatedC) && Precedes(RatingDesc, NullsHigh, UnratedA, RatedC)
  {
  }

  /** Missing ratings low, ascending: A B C. */
  lemma NullsLowAscFixture()
    ensures Sort(RatingAsc, NullsLow, [UnratedA, RatedB, RatedC]) == [UnratedA, RatedB, RatedC]
  {
    NullRatingPrecedes();
    SortThree(RatingAsc, NullsLow, UnratedA, RatedB, RatedC);
    SortTwo(RatingAsc, NullsLow, RatedB, RatedC);
    InsertTwo(RatingAsc, NullsLow, UnratedA, RatedB, RatedC);
  }

  /** Missing ratings low, descending: C B A. */
  lemma NullsLowDescFixture()
    ensures Sort(RatingDesc, NullsLow, [UnratedA, RatedB, RatedC]) == [RatedC, RatedB, UnratedA]
  {
    NullRatingPrecedes();
    SortThree(RatingDesc, NullsLow, UnratedA, RatedB, RatedC);
    SortTwo(RatingDesc, NullsLow, RatedB, RatedC);
    InsertTwo(RatingDesc, NullsLow, UnratedA, RatedC, RatedB);
    InsertOne(RatingDesc, NullsLow, UnratedA, RatedB);
    assert [RatedC] + [RatedB, UnratedA] == [RatedC, RatedB, UnratedA];
  }

  /** Missing ratings high, ascending: B C A. */
  lemma NullsHighAscFixture()
    ensures Sort(RatingAsc, NullsHigh, [UnratedA, RatedB, RatedC]) == [RatedB, RatedC, UnratedA]
  {
    NullRatingPrecedes();
    SortThree(RatingAsc, NullsHigh, UnratedA, RatedB, RatedC);
    SortTwo(RatingAsc, NullsHigh, RatedB, RatedC);
    InsertTwo(RatingAsc, NullsHigh, UnratedA, RatedB, RatedC);
    InsertOne(RatingAsc, NullsHigh, UnratedA, RatedC);
    assert [RatedB] + [RatedC, UnratedA] == [RatedB, RatedC, UnratedA];
  }

  /** Missing ratings high, descending: A C B. */
  lemma NullsHighDescFixture()
    ensures Sort(RatingDesc, NullsHigh, [UnratedA, RatedB, RatedC]) == [UnratedA, RatedC, RatedB]
  {
    NullRatingPrecedes();
    SortThree(RatingDesc, NullsHigh, UnratedA, RatedB, RatedC);
    SortTwo(RatingDesc, NullsHigh, RatedB, RatedC);
    InsertTwo(RatingDesc, NullsHigh, UnratedA, RatedC, RatedB);
  }

  /** Two unrated records titled "X" and "Y". */
  const MovieX := Movie(1, "X", None, None, None, 0, 0)
  const MovieY := Movie(2, "Y", None, None, None, 0, 0)

  lemma SortYX(nulls: NullPlacement)
    ensures Sort(TitleAsc, nulls, [MovieY, MovieX]) == [MovieX, MovieY]
  {
    assert !StrLe("Y", "X");
    SortTwo(TitleAsc, nulls, MovieY, MovieX);
  }

  /** An unrecognised `sortBy` such as "director" sorts ascending even with "desc". */
  lemma UnknownSortByIgnoresDesc(nulls: NullPlacement)
    ensures GetMovies([MovieY, MovieX], None, None, Some("director"), Some("desc"), nulls) == [MovieX, MovieY]
  {
    FilterNothing([MovieY, MovieX]);
    ChooseDirectorDesc();
    SortYX(nulls);
  }
}
