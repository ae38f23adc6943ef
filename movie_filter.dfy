/**
 * The dashboard's filter pipeline: from the raw movie list and the three user
 * criteria, the list of movies to show. The raw list is filtered by title, then
 * by genre when one is selected, then by release year when one is given.
 */
module MovieFilter {
  import opened Wrappers
  import opened Text
  import opened Sequences

  /**
   * A movie record from the catalog service, with the fields the filter reads:
   * its title, the ids of its genres, and its release date, which may be absent.
   */
  datatype Movie = Movie(title: string, genreIds: seq<int>, releaseDate: Option<string>)

  /**
   * The user's filter inputs: the search text, the selected genre id (None for
   * "All Genres"), and the year text ("" when no year is entered).
   */
  datatype Criteria = Criteria(search: string, genre: Option<int>, year: string)

  /** The criteria a fresh dashboard starts with: nothing typed and nothing selected. */
  const NoCriteria := Criteria("", None, "")

  /** The title test: the lower-cased title contains the lower-cased search text. */
  predicate MatchesTitle(m: Movie, search: string) {
    Contains(ToLower(m.title), ToLower(search))
  }

  /** The genre test: the movie's genre ids include the selected id. */
  predicate MatchesGenre(m: Movie, genre: int) {
    genre in m.genreIds
  }

  /**
   * The year test: the release date is present and truthy (not the empty string)
   * and contains the year text.
   */
  predicate MatchesYear(m: Movie, year: string) {
    m.releaseDate.Some? && m.releaseDate.value != "" && Contains(m.releaseDate.value, year)
  }

  function TitleTest(search: string): Movie -> bool {
    m => MatchesTitle(m, search)
  }

  function GenreTest(genre: int): Movie -> bool {
    m => MatchesGenre(m, genre)
  }

  function YearTest(year: string): Movie -> bool {
    m => MatchesYear(m, year)
  }

  /** The first stage: every movie whose title matches the search text. */
  function ByTitle(movies: seq<Movie>, c: Criteria): seq<Movie> {
    Select(movies, TitleTest(c.search))
  }

  /** The second stage: the genre filter, skipped when no genre is selected. */
  function ByGenre(movies: seq<Movie>, c: Criteria): seq<Movie> {
    if c.genre.Some? then Select(movies, GenreTest(c.genre.value)) else movies
  }

  /** The third stage: the year filter, skipped when the year text is empty. */
  function ByYear(movies: seq<Movie>, c: Criteria): seq<Movie> {
    if c.year != "" then Select(movies, YearTest(c.year)) else movies
  }

  /** The filtered list of the dashboard: the three stages in sequence. */
  function Filter(movies: seq<Movie>, c: Criteria): (r: seq<Movie>)
    ensures |r| <= |movies|
  {
    ByYear(ByGenre(ByTitle(movies, c), c), c)
  }

  /** The single-pass reference: a movie passes when all three criteria hold of it. */
  predicate Matches(m: Movie, c: Criteria) {
    && MatchesTitle(m, c.search)
    && (c.genre.None? || MatchesGenre(m, c.genre.value))
    && (c.year == "" || MatchesYear(m, c.year))
  }

  function MatchesTest(c: Criteria): Movie -> bool {
    m => Matches(m, c)
  }

  /** The genre and year stages together are one pass with their conjunction. */
  lemma LaterStagesFuse(s: seq<Movie>, c: Criteria)
    ensures ByYear(ByGenre(s, c), c) ==
            Select(s, m => (c.genre.None? || MatchesGenre(m, c.genre.value)) && (c.year == "" || MatchesYear(m, c.year)))
  {
    var rest := (m: Movie) => (c.genre.None? || MatchesGenre(m, c.genre.value)) && (c.year == "" || MatchesYear(m, c.year));
    if c.genre.Some? && c.year != "" {
      SelectFuse(s, GenreTest(c.genre.value), YearTest(c.year), rest);
    } else if c.genre.Some? {
      SelectCongruent(s, GenreTest(c.genre.value), rest);
    } else if c.year != "" {
      SelectCongruent(s, YearTest(c.year), rest);
    } else {
      SelectAllPass(s, rest);
    }
  }

  /**
   * The chained filters keep exactly what one filter by `Matches` keeps, with the
   * same multiplicity and in the same order.
   */
  lemma FilterIsSelectMatches(movies: seq<Movie>, c: Criteria)
    ensures Filter(movies, c) == Select(movies, MatchesTest(c))
  {
    var rest := (m: Movie) => (c.genre.None? || MatchesGenre(m, c.genre.value)) && (c.year == "" || MatchesYear(m, c.year));
    LaterStagesFuse(ByTitle(movies, c), c);
    SelectFuse(movies, TitleTest(c.search), rest, MatchesTest(c));
  }

  /**
   * A movie is in the filtered list exactly when it is in the raw list, its
   * lower-cased title contains the lower-cased search text, no genre is selected
   * or its genre ids include the selected one, and no year is given or its
   * release date is present, non-empty and contains the year text.
   */
  lemma FilterMember(movies: seq<Movie>, c: Criteria, m: Movie)
    ensures m in Filter(movies, c) <==>
      && m in movies
      && Contains(ToLower(m.title), ToLower(c.search))
      && (c.genre.None? || c.genre.value in m.genreIds)
      && (c.year == "" || (m.releaseDate.Some? && m.releaseDate.value != "" && Contains(m.releaseDate.value, c.year)))
  {
    FilterIsSelectMatches(movies, c);
    SelectMember(movies, MatchesTest(c), m);
  }

  /** The filtered list is a subsequence of the raw list: nothing added, order kept. */
  lemma FilterIsSubsequence(movies: seq<Movie>, c: Criteria)
    ensures IsSubsequence(Filter(movies, c), movies)
  {
    FilterIsSelectMatches(movies, c);
    SelectIsSubsequence(movies, MatchesTest(c));
  }

  /** With nothing typed and nothing selected, every movie is shown. */
  lemma FilterNoCriteria(movies: seq<Movie>)
    ensures Filter(movies, NoCriteria) == movies
  {
    SelectAllPass(movies, TitleTest(""));
  }

  /** A search text with the same lower-cased form selects the same movies. */
  lemma FilterSearchCaseInsensitive(movies: seq<Movie>, c: Criteria, search: string)
    requires ToLower(search) == ToLower(c.search)
    ensures Filter(movies, c.(search := search)) == Filter(movies, c)
  {
    SelectCongruent(movies, TitleTest(search), TitleTest(c.search));
  }

  /** In particular, upper-casing the search text changes nothing. */
  lemma FilterSearchUpperCase(movies: seq<Movie>, c: Criteria)
    ensures Filter(movies, c.(search := ToUpper(c.search))) == Filter(movies, c)
  {
    ToLowerOfToUpper(c.search);
    FilterSearchCaseInsensitive(movies, c, ToUpper(c.search));
  }

  /** The movie with its title upper-cased, every other field as it was. */
  function UpcaseTitle(m: Movie): (r: Movie)
    ensures r.genreIds == m.genreIds && r.releaseDate == m.releaseDate
    ensures ToLower(r.title) == ToLower(m.title)
  {
    ToLowerOfToUpper(m.title);
    m.(title := ToUpper(m.title))
  }

  /**
   * Changing the case of titles does not change which movies are kept: for any
   * re-casing `f` that keeps each lower-cased title and every other field, in
   * whatever way it treats each movie, filtering the re-cased list gives the
   * re-cased filtered list.
   */
  lemma FilterRecaseTitles(movies: seq<Movie>, c: Criteria, f: Movie -> Movie)
    requires forall m :: ToLower(f(m).title) == ToLower(m.title) && f(m).genreIds == m.genreIds && f(m).releaseDate == m.releaseDate
    ensures Filter(Map(movies, f), c) == Map(Filter(movies, c), f)
  {
    FilterIsSelectMatches(movies, c);
    FilterIsSelectMatches(Map(movies, f), c);
    SelectMap(movies, f, MatchesTest(c), MatchesTest(c));
  }

  /** The instance with every title upper-cased. */
  lemma FilterTitleCaseInsensitive(movies: seq<Movie>, c: Criteria)
    ensures Filter(Map(movies, UpcaseTitle), c) == Map(Filter(movies, c), UpcaseTitle)
  {
    FilterRecaseTitles(movies, c, UpcaseTitle);
  }

  /** When a year is given, a movie with an absent or empty release date is never shown. */
  lemma FilterYearExcludesMissingDate(movies: seq<Movie>, c: Criteria, m: Movie)
    requires c.year != ""
    requires m.releaseDate == None || m.releaseDate == Some("")
    ensures m !in Filter(movies, c)
  {
  }

  /** Selecting a genre never enlarges the result. */
  lemma FilterGenreNarrows(movies: seq<Movie>, c: Criteria, genre: int)
    ensures IsSubsequence(Filter(movies, c.(genre := Some(genre))), Filter(movies, c.(genre := None)))
  {
    var titled := ByTitle(movies, c);
    SelectIsSubsequence(titled, GenreTest(genre));
    if c.year != "" {
      SelectMonotone(Select(titled, GenreTest(genre)), titled, YearTest(c.year));
    }
  }

  /** Entering a year never enlarges the result. */
  lemma FilterYearNarrows(movies: seq<Movie>, c: Criteria, year: string)
    ensures IsSubsequence(Filter(movies, c.(year := year)), Filter(movies, c.(year := "")))
  {
    var staged := ByGenre(ByTitle(movies, c), c);
    if year != "" {
      SelectIsSubsequence(staged, YearTest(year));
    } else {
      SubsequenceReflexive(staged);
    }
  }

  /**
   * Selecting a genre and entering a year together never enlarge the result of
   * the title search alone, neither in order nor in length.
   */
  lemma FilterNarrowsTitleSearch(movies: seq<Movie>, c: Criteria)
    ensures IsSubsequence(Filter(movies, c), Filter(movies, c.(genre := None, year := "")))
    ensures |Filter(movies, c)| <= |Filter(movies, c.(genre := None, year := ""))|
  {
    var noYear := c.(year := "");
    FilterYearNarrows(movies, c, c.year);
    assert c.(year := c.year) == c;
    FilterGenreNarrows(movies, noYear, if c.genre.Some? then c.genre.value else 0);
    if c.genre.Some? {
      assert noYear.(genre := Some(c.genre.value)) == noYear;
      SubsequenceTransitive(Filter(movies, c), Filter(movies, noYear), Filter(movies, noYear.(genre := None)));
    } else {
      assert noYear.(genre := None) == noYear;
    }
    assert noYear.(genre := None) == c.(genre := None, year := "");
    SubsequenceLength(Filter(movies, c), Filter(movies, c.(genre := None, year := "")));
  }

  /** Filtering the filtered list again with the same criteria returns it unchanged. */
  lemma FilterIdempotent(movies: seq<Movie>, c: Criteria)
    ensures Filter(Filter(movies, c), c) == Filter(movies, c)
  {
    FilterIsSelectMatches(movies, c);
    FilterIsSelectMatches(Filter(movies, c), c);
    SelectIdempotent(movies, MatchesTest(c));
  }

  const Dune := Movie("Dune", [1], Some("2021-10-01"))
  const Cars := Movie("Cars", [2], Some("2006-06-09"))

  /** Filtering a two-movie list keeps each movie exactly when it matches. */
  lemma FilterPair(a: Movie, b: Movie, c: Criteria)
    ensures Filter([a, b], c) ==
      (if Matches(a, c) then [a] else []) + (if Matches(b, c) then [b] else [])
  {
    FilterIsSelectMatches([a, b], c);
    assert [a, b][1..] == [b];
  }

  /** Searching "du" shows Dune only. */
  lemma ExampleSearch()
    ensures Filter([Dune, Cars], Criteria("du", None, "")) == [Dune]
  {
    assert ToLower(Dune.title) == "dune";
    assert ToLower(Cars.title) == "cars";
    assert ToLower("du") == "du";
    assert MatchesTitle(Dune, "du") by {
      assert IsPrefix("du", "dune");
    }
    assert !Contains("cars", "du") by {
      assert "cars"[1..] == "ars" && "ars"[1..] == "rs" && "rs"[1..] == "s";
      assert !IsPrefix("du", "cars") && !IsPrefix("du", "ars") && !IsPrefix("du", "rs");
      assert !Contains("s", "du");
    }
    FilterPair(Dune, Cars, Criteria("du", None, ""));
  }

  /** The year "2006" shows Cars only. */
  lemma ExampleYear()
    ensures Filter([Dune, Cars], Criteria("", None, "2006")) == [Cars]
  {
    var c := Criteria("", None, "2006");
    assert !Matches(Dune, c) by {
      var d := "2021-10-01";
      assert '6' !in d;
      if Contains(d, "2006") {
        ContainsChars(d, "2006", 3);
      }
    }
    assert Matches(Cars, c) by {
      assert MatchesTitle(Cars, "") by {
        assert ToLower("") == "";
      }
      assert IsPrefix("2006", "2006-06-09");
    }
    FilterPair(Dune, Cars, c);
  }

  /** A search text that matches no title shows nothing. */
  lemma ExampleNoMatch()
    ensures Filter([Dune, Cars], Criteria("zz", None, "")) == []
  {
    assert ToLower(Dune.title) == "dune";
    assert ToLower(Cars.title) == "cars";
    assert ToLower("zz") == "zz";
    assert !Contains("dune", "zz") by {
      assert "dune"[1..] == "une" && "une"[1..] == "ne" && "ne"[1..] == "e";
      assert !IsPrefix("zz", "dune") && !IsPrefix("zz", "une") && !IsPrefix("zz", "ne");
      assert !Contains("e", "zz");
    }
    assert !Contains("cars", "zz") by {
      assert "cars"[1..] == "ars" && "ars"[1..] == "rs" && "rs"[1..] == "s";
      assert !IsPrefix("zz", "cars") && !IsPrefix("zz", "ars") && !IsPrefix("zz", "rs");
      assert !Contains("s", "zz");
    }
    FilterPair(Dune, Cars, Criteria("zz", None, ""));
  }
}
