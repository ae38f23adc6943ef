/**
 * The dashboard component's state: the raw movie list, the filter inputs, the
 * filtered list and the movie count shown in the summary. Each setter of the
 * component is a method that assigns its field; the filter effect is `Refilter`.
 */
module DashboardState {
  import opened Wrappers
  import opened MovieFilter

  class Dashboard {
    var movies: seq<Movie>
    var filteredMovies: seq<Movie>
    var searchTerm: string
    var selectedGenre: Option<int>
    var selectedYear: string
    var totalMovies: int

    /** The summary count describes the list on screen. */
    ghost predicate Valid()
      reads this
    {
      totalMovies == |filteredMovies|
    }

    /** The criteria the inputs currently hold. */
    function CurrentCriteria(): Criteria
      reads this
    {
      Criteria(searchTerm, selectedGenre, selectedYear)
    }

    /** The list on screen is what the filter makes of the raw list and the inputs. */
    ghost predicate UpToDate()
      reads this
    {
      filteredMovies == Filter(movies, CurrentCriteria())
    }

    /** Every piece of state starts empty, and the count at zero. */
    constructor ()
      ensures Valid() && UpToDate()
      ensures movies == [] && filteredMovies == [] && totalMovies == 0
      ensures CurrentCriteria() == NoCriteria
    {
      movies, filteredMovies := [], [];
      searchTerm, selectedGenre, selectedYear := "", None, "";
      totalMovies := 0;
    }

    /** The count part of the statistics: the total is the length of the given list. */
    method CalculateStats(list: seq<Movie>)
      modifies this`totalMovies
      ensures totalMovies == |list|
    {
      totalMovies := |list|;
    }

    /**
     * A successful fetch: the results become both the raw and the filtered list,
     * and the count is taken of them. The inputs are untouched.
     */
    method Load(results: seq<Movie>)
      modifies this`movies, this`filteredMovies, this`totalMovies
      ensures Valid()
      ensures movies == results && filteredMovies == results && totalMovies == |results|
      ensures CurrentCriteria() == old(CurrentCriteria())
      ensures CurrentCriteria() == NoCriteria ==> UpToDate()
    {
      movies := results;
      filteredMovies := results;
      CalculateStats(results);
      FilterNoCriteria(results);
    }

    method SetSearchTerm(search: string)
      modifies this`searchTerm
      ensures searchTerm == search
    {
      searchTerm := search;
    }

    method SetSelectedGenre(genre: Option<int>)
      modifies this`selectedGenre
      ensures selectedGenre == genre
    {
      selectedGenre := genre;
    }

    method SetSelectedYear(year: string)
      modifies this`selectedYear
      ensures selectedYear == year
    {
      selectedYear := year;
    }

    /**
     * The filter effect: recompute the filtered list from the raw list and the
     * inputs, then recount. Afterwards the count matches the list, the list is a
     * subsequence of the raw list, and the raw list and inputs are unchanged.
     */
    method Refilter()
      modifies this`filteredMovies, this`totalMovies
      ensures Valid() && UpToDate()
      ensures movies == old(movies) && CurrentCriteria() == old(CurrentCriteria())
      ensures filteredMovies == Filter(movies, CurrentCriteria())
      ensures totalMovies <= |movies|
    {
      var results := Filter(movies, CurrentCriteria());
      filteredMovies := results;
      CalculateStats(results);
    }
  }

  /** A load followed by the effect it triggers leaves the dashboard consistent. */
  method LoadThenRefilter(d: Dashboard, results: seq<Movie>)
    modifies d
    ensures d.Valid() && d.UpToDate()
    ensures d.movies == results
    ensures d.CurrentCriteria() == old(d.CurrentCriteria())
  {
    d.Load(results);
    d.Refilter();
  }
}
