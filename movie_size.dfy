/**
 * The movie size browser (plex_sync/movie_size.py): the command that keeps
 * the watched (or, with `--unwatched`, the unwatched) movies that have
 * media of positive size, ranks them by size and keeps the top `limit`;
 * and the table browser over that ranking, with its row map, the
 * selection, the delete and the re-encode file collection.
 */
module MovieSize {

  import opened Wrappers
  import opened Plex
  import Text
  import Ranking
  import ArrLookup
  import Radarr
  import opened Selection
  import opened Folds

  // ---------------------------------------------------------------------
  // The command
  // ---------------------------------------------------------------------

  /** One element of `movies_list`: the movie and its total size in bytes. */
  datatype MovieEntry = MovieEntry(movie: Movie, size: int)

  function EntrySize(e: MovieEntry): int {
    e.size
  }

  /**
   * `movie.isWatched != unwatched and movie.media`. A flag holding None differs
   * from both booleans, so such a movie passes either filter.
   */
  predicate Considered(m: Movie, unwatched: bool) {
    m.isWatched != Some(unwatched) && m.media != []
  }

  /** What the scan appends for a movie: considered, and of positive size. */
  predicate Kept(m: Movie, unwatched: bool) {
    Considered(m, unwatched) && MediaSize(m.media) > 0
  }

  function EntryFor(m: Movie): MovieEntry {
    MovieEntry(m, MediaSize(m.media))
  }

  /** The filter of the scan: Kept, as a function value. */
  function KeptBy(unwatched: bool): Movie -> bool {
    (x: Movie) => Kept(x, unwatched)
  }

  /** `movies_list` after the scan: the entries of the kept movies, in scan order. */
  function CandidatesOf(movies: seq<Movie>, unwatched: bool): (r: seq<MovieEntry>)
    ensures |r| <= |movies|
  {
    Keep(movies, KeptBy(unwatched), EntryFor)
  }

  lemma CandidatesStep(scanned: seq<Movie>, movie: Movie, unwatched: bool)
    ensures CandidatesOf(scanned + [movie], unwatched)
            == CandidatesOf(scanned, unwatched) + (if Kept(movie, unwatched) then [EntryFor(movie)] else [])
  {
    KeepStep(scanned, movie, KeptBy(unwatched), EntryFor);
  }

  lemma CandidatesAppend(a: seq<Movie>, b: seq<Movie>, unwatched: bool)
    ensures CandidatesOf(a + b, unwatched) == CandidatesOf(a, unwatched) + CandidatesOf(b, unwatched)
  {
    KeepAppend(a, b, KeptBy(unwatched), EntryFor);
  }

  /** Every kept movie is a candidate. */
  lemma KeptIsCandidate(movies: seq<Movie>, unwatched: bool, i: nat)
    requires i < |movies| && Kept(movies[i], unwatched)
    ensures EntryFor(movies[i]) in CandidatesOf(movies, unwatched)
  {
    KeepMember(movies, KeptBy(unwatched), EntryFor, i);
  }

  /** Every candidate is the entry of a kept movie, so its size is positive. */
  lemma CandidateIsKept(movies: seq<Movie>, unwatched: bool, x: MovieEntry)
    requires x in CandidatesOf(movies, unwatched)
    ensures exists i :: 0 <= i < |movies| && Kept(movies[i], unwatched) && x == EntryFor(movies[i])
    ensures x.size > 0
  {
    KeepSource(movies, KeptBy(unwatched), EntryFor, x);
  }

  /** `[s for s in sections if s.type == "movie"]`. */
  function MovieSections(sections: seq<Section>): (r: seq<Section>)
    ensures forall i :: 0 <= i < |r| ==> r[i].kind == "movie"
    ensures forall s :: s in sections && s.kind == "movie" ==> s in r
    ensures forall s :: s in r ==> s in sections
  {
    if sections == [] then []
    else
      var init := sections[..|sections| - 1];
      assert forall s :: s in init ==> s in sections;
      assert forall s :: s in sections ==> s in init || s == sections[|sections| - 1];
      MovieSections(init) + (if sections[|sections| - 1].kind == "movie" then [sections[|sections| - 1]] else [])
  }

  /** Every movie of the given sections, section by section. */
  function MoviesOf(sections: seq<Section>): seq<Movie> {
    Flatten(sections, SectionMovies)
  }

  function SectionMovies(s: Section): seq<Movie> {
    s.movies
  }

  /** The movies the command ranks, with their sizes. */
  function Candidates(sections: seq<Section>, unwatched: bool): seq<MovieEntry> {
    CandidatesOf(MoviesOf(MovieSections(sections)), unwatched)
  }

  datatype CliOutcome =
    | NoMovieLibraries
    | NoSizedMovies
    | Ranked(top: seq<MovieEntry>)

  /** The loop over the movies of one section: what it appends to `movies_list`. */
  method ScanMovies(movies: seq<Movie>, unwatched: bool) returns (entries: seq<MovieEntry>)
    ensures entries == CandidatesOf(movies, unwatched)
  {
    entries := [];
    for j := 0 to |movies|
      invariant entries == CandidatesOf(movies[..j], unwatched)
    {
      var movie := movies[j];
      assert movies[..j + 1] == movies[..j] + [movie];
      CandidatesStep(movies[..j], movie, unwatched);
      if movie.isWatched != Some(unwatched) && movie.media != [] {
        var totalSize := MediaSize(movie.media);
        if totalSize > 0 {
          entries := entries + [MovieEntry(movie, totalSize)];
        }
      }
    }
    assert movies[..|movies|] == movies;
  }

  /** The loop over the movie libraries: `movies_list` after the scan. */
  method ScanSections(movieSections: seq<Section>, unwatched: bool) returns (moviesList: seq<MovieEntry>)
    ensures moviesList == CandidatesOf(MoviesOf(movieSections), unwatched)
  {
    moviesList := [];
    for i := 0 to |movieSections|
      invariant moviesList == CandidatesOf(MoviesOf(movieSections[..i]), unwatched)
    {
      var section := movieSections[i];
      assert movieSections[..i + 1] == movieSections[..i] + [section];
      FlattenStep(movieSections[..i], section, SectionMovies);
      var entries := ScanMovies(section.movies, unwatched);
      CandidatesAppend(MoviesOf(movieSections[..i]), section.movies, unwatched);
      moviesList := moviesList + entries;
    }
    assert movieSections[..|movieSections|] == movieSections;
  }

  /**
   * The command without its I/O: the movie libraries, the candidate movies
   * (scanned section by section), then the `limit` largest by a stable
   * descending sort.
   */
  method Cli(sections: seq<Section>, unwatched: bool, limit: int) returns (outcome: CliOutcome)
    ensures outcome.NoMovieLibraries? <==> MovieSections(sections) == []
    ensures MovieSections(sections) != [] ==>
              var top := Ranking.Take(Ranking.SortDesc(Candidates(sections, unwatched), EntrySize), limit);
              outcome == if top == [] then NoSizedMovies else Ranked(top)
    ensures outcome.Ranked? && limit >= 0 ==> outcome.top == Ranking.Top(Candidates(sections, unwatched), EntrySize, limit)
  {
    var movieSections := MovieSections(sections);
    if movieSections == [] {
      return NoMovieLibraries;
    }
    var moviesList := ScanSections(movieSections, unwatched);
    var sorted := Ranking.SortDesc(moviesList, EntrySize);
    var top := Ranking.Take(sorted, limit);
    if top == [] {
      return NoSizedMovies;
    }
    return Ranked(top);
  }

  // ---------------------------------------------------------------------
  // Durations
  // ---------------------------------------------------------------------

  const MillisPerHour := 1000 * 60 * 60
  const MillisPerMinute := 1000 * 60

  /** `duration // (1000 * 60 * 60)`; Python floors, as Dafny's division does for a positive divisor. */
  function Hours(d: int): int {
    d / MillisPerHour
  }

  /** `(duration % (1000 * 60 * 60)) // (1000 * 60)`. */
  function Minutes(d: int): int {
    (d % MillisPerHour) / MillisPerMinute
  }

  /** The split loses nothing but the seconds: minutes below 60, and hours and minutes make the whole minutes. */
  lemma DurationSplit(d: int)
    ensures 0 <= Minutes(d) < 60
    ensures Hours(d) * 60 + Minutes(d) == d / MillisPerMinute
  {
    var q, r := d / 3600000, d % 3600000;
    assert d == 3600000 * q + r && 0 <= r < 3600000;
    var m, r2 := r / 60000, r % 60000;
    assert r == 60000 * m + r2 && 0 <= r2 < 60000;
    assert d == 60000 * (60 * q + m) + r2;
  }

  /** The Duration cell: `f"{hours}h {minutes:02d}m"` for a truthy duration, `"   0h 00m"` otherwise. */
  function DurationText(duration: Option<int>): (r: string)
    ensures duration.None? || duration.value == 0 ==> r == "   0h 00m"
    ensures duration.Some? && duration.value != 0 ==>
              exists h: int, m: nat :: m < 60 && h * 60 + m == duration.value / MillisPerMinute
                                      && r == Text.IntToString(h) + "h " + Text.ZeroPad(m, 2) + "m"
  {
    if duration.Some? && duration.value != 0 then
      var d := duration.value;
      DurationSplit(d);
      Text.IntToString(Hours(d)) + "h " + Text.ZeroPad(Minutes(d), 2) + "m"
    else "   0h 00m"
  }

  // ---------------------------------------------------------------------
  // The browser
  // ---------------------------------------------------------------------

  /** The title cell: `Title (year)` when the year is truthy. */
  function RowTitle(m: Movie): (r: string)
    ensures m.title <= r
    ensures r == m.title <==> !(m.year.Some? && m.year.value != 0)
  {
    if m.year.Some? && m.year.value != 0 then m.title + " (" + Text.IntToString(m.year.value) + ")" else m.title
  }

  /**
   * The text cells of the row showing `e` at rank `rank` (counted from 1):
   * checkbox, rank, title and duration. The library, float and rating
   * columns are not modelled.
   */
  function RowCells(rank: nat, e: MovieEntry): seq<string> {
    [" ", Text.ZeroPad(rank, 3), RowTitle(e.movie), DurationText(e.movie.duration)]
  }

  /** `row_to_movie[row_key] = movie` for each added row, in order: a later equal key overwrites. */
  function Assigned(m: map<RowKey, Movie>, keys: seq<RowKey>, entries: seq<MovieEntry>): map<RowKey, Movie>
    requires |keys| == |entries|
  {
    if keys == [] then m
    else
      Assigned(m, keys[..|keys| - 1], entries[..|entries| - 1])[keys[|keys| - 1] := entries[|entries| - 1].movie]
  }

  /** After the assignments the map holds exactly the old keys and the row keys. */
  lemma {:induction false} AssignedDomain(m: map<RowKey, Movie>, keys: seq<RowKey>, entries: seq<MovieEntry>, k: RowKey)
    requires |keys| == |entries|
    ensures k in Assigned(m, keys, entries) <==> k in m || k in keys
  {
    if keys != [] {
      var ki, ei := keys[..|keys| - 1], entries[..|entries| - 1];
      AssignedDomain(m, ki, ei, k);
      assert keys == ki + [keys[|keys| - 1]];
    }
  }

  /** A row's key holds that row's movie unless a later row has the same key. */
  lemma {:induction false} AssignedRow(m: map<RowKey, Movie>, keys: seq<RowKey>, entries: seq<MovieEntry>, i: nat)
    requires |keys| == |entries| && i < |keys|
    requires forall j :: i < j < |keys| ==> keys[j] != keys[i]
    ensures keys[i] in Assigned(m, keys, entries) && Assigned(m, keys, entries)[keys[i]] == entries[i].movie
  {
    if i < |keys| - 1 {
      var ki, ei := keys[..|keys| - 1], entries[..|entries| - 1];
      assert ki[i] == keys[i] && ei[i] == entries[i];
      assert forall j :: i < j < |ki| ==> ki[j] == keys[j];
      AssignedRow(m, ki, ei, i);
    }
  }

  /** Keys of no row keep their old movie. */
  lemma {:induction false} AssignedOthers(m: map<RowKey, Movie>, keys: seq<RowKey>, entries: seq<MovieEntry>, k: RowKey)
    requires |keys| == |entries| && k in m && k !in keys
    ensures k in Assigned(m, keys, entries) && Assigned(m, keys, entries)[k] == m[k]
  {
    if keys != [] {
      var ki, ei := keys[..|keys| - 1], entries[..|entries| - 1];
      assert keys == ki + [keys[|keys| - 1]];
      AssignedOthers(m, ki, ei, k);
    }
  }

  /** The movies behind the selected rows, visiting the rows in `order`, skipping rows not in the map. */
  function MoviesFor(order: seq<RowKey>, m: map<RowKey, Movie>): seq<Movie> {
    if order == [] then []
    else
      var k := order[|order| - 1];
      MoviesFor(order[..|order| - 1], m) + (if k in m then [m[k]] else [])
  }

  lemma MoviesForStep(order: seq<RowKey>, k: RowKey, m: map<RowKey, Movie>)
    ensures MoviesFor(order + [k], m) == MoviesFor(order, m) + (if k in m then [m[k]] else [])
  {
    assert (order + [k])[..|order|] == order;
  }

  /** A movie is selected exactly when some visited row maps to it. */
  lemma {:induction false} MoviesForMembership(order: seq<RowKey>, m: map<RowKey, Movie>, x: Movie)
    ensures x in MoviesFor(order, m) <==> exists i :: 0 <= i < |order| && order[i] in m && m[order[i]] == x
  {
    if order != [] {
      var init := order[..|order| - 1];
      MoviesForMembership(init, m, x);
      assert forall i :: 0 <= i < |init| ==> init[i] == order[i];
    }
  }

  /** The truthy `part.file` values of one movie, when it has media. */
  function MovieFiles(m: Movie): seq<string> {
    if m.media != [] then MediaFiles(m.media) else []
  }

  /** The truthy `part.file` values of the movies that have media, movie by movie. */
  function MoviesFiles(movies: seq<Movie>): seq<string> {
    Flatten(movies, MovieFiles)
  }

  /** A file is collected exactly when some part of some selected movie holds it as a non-empty `file`. */
  lemma MoviesFilesMembership(movies: seq<Movie>, f: string)
    ensures f in MoviesFiles(movies) <==> exists i :: 0 <= i < |movies| && f in MediaFiles(movies[i].media)
  {
    FlattenMembership(movies, MovieFiles, f);
    assert forall i :: 0 <= i < |movies| ==> MovieFiles(movies[i]) == MediaFiles(movies[i].media);
  }

  /** `radarr_client.delete_movie(movie)` succeeds: the lookup finds the movie and the DELETE succeeds. */
  predicate DeleteSucceeds(movieList: Option<seq<ArrLookup.Item>>, m: Movie, deleteOk: Movie -> bool) {
    ArrLookup.Lookup(movieList, m.title, m.year).Some? && deleteOk(m)
  }

  /** What the delete loop reports, movie by movie. */
  function DeleteResults(movies: seq<Movie>, movieList: Option<seq<ArrLookup.Item>>, deleteOk: Movie -> bool)
    : seq<bool>
  {
    Outcomes(movies, SucceedsBy(movieList, deleteOk))
  }

  /** DeleteSucceeds, as a function value. */
  function SucceedsBy(movieList: Option<seq<ArrLookup.Item>>, deleteOk: Movie -> bool): Movie -> bool {
    (m: Movie) => DeleteSucceeds(movieList, m, deleteOk)
  }

  /** Result i is whether movie i was found in Radarr and its DELETE succeeded. */
  lemma DeleteResultsAt(movies: seq<Movie>, movieList: Option<seq<ArrLookup.Item>>, deleteOk: Movie -> bool, i: nat)
    requires i < |movies|
    ensures |DeleteResults(movies, movieList, deleteOk)| == |movies|
    ensures DeleteResults(movies, movieList, deleteOk)[i] == DeleteSucceeds(movieList, movies[i], deleteOk)
  {
    OutcomesAt(movies, SucceedsBy(movieList, deleteOk), i);
  }

  datatype DeleteOutcome =
    | NoMoviesChosen
    | NoRadarrClient
    | Deleted(movies: seq<Movie>, results: seq<bool>, requests: seq<Option<ArrLookup.DeleteRequest>>)

  datatype ReencodeOutcome =
    | NothingChosen
    | NoValidMovies
    | NoFilePaths
    | Script(files: seq<string>)

  /** `[row_to_movie[k] for k in selected_rows if k in row_to_movie]`, in the set's iteration order `order`. */
  method SelectedMovies(selected: set<RowKey>, m: map<RowKey, Movie>) returns (movies: seq<Movie>, ghost order: seq<RowKey>)
    ensures IsOrderOf(order, selected)
    ensures movies == MoviesFor(order, m)
    ensures forall x :: x in movies <==> exists k :: k in selected && k in m && m[k] == x
  {
    movies, order := [], [];
    var todo := selected;
    while todo != {}
      invariant todo <= selected
      invariant forall k :: k in order <==> k in selected && k !in todo
      invariant Distinct(order)
      invariant movies == MoviesFor(order, m)
      decreases |todo|
    {
      var rowKey :| rowKey in todo;
      AppendNew(order, rowKey);
      MoviesForStep(order, rowKey, m);
      order := order + [rowKey];
      todo := todo - {rowKey};
      if rowKey in m {
        movies := movies + [m[rowKey]];
      }
    }
    forall x | true
      ensures x in movies <==> exists k :: k in selected && k in m && m[k] == x
    {
      MoviesForMembership(order, m, x);
      if x in movies {
        var i :| 0 <= i < |order| && order[i] in m && m[order[i]] == x;
        assert order[i] in selected;
      }
      if exists k :: k in selected && k in m && m[k] == x {
        var k :| k in selected && k in m && m[k] == x;
        assert k in order;
        var i :| 0 <= i < |order| && order[i] == k;
      }
    }
  }

  /**
   * The DELETE `delete_movie(m)` sends with its default flags
   * (`delete_files=True`, `add_exclusion=True`), or None when the lookup fails
   * and nothing is sent.
   */
  function DeleteRequestOf(movieList: Option<seq<ArrLookup.Item>>, m: Movie): (r: Option<ArrLookup.DeleteRequest>)
    ensures r.Some? <==> ArrLookup.Lookup(movieList, m.title, m.year).Some?
    ensures r.Some? ==>
              && r.value.endpoint == "movie/" + Text.IntToString(ArrLookup.Lookup(movieList, m.title, m.year).value.id)
              && r.value.params == [("deleteFiles", "true"), (Radarr.ExclusionKey, "true")]
  {
    var found := ArrLookup.Lookup(movieList, m.title, m.year);
    if found.Some? then Some(ArrLookup.DeleteRequestFor("movie", found.value.id, true, Radarr.ExclusionKey, true))
    else None
  }

  /** The requests the delete loop sends, one per movie in order (None where nothing is sent). */
  function DeleteRequests(movies: seq<Movie>, movieList: Option<seq<ArrLookup.Item>>): seq<Option<ArrLookup.DeleteRequest>> {
    seq(|movies|, i requires 0 <= i < |movies| => DeleteRequestOf(movieList, movies[i]))
  }

  lemma DeleteRequestsStep(movies: seq<Movie>, movie: Movie, movieList: Option<seq<ArrLookup.Item>>)
    ensures DeleteRequests(movies + [movie], movieList) == DeleteRequests(movies, movieList) + [DeleteRequestOf(movieList, movie)]
  {
  }

  /** The delete loop: `delete_movie(movie)` for each movie, with the default flags. */
  method DeleteAll(client: Radarr.RadarrClient, movies: seq<Movie>, movieList: Option<seq<ArrLookup.Item>>,
                   deleteOk: Movie -> bool) returns (results: seq<bool>, requests: seq<Option<ArrLookup.DeleteRequest>>)
    ensures results == DeleteResults(movies, movieList, deleteOk)
    ensures requests == DeleteRequests(movies, movieList)
  {
    results, requests := [], [];
    for i := 0 to |movies|
      invariant results == DeleteResults(movies[..i], movieList, deleteOk)
      invariant requests == DeleteRequests(movies[..i], movieList)
    {
      var movie := movies[i];
      assert movies[..i + 1] == movies[..i] + [movie];
      OutcomesStep(movies[..i], movie, SucceedsBy(movieList, deleteOk));
      var success, request := client.DeleteMovie(movie, movieList, true, true, deleteOk(movie));
      assert success == DeleteSucceeds(movieList, movie, deleteOk);
      results := results + [success];
      assert request == DeleteRequestOf(movieList, movie);
      DeleteRequestsStep(movies[..i], movie, movieList);
      requests := requests + [request];
    }
    assert movies[..|movies|] == movies;
  }

  /** The movie loop of the re-encode file collection. */
  method CollectMovieFiles(movies: seq<Movie>) returns (files: seq<string>)
    ensures files == MoviesFiles(movies)
  {
    files := [];
    for i := 0 to |movies|
      invariant files == MoviesFiles(movies[..i])
    {
      assert movies[..i + 1] == movies[..i] + [movies[i]];
      FlattenStep(movies[..i], movies[i], MovieFiles);
      if movies[i].media != [] {
        var more := CollectFiles(movies[i].media);
        files := files + more;
      }
    }
    assert movies[..|movies|] == movies;
  }

  class MovieSizeApp {
    /** The ranked movies the command passed in. */
    const moviesData: seq<MovieEntry>
    /** The Radarr client, null when there is none. */
    const radarr: Radarr.RadarrClient?
    var selectedRows: set<RowKey>
    var rowToMovie: map<RowKey, Movie>
    /** The table's rows, top to bottom; row k shows `RowCells(k + 1, rows[k])`. */
    var rows: seq<MovieEntry>

    constructor (moviesData: seq<MovieEntry>, radarr: Radarr.RadarrClient?)
      ensures this.moviesData == moviesData && this.radarr == radarr
      ensures selectedRows == {} && rowToMovie == map[] && rows == []
    {
      this.moviesData := moviesData;
      this.radarr := radarr;
      selectedRows := {};
      rowToMovie := map[];
      rows := [];
    }

    /**
     * Adds one row per movie, in ranking order, and records the key the
     * table returned for each row (`rowKeys`, an input) in the row map.
     */
    method OnMount(rowKeys: seq<RowKey>)
      requires |rowKeys| == |moviesData|
      modifies this
      ensures rows == old(rows) + moviesData
      ensures rowToMovie == Assigned(old(rowToMovie), rowKeys, moviesData)
      ensures selectedRows == old(selectedRows)
    {
      ghost var before := rowToMovie;
      ghost var rowsBefore := rows;
      for i := 0 to |moviesData|
        invariant rows == rowsBefore + moviesData[..i]
        invariant rowToMovie == Assigned(before, rowKeys[..i], moviesData[..i])
        invariant selectedRows == old(selectedRows)
      {
        assert rowKeys[..i + 1][..i] == rowKeys[..i] && moviesData[..i + 1][..i] == moviesData[..i];
        rows := rows + [moviesData[i]];
        rowToMovie := rowToMovie[rowKeys[i] := moviesData[i].movie];
      }
      assert rowKeys[..|rowKeys|] == rowKeys && moviesData[..|moviesData|] == moviesData;
    }

    /** Toggles the row under the cursor; nothing else changes. */
    method ToggleSelect(cursor: Option<nat>, rowKeys: seq<RowKey>, columnCount: nat)
      modifies this
      ensures selectedRows == ToggleAt(old(selectedRows), cursor, rowKeys, columnCount)
      ensures rowToMovie == old(rowToMovie) && rows == old(rows)
    {
      if cursor.Some? {
        var rowIndex := cursor.value;
        if rowIndex < |rowKeys| && columnCount > 0 {
          var rowKey := rowKeys[rowIndex];
          if rowKey in selectedRows {
            selectedRows := selectedRows - {rowKey};
          } else {
            selectedRows := selectedRows + {rowKey};
          }
        }
      }
    }

    /**
     * Deletes, through Radarr, the movie behind every selected row that is in
     * the row map (possibly none), then clears the selection. The movie list
     * Radarr returns and whether each DELETE succeeds are inputs.
     */
    method DeleteSelected(movieList: Option<seq<ArrLookup.Item>>, deleteOk: Movie -> bool)
      returns (outcome: DeleteOutcome, ghost order: seq<RowKey>)
      modifies this
      ensures old(selectedRows) == {} ==> outcome == NoMoviesChosen && selectedRows == old(selectedRows)
      ensures old(selectedRows) != {} && radarr == null ==> outcome == NoRadarrClient && selectedRows == old(selectedRows)
      ensures old(selectedRows) != {} && radarr != null ==>
                && IsOrderOf(order, old(selectedRows))
                && outcome == Deleted(MoviesFor(order, rowToMovie), DeleteResults(MoviesFor(order, rowToMovie), movieList, deleteOk),
                                      DeleteRequests(MoviesFor(order, rowToMovie), movieList))
                && selectedRows == {}
      ensures rowToMovie == old(rowToMovie) && rows == old(rows)
    {
      order := [];
      if selectedRows == {} {
        return NoMoviesChosen, order;
      }
      if radarr == null {
        return NoRadarrClient, order;
      }
      var selectedMovies;
      selectedMovies, order := SelectedMovies(selectedRows, rowToMovie);
      var results, requests := DeleteAll(radarr, selectedMovies, movieList, deleteOk);
      selectedRows := {};
      return Deleted(selectedMovies, results, requests), order;
    }

    /**
     * The file collection of the re-encode: every truthy `part.file` of the
     * selected movies, movie by movie, rows visited in the set's iteration
     * order `order`.
     */
    method GenerateReencode() returns (outcome: ReencodeOutcome, ghost order: seq<RowKey>)
      ensures selectedRows == {} ==> outcome == NothingChosen
      ensures selectedRows != {} ==>
                IsOrderOf(order, selectedRows)
                && var movies := MoviesFor(order, rowToMovie);
                   var files := MoviesFiles(movies);
                   outcome == if movies == [] then NoValidMovies else if files == [] then NoFilePaths else Script(files)
    {
      order := [];
      if selectedRows == {} {
        return NothingChosen, order;
      }
      var selectedMovies;
      selectedMovies, order := SelectedMovies(selectedRows, rowToMovie);
      if selectedMovies == [] {
        return NoValidMovies, order;
      }
      var filePaths := CollectMovieFiles(selectedMovies);
      if filePaths == [] {
        return NoFilePaths, order;
      }
      return Script(filePaths), order;
    }
  }
}
