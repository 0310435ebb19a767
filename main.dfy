/**
 * The `list` commands of plex_sync/main.py: the unwatched-episode lookup for
 * one show, and the per-library summaries of unwatched movies and shows.
 * The server's sections are an input; what the commands echo is returned.
 */
module PlexMain {

  import opened Wrappers
  import opened Plex
  import Text

  datatype LookupError = LibraryNotFound(name: string) | NoShowLibrary | ShowNotFound(name: string)

  /** The path line printed under an episode. */
  datatype PathLine = FilePath(path: string) | PathUnavailable

  datatype EpisodeLine = EpisodeLine(episode: Episode, path: PathLine)

  /** `NoUnwatched`: the show exists but nothing is unwatched (the function returns None). */
  datatype UnwatchedReport = NoUnwatched(query: string) | Listing(showTitle: string, lines: seq<EpisodeLine>)

  /** Python truthiness of the `--library` option. */
  predicate Named(libraryName: Option<string>) {
    libraryName.Some? && libraryName.value != ""
  }

  /** A section the library lookup accepts: a show library, with the exact title when one is named. */
  predicate Wanted(s: Section, libraryName: Option<string>) {
    s.kind == "show" && (Named(libraryName) ==> s.title == libraryName.value)
  }

  ghost predicate IsTargetSection(sections: seq<Section>, libraryName: Option<string>, i: int) {
    0 <= i < |sections| && Wanted(sections[i], libraryName)
    && forall j :: 0 <= j < i ==> !Wanted(sections[j], libraryName)
  }

  /** Case-insensitive title equality, as `title.lower() == name.lower()`. */
  predicate TitleMatches(s: Show, name: string) {
    Text.Lower(s.title) == Text.Lower(name)
  }

  ghost predicate IsTargetShow(shows: seq<Show>, name: string, j: int) {
    0 <= j < |shows| && TitleMatches(shows[j], name)
    && forall k :: 0 <= k < j ==> !TitleMatches(shows[k], name)
  }

  /**
   * Resolves the library: with a name, the first show section with exactly
   * that title, otherwise the first show section; there is no fallback from
   * a named library that is missing.
   */
  method FindTargetSection(sections: seq<Section>, libraryName: Option<string>)
    returns (r: Result<Section, LookupError>)
    ensures r.Ok? ==> exists i :: IsTargetSection(sections, libraryName, i) && sections[i] == r.value
    ensures r.Err? ==> forall i :: 0 <= i < |sections| ==> !Wanted(sections[i], libraryName)
    ensures r.Err? ==> r.error == if Named(libraryName) then LibraryNotFound(libraryName.value) else NoShowLibrary
  {
    var i := 0;
    if Named(libraryName) {
      while i < |sections|
        invariant 0 <= i <= |sections|
        invariant forall j :: 0 <= j < i ==> !Wanted(sections[j], libraryName)
      {
        if sections[i].kind == "show" && sections[i].title == libraryName.value {
          assert IsTargetSection(sections, libraryName, i);
          return Ok(sections[i]);
        }
        i := i + 1;
      }
      return Err(LibraryNotFound(libraryName.value));
    } else {
      while i < |sections|
        invariant 0 <= i <= |sections|
        invariant forall j :: 0 <= j < i ==> !Wanted(sections[j], libraryName)
      {
        if sections[i].kind == "show" {
          assert IsTargetSection(sections, libraryName, i);
          return Ok(sections[i]);
        }
        i := i + 1;
      }
      return Err(NoShowLibrary);
    }
  }

  /** The first show whose lower-cased title equals the lower-cased query. */
  method FindShow(shows: seq<Show>, name: string) returns (r: Option<Show>)
    ensures r.Some? ==> exists j :: IsTargetShow(shows, name, j) && shows[j] == r.value
    ensures r.None? ==> forall j :: 0 <= j < |shows| ==> !TitleMatches(shows[j], name)
  {
    var lowered := Text.Lower(name);
    for j := 0 to |shows|
      invariant forall k :: 0 <= k < j ==> !TitleMatches(shows[k], name)
    {
      if Text.Lower(shows[j].title) == lowered {
        assert IsTargetShow(shows, name, j);
        return Some(shows[j]);
      }
    }
    return None;
  }

  /** `[episode for episode in episodes if episode.isWatched is False]`. */
  function UnwatchedEpisodes(episodes: seq<Episode>): (r: seq<Episode>)
    ensures |r| <= |episodes|
    ensures forall e :: e in r <==> e in episodes && IsUnwatched(e.isWatched)
  {
    if episodes == [] then []
    else (if IsUnwatched(episodes[0].isWatched) then [episodes[0]] else []) + UnwatchedEpisodes(episodes[1..])
  }

  /** The filter keeps the catalogue's order: filtering a concatenation filters each part. */
  lemma {:induction false} UnwatchedEpisodesAppend(a: seq<Episode>, b: seq<Episode>)
    ensures UnwatchedEpisodes(a + b) == UnwatchedEpisodes(a) + UnwatchedEpisodes(b)
  {
    if a == [] {
      assert a + b == b;
    } else {
      assert (a + b)[0] == a[0] && (a + b)[1..] == a[1..] + b;
      UnwatchedEpisodesAppend(a[1..], b);
    }
  }

  /** `episode.media[0].parts[0].file`, or the "not available" line on an IndexError or AttributeError. */
  function EpisodePath(e: Episode): (r: PathLine)
    ensures r.FilePath? <==> e.media != [] && e.media[0].parts != [] && e.media[0].parts[0].file.Some?
    ensures r.FilePath? ==> r.path == e.media[0].parts[0].file.value
  {
    if e.media != [] && e.media[0].parts != [] && e.media[0].parts[0].file.Some?
    then FilePath(e.media[0].parts[0].file.value)
    else PathUnavailable
  }

  /** What the lookup reports for the matched show. */
  function ReportFor(show: Show, query: string): UnwatchedReport {
    var unwatched := UnwatchedEpisodes(show.episodes);
    if unwatched == [] then NoUnwatched(query)
    else Listing(show.title, seq(|unwatched|, i requires 0 <= i < |unwatched| =>
                                   EpisodeLine(unwatched[i], EpisodePath(unwatched[i]))))
  }

  /** `get_unwatched_episodes(show_name, library_name)` over the server's sections. */
  method GetUnwatchedEpisodes(sections: seq<Section>, showName: string, libraryName: Option<string>)
    returns (r: Result<UnwatchedReport, LookupError>)
    ensures r.Err? && !r.error.ShowNotFound? ==> forall i :: 0 <= i < |sections| ==> !Wanted(sections[i], libraryName)
    ensures r.Err? && !r.error.ShowNotFound? ==>
              r.error == if Named(libraryName) then LibraryNotFound(libraryName.value) else NoShowLibrary
    ensures r.Err? && r.error.ShowNotFound? ==>
              r.error.name == showName
              && exists i :: IsTargetSection(sections, libraryName, i)
                             && forall j :: 0 <= j < |sections[i].shows| ==> !TitleMatches(sections[i].shows[j], showName)
    ensures r.Ok? ==>
              exists i, j :: IsTargetSection(sections, libraryName, i) && IsTargetShow(sections[i].shows, showName, j)
                             && r.value == ReportFor(sections[i].shows[j], showName)
  {
    var section := FindTargetSection(sections, libraryName);
    if section.Err? {
      return Err(section.error);
    }
    var show := FindShow(section.value.shows, showName);
    if show.None? {
      return Err(ShowNotFound(showName));
    }
    var unwatched := UnwatchedEpisodes(show.value.episodes);
    if unwatched == [] {
      return Ok(NoUnwatched(showName));
    }
    var lines: seq<EpisodeLine> := [];
    for k := 0 to |unwatched|
      invariant |lines| == k
      invariant forall m :: 0 <= m < k ==> lines[m] == EpisodeLine(unwatched[m], EpisodePath(unwatched[m]))
    {
      lines := lines + [EpisodeLine(unwatched[k], EpisodePath(unwatched[k]))];
    }
    r := Ok(Listing(show.value.title, lines));
    assert r.value == ReportFor(show.value, showName);
  }

  /** One line of the show summary: title, number of episodes, number unwatched. */
  datatype ShowLine = ShowLine(title: string, episodes: nat, unwatched: nat)

  /** The titles `print_unwatched_movies` lists: movies whose flag is exactly False, in order. */
  function UnwatchedMovieTitles(movies: seq<Movie>): seq<string> {
    if movies == [] then []
    else UnwatchedMovieTitles(movies[..|movies| - 1])
         + (var m := movies[|movies| - 1]; if IsUnwatched(m.isWatched) then [m.title] else [])
  }

  /** The number of movies whose flag is exactly False. */
  function CountUnwatched(movies: seq<Movie>): nat {
    if movies == [] then 0
    else CountUnwatched(movies[..|movies| - 1]) + (if IsUnwatched(movies[|movies| - 1].isWatched) then 1 else 0)
  }

  /** One title per unwatched movie: the count printed is the number of movies flagged False. */
  lemma {:induction false} UnwatchedMovieTitlesCount(movies: seq<Movie>)
    ensures |UnwatchedMovieTitles(movies)| == CountUnwatched(movies)
  {
    if movies != [] {
      UnwatchedMovieTitlesCount(movies[..|movies| - 1]);
    }
  }

  /** A title is listed exactly when some movie with that title is flagged False. */
  lemma {:induction false} UnwatchedMovieTitlesMembership(movies: seq<Movie>, t: string)
    ensures t in UnwatchedMovieTitles(movies) <==>
            exists i :: 0 <= i < |movies| && movies[i].title == t && IsUnwatched(movies[i].isWatched)
  {
    if movies != [] {
      var init := movies[..|movies| - 1];
      UnwatchedMovieTitlesMembership(init, t);
      assert forall i :: 0 <= i < |init| ==> init[i] == movies[i];
    }
  }

  /** `print_unwatched_movies`: the titles echoed and `unwatched_count`. */
  method PrintUnwatchedMovies(movies: seq<Movie>) returns (titles: seq<string>, count: nat)
    ensures titles == UnwatchedMovieTitles(movies)
    ensures count == CountUnwatched(movies) == |titles|
  {
    titles, count := [], 0;
    for i := 0 to |movies|
      invariant titles == UnwatchedMovieTitles(movies[..i])
      invariant count == CountUnwatched(movies[..i])
    {
      assert movies[..i + 1][..i] == movies[..i];
      if movies[i].isWatched == Some(false) {
        titles := titles + [movies[i].title];
        count := count + 1;
      }
    }
    assert movies[..|movies|] == movies;
    UnwatchedMovieTitlesCount(movies);
  }

  /** The lines `print_unwatched_shows` prints: one per show with at least one episode flagged False. */
  function ShowLines(shows: seq<Show>): seq<ShowLine> {
    if shows == [] then []
    else
      var s := shows[|shows| - 1];
      var u := UnwatchedEpisodes(s.episodes);
      ShowLines(shows[..|shows| - 1]) + (if u == [] then [] else [ShowLine(s.title, |s.episodes|, |u|)])
  }

  /** Every summary line names a show of the section and counts at least one unwatched episode. */
  lemma {:induction false} ShowLinesOnlyUnwatched(shows: seq<Show>)
    ensures forall l :: l in ShowLines(shows) ==>
              l.unwatched > 0 && exists s :: s in shows && s.title == l.title
                                            && l.episodes == |s.episodes| && l.unwatched == |UnwatchedEpisodes(s.episodes)|
  {
    if shows != [] {
      var init := shows[..|shows| - 1];
      ShowLinesOnlyUnwatched(init);
      forall l | l in ShowLines(init)
        ensures exists s :: s in shows && s.title == l.title
                            && l.episodes == |s.episodes| && l.unwatched == |UnwatchedEpisodes(s.episodes)|
      {
        var s :| s in init && s.title == l.title
                 && l.episodes == |s.episodes| && l.unwatched == |UnwatchedEpisodes(s.episodes)|;
        assert s in shows;
      }
    }
  }

  /** Every show with at least one episode flagged False gets its summary line. */
  lemma {:induction false} ShowLinesComplete(shows: seq<Show>, s: Show)
    requires s in shows && UnwatchedEpisodes(s.episodes) != []
    ensures ShowLine(s.title, |s.episodes|, |UnwatchedEpisodes(s.episodes)|) in ShowLines(shows)
  {
    var init, last := shows[..|shows| - 1], shows[|shows| - 1];
    assert shows == init + [last];
    if s != last {
      assert s in init;
      ShowLinesComplete(init, s);
    }
  }

  /** `print_unwatched_shows`: the lines echoed and `shows_with_unwatched`. */
  method PrintUnwatchedShows(shows: seq<Show>) returns (lines: seq<ShowLine>, count: nat)
    ensures lines == ShowLines(shows)
    ensures count == |lines|
  {
    lines, count := [], 0;
    for i := 0 to |shows|
      invariant lines == ShowLines(shows[..i])
      invariant count == |lines|
    {
      assert shows[..i + 1][..i] == shows[..i];
      var episodes := shows[i].episodes;
      var unwatched := UnwatchedEpisodes(episodes);
      if |unwatched| == 0 {
        continue;
      }
      lines := lines + [ShowLine(shows[i].title, |episodes|, |unwatched|)];
      count := count + 1;
    }
    assert shows[..|shows|] == shows;
  }

  datatype LibraryReport =
    | LibraryMissing(name: string)
    | ShowSummary(showLines: seq<ShowLine>, showCount: nat)
    | MovieSummary(titles: seq<string>, movieCount: nat)
    | OtherKind(kind: string)

  /** What `library` prints for the section it picked, by the section's type. */
  function SummaryFor(s: Section): LibraryReport {
    if s.kind == "show" then ShowSummary(ShowLines(s.shows), |ShowLines(s.shows)|)
    else if s.kind == "movie" then MovieSummary(UnwatchedMovieTitles(s.movies), CountUnwatched(s.movies))
    else OtherKind(s.kind)
  }

  /**
   * `list library NAME`: only the first section titled exactly NAME is
   * summarised, by its type; later sections with the same title are ignored.
   */
  method Library(sections: seq<Section>, name: string) returns (report: LibraryReport)
    ensures report.LibraryMissing? <==> forall i :: 0 <= i < |sections| ==> sections[i].title != name
    ensures report.LibraryMissing? ==> report.name == name
    ensures !report.LibraryMissing? ==>
              exists i :: 0 <= i < |sections| && sections[i].title == name
                          && (forall j :: 0 <= j < i ==> sections[j].title != name)
                          && report == SummaryFor(sections[i])
  {
    for i := 0 to |sections|
      invariant forall j :: 0 <= j < i ==> sections[j].title != name
    {
      var section := sections[i];
      if section.title == name {
        if section.kind == "show" {
          var lines, count := PrintUnwatchedShows(section.shows);
          report := ShowSummary(lines, count);
        } else if section.kind == "movie" {
          var titles, count := PrintUnwatchedMovies(section.movies);
          report := MovieSummary(titles, count);
        } else {
          report := OtherKind(section.kind);
        }
        return;
      }
    }
    return LibraryMissing(name);
  }
}
