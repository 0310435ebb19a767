# plex-sync, modelled in Dafny

plex-sync is a command-line companion to a Plex media server. It has three parts:

- **`list` commands:** show unwatched episodes of one show, or summarise the unwatched movies and shows of one library.
- **Two size browsers:** `show_size` and `movie_size` rank the largest TV shows or movies, and let the user tick rows in a table. Ticked items can be deleted through Sonarr (series) or Radarr (movies), or collected into an ffmpeg re-encode script.
- **Configuration loader:** defaults, a YAML file, then environment overrides.

This project models that core on values:

- The server's catalogue of sections, shows, seasons, episodes, movies, media and parts is a set of datatypes (`Plex`).
- Every answer from the server, from Sonarr/Radarr and from the file system is an input.
- The case each echo or notification reports is returned, with its data (titles, counts, per-item results and the requests sent). The message texts are not modelled.

Where the program keeps state, the model keeps it too:

- The two table applications are classes with `modifies` clauses.
- The Sonarr/Radarr clients are classes whose constructors fix the URL and headers.
- The loops of the program are methods with loop invariants, proved against specification functions. The properties the program relies on are lemmas about those functions.

Modules:

- `Wrappers` and `Folds` are generic helpers:
  - `Folds` holds the flattening fold, the filter-and-map fold, one outcome per element, and distinctness.
- `Text` has the string operations:
  - ASCII `lower()` and `strip()`, and `rstrip('/')`;
  - the single-quote escape of the scripts, with a small POSIX-shell word decoder that proves the escape round-trips;
  - `str(int)` and `f"{n:0Nd}"`.
- `Ranking` models Python's stable `list.sort(key, reverse=True)` and the slice `[:limit]`.
- `Selection` is the row-selection set shared by both browsers.
- `PlexMain`, `Config`, `ArrLookup` (shared by `Sonarr` and `Radarr`), `ShowSize` and `MovieSize` follow the program's files.

Where the written description of the program and the code differ, the model follows the code:

- The browsers rank by size only. There is no air-date ordering and no per-show episode limit.
- Nothing is cached.
- No rsync command is rewritten; the `rsync` settings are only defaults.
- `show_size --watched` keeps a show only when every episode's flag is truthy.
- `movie_size` keeps a movie when `isWatched != unwatched`, so a movie whose flag is None counts in both modes.

## Model

| member | source | states |
|---|---|---|
| Text.Lower | plex_sync/sonarr.py:60 | same length; every character is its ASCII lower-case counterpart |
| Text.StripLeft | plex_sync/sonarr.py:60 | result is a suffix; everything dropped is whitespace; the result does not start with whitespace |
| Text.StripRight | plex_sync/sonarr.py:60 | result is a prefix; everything dropped is whitespace; the result does not end with whitespace |
| Text.Strip | plex_sync/sonarr.py:60 | the input is whitespace + result + whitespace, and the result neither starts nor ends with whitespace |
| Text.TrimTrailing | plex_sync/sonarr.py:17 | `rstrip('/')`: result is a prefix, only `/` was removed, and the result does not end in `/` |
| Text.ShellEscape | plex_sync/show_size.py:296 | a path without a quote is unchanged; escaping never shortens |
| Text.ShellEscapeConcat | plex_sync/show_size.py:296 | escaping distributes over concatenation |
| Text.DecodeEscaped | plex_sync/show_size.py:296 | inside single quotes, the shell decodes the escaped text back to the original text |
| Text.ShellEscapeRoundTrip | plex_sync/movie_size.py:235-242 | `'` + escape(path) + `'`, the single-quoted `INPUT_FILE=` assignment, is read by a POSIX shell as exactly the path |
| Text.NatToString | plex_sync/sonarr.py:125 | digits only, no leading zero, denoting the number |
| Text.IntToString | plex_sync/show_size.py:101 | `str(n)`: decimal digits without a leading zero denoting `n`; for negative `n`, a minus sign and then such digits denoting `-n` |
| Text.ZeroPad | plex_sync/show_size.py:115 | `f"{n:03d}"`: digits only, width max(width, digit count), denoting `n` |
| Text.LeadingZero | plex_sync/show_size.py:118 | a leading zero does not change the number the digits denote |
| Text.PadInt | plex_sync/show_size.py:129 | `f"{n:02d}"` for any integer: at least `width` long; sign first for negative numbers |
| Ranking.Insert | plex_sync/show_size.py:463 | one more element, same multiset plus the inserted element |
| Ranking.InsertSorted | plex_sync/show_size.py:463 | insertion keeps the keys non-increasing |
| Ranking.SortDesc | plex_sync/show_size.py:463 | `sort(reverse=True)`: a permutation with non-increasing keys |
| Ranking.WithKeyAppend | plex_sync/show_size.py:463 | the elements with a given key are taken out of a concatenation part by part |
| Ranking.InsertStable | plex_sync/show_size.py:463 | insertion places the new element after all elements of equal key |
| Ranking.SortDescStable | plex_sync/movie_size.py:360 | stability: elements with equal keys keep their input order |
| Ranking.Take | plex_sync/show_size.py:464 | `[:limit]`: a prefix of length min(limit, n), negative limits counting from the end |
| Ranking.Top | plex_sync/movie_size.py:360-361 | sort then slice: at most `limit` elements of the input, keys non-increasing, and nothing left out is larger than anything kept |
| Plex.PartsSizeAppend | plex_sync/movie_size.py:350-355 | the size sum over a concatenation of parts is the sum of the two sums |
| Plex.MediaSizeAllParts | plex_sync/show_size.py:434-439 | the nested sum over media then parts equals the sum of the sizes of every part, media by media; a part without `size` adds nothing |
| Plex.PartFile | plex_sync/show_size.py:235-236 | a part yields its file exactly when it has a non-empty `file` |
| Plex.PartsFilesMembership | plex_sync/movie_size.py:177-179 | a file is collected from parts iff some part holds it as a non-empty `file` |
| Plex.MediaFilesMembership | plex_sync/movie_size.py:176-179 | a file is collected from media iff some part of some media holds it |
| Plex.CollectFiles | plex_sync/movie_size.py:175-179 | the nested media/parts loop collects exactly the truthy files, in order |
| Selection.Toggled | plex_sync/show_size.py:158-165 | the key flips membership; no other key changes |
| Selection.ToggleAt | plex_sync/movie_size.py:110-128 | acts only with a cursor on an existing row and a column; then flips exactly that row |
| Selection.ToggleTwice | plex_sync/movie_size.py:121-128 | toggling the same row twice restores the selection |
| PlexMain.FindTargetSection | plex_sync/main.py:166-186 | the first show section (titled as named, when a library is named); otherwise the error for the named or the unnamed case, with no show section wanted |
| PlexMain.FindShow | plex_sync/main.py:191-196 | the first show whose lower-cased title equals the lower-cased query, or None when no show matches |
| PlexMain.UnwatchedEpisodes | plex_sync/main.py:205 | an episode is kept iff it is in the list and its flag is exactly False |
| PlexMain.UnwatchedEpisodesAppend | plex_sync/main.py:205 | the filter keeps the catalogue's order |
| PlexMain.EpisodePath | plex_sync/main.py:216-219 | a path line exactly when the first media has a first part with a `file`, else "not available" |
| PlexMain.GetUnwatchedEpisodes | plex_sync/main.py:161-222 | library errors only when no section fits; show-not-found only when the chosen section has no matching show; otherwise the report for the first matching show |
| PlexMain.UnwatchedMovieTitlesCount | plex_sync/main.py:65-76 | one title per movie whose flag is exactly False, so the count printed equals the titles listed |
| PlexMain.UnwatchedMovieTitlesMembership | plex_sync/main.py:65-76 | a title is listed iff some movie with that title has its flag exactly False |
| PlexMain.PrintUnwatchedMovies | plex_sync/main.py:65-76 | the loop echoes exactly those titles and counts them |
| PlexMain.ShowLinesOnlyUnwatched | plex_sync/main.py:79-96 | every summary line names a show of the section, with its episode count and a positive unwatched count |
| PlexMain.ShowLinesComplete | plex_sync/main.py:79-96 | every show of the section with an episode flagged exactly False gets its line, with its episode and unwatched counts |
| PlexMain.PrintUnwatchedShows | plex_sync/main.py:79-96 | the loop prints exactly those lines and counts them |
| PlexMain.Library | plex_sync/main.py:40-54 | "not found" iff no section has the title; otherwise the summary of the first section so titled, by its type |
| Config.MergedShape | plex_sync/config.py:69-75 | every key of both sides; source-only keys kept; overrides replace unless both sides are mappings, which merge recursively, keeping nested source-only keys |
| Config.Restrict | plex_sync/config.py:71 | the overrides already visited by the loop |
| Config.MergedStep | plex_sync/config.py:71-75 | one loop step extends the merge by one override key |
| Config.DeepUpdate | plex_sync/config.py:69-75 | the in-place recursive update leaves exactly the merge |
| Config.MergedEmpty | plex_sync/config.py:69-75 | no overrides, no change |
| Config.MergedSelf | plex_sync/config.py:69-75 | merging a mapping into itself gives it back |
| Config.MergedIdempotent | plex_sync/config.py:69-75 | applying the same overrides twice equals applying them once |
| Config.DefaultConfig | plex_sync/config.py:6-16 | the defaults have exactly the `plex` and `rsync` sections, mappings with the keys url/token and server_path/target/options |
| Config.FileMerged | plex_sync/config.py:43-53 | the defaults when there is no file or it is not a mapping; the `plex` and `rsync` keys always exist |
| Config.WithPlexField | plex_sync/config.py:60 | only that field of the `plex` mapping changes |
| Config.LoadConfig | plex_sync/config.py:41-66 | fails iff an override is set while the file made `plex` a scalar; the set overrides are the plex url/token; everything else comes from the merged file |
| Config.ConfigPath | plex_sync/config.py:19-38 | the first existing candidate (cwd, home, then XDG when set), or None when none exists |
| ArrLookup.FindByTitleWith | plex_sync/sonarr.py:55-93 | the nested search with early returns computes the lookup rule (first pass on primary and alternate titles with the year, then the primary-title fallback) |
| ArrLookup.FindByTitle | plex_sync/radarr.py:55-93 | the same with `lower().strip()` as the normalisation |
| ArrLookup.FirstHitIsFirst | plex_sync/sonarr.py:62-84 | the first pass returns the earliest accepted item, and nothing only when no item is accepted |
| ArrLookup.FirstPrimaryIsFirst | plex_sync/sonarr.py:87-91 | the fallback returns the earliest primary-title match, and nothing only when there is none |
| ArrLookup.LookupInList | plex_sync/sonarr.py:55-57 | a missing or empty list finds nothing; anything found is an element of the list |
| ArrLookup.LookupWithoutYear | plex_sync/sonarr.py:66-84 | without a (truthy) year: the first item matching by primary or alternate title, None iff no item matches |
| ArrLookup.LookupYearHit | plex_sync/sonarr.py:68-82 | with a year and a first-pass hit, the found item has exactly that year |
| ArrLookup.LookupYearFallback | plex_sync/sonarr.py:86-91 | with a year and no first-pass hit: the first primary-title match whatever its year, ignoring alternate titles |
| ArrLookup.Flag | plex_sync/sonarr.py:121-122 | `'true'` exactly for True, `'false'` exactly for False |
| ArrLookup.DeleteRequestFor | plex_sync/sonarr.py:120-125 | endpoint `resource/id`, and two parameters, deleteFiles then the exclusion key, carrying the flags |
| Sonarr.SonarrClient.constructor | plex_sync/sonarr.py:10-23 | URL without trailing `/`, the API key, and the session headers |
| Sonarr.SonarrClient.FindSeriesByTitle | plex_sync/sonarr.py:45-93 | the result is the lookup rule on the fetched series list |
| Sonarr.SonarrClient.DeleteSeries | plex_sync/sonarr.py:95-132 | not found: no request, false; found: the DELETE for its id with `addImportListExclusion`, answered by the DELETE's success |
| Sonarr.SonarrClient.TestConnection | plex_sync/sonarr.py:138-148 | connected iff the status answer is a non-empty object |
| Radarr.RadarrClient.constructor | plex_sync/radarr.py:10-23 | URL without trailing `/`, the API key, and the session headers |
| Radarr.RadarrClient.FindMovieByTitle | plex_sync/radarr.py:45-93 | the result is the lookup rule on the fetched movie list |
| Radarr.RadarrClient.DeleteMovie | plex_sync/radarr.py:95-132 | not found: no request, false; found: the DELETE for its id with `addImportExclusion`, answered by the DELETE's success |
| Radarr.RadarrClient.TestConnection | plex_sync/radarr.py:138-148 | connected iff the status answer is a non-empty object |
| ShowSize.EpisodesCount | plex_sync/show_size.py:432-441 | a season counts at most one per episode |
| ShowSize.EmptySeason | plex_sync/show_size.py:432-443 | the count is zero iff no episode has media, and then the size is zero |
| ShowSize.Put | plex_sync/show_size.py:444 | dictionary assignment: the new entry is present, entries for other numbers survive, nothing else appears, and a new number goes last |
| ShowSize.SeasonData | plex_sync/show_size.py:429-446 | `season_data` records only seasons of positive size, each the totals of some season |
| ShowSize.SeasonDataSums | plex_sync/show_size.py:443-446 | with distinct season numbers, the recorded sizes and counts add up to the show's totals |
| ShowSize.CandidatesOf | plex_sync/show_size.py:411-460 | at most one entry per show |
| ShowSize.CandidatesAppend | plex_sync/show_size.py:411-460 | scanning sections one after the other concatenates their candidates |
| ShowSize.KeptIsCandidate | plex_sync/show_size.py:417-460 | every show that passes the filters and has a positive size is a candidate |
| ShowSize.CandidateIsKept | plex_sync/show_size.py:417-460 | every candidate is the entry of such a show, so its size is positive |
| ShowSize.ShowSections | plex_sync/show_size.py:400-402 | exactly the show sections, all of them |
| ShowSize.ScanSeason | plex_sync/show_size.py:430-441 | the episode loop computes the season's size and count |
| ShowSize.ScanShow | plex_sync/show_size.py:424-446 | the season loop computes the totals and `season_data` |
| ShowSize.ScanShows | plex_sync/show_size.py:413-460 | the show loop appends exactly the candidates of the section |
| ShowSize.ScanSections | plex_sync/show_size.py:411-460 | `shows_list` holds the candidates of all show sections in scan order |
| ShowSize.Cli | plex_sync/show_size.py:400-468 | no libraries iff no show section; otherwise the stable sort then slice of the candidates; for `limit >= 0` that is the top-`limit` ranking |
| ShowSize.Switched | plex_sync/show_size.py:354 | the view always changes |
| ShowSize.SwitchedTwice | plex_sync/show_size.py:352-355 | switching twice returns to the first view |
| ShowSize.SeasonItems | plex_sync/show_size.py:78-79 | one item per recorded season |
| ShowSize.SeasonItemsAt | plex_sync/show_size.py:78-79 | item k carries season k's number, size and episode count |
| ShowSize.ShowViewItems | plex_sync/show_size.py:74-76 | in show view, one item per show with its totals and no season |
| ShowSize.SeasonViewItems | plex_sync/show_size.py:74-79 | in season view, one item per recorded season of every show |
| ShowSize.RowMapKeys | plex_sync/show_size.py:85-142 | the row map has exactly the keys 0..n-1; key k holds item k's show and season |
| ShowSize.SeasonEpisodes | plex_sync/show_size.py:227-228 | found iff some season has the number, and then the episodes are that season's |
| ShowSize.EpisodesFilesMembership | plex_sync/show_size.py:231-236 | a file is collected iff some episode's media holds it |
| ShowSize.FilesForMembership | plex_sync/show_size.py:215-240 | a file is collected iff some visited row contributes it |
| ShowSize.CollectRowFiles | plex_sync/show_size.py:215-240 | the row loop visits every selected row once and gathers exactly the files of each row; a file is returned iff some selected row contributes it |
| ShowSize.CollectEpisodeFiles | plex_sync/show_size.py:231-236 | the episode loop gathers exactly the episodes' truthy files |
| ShowSize.BuildSeasonItems | plex_sync/show_size.py:78-79 | the season loop builds the season items |
| ShowSize.BuildEntryItems | plex_sync/show_size.py:74-79 | one show's items for the view: the show itself, or one per recorded season |
| ShowSize.BuildDisplayItems | plex_sync/show_size.py:72-79 | the loop builds `display_items` for the view |
| ShowSize.BuildRows | plex_sync/show_size.py:85-142 | the rows are the items in order, and the row map is keyed by the counter |
| ShowSize.DistinctShows | plex_sync/show_size.py:178-184 | each show behind a selected, mapped row, exactly once |
| ShowSize.DeleteResultsAt | plex_sync/show_size.py:192-200 | result i is whether show i was found in Sonarr and its DELETE succeeded |
| ShowSize.DeleteRequestOf | plex_sync/sonarr.py:95-125 | with the default flags: no request iff the lookup fails; otherwise `series/<id>` of the found series with `deleteFiles='true'` and `addImportListExclusion='true'` |
| ShowSize.DeleteAll | plex_sync/show_size.py:192-200 | the delete loop reports the result for each show in turn, and sends exactly DeleteRequestOf for each show |
| ShowSize.ShowSizeApp.constructor | plex_sync/show_size.py:36-42 | no selection, empty row map, show view |
| ShowSize.ShowSizeApp.PopulateTable | plex_sync/show_size.py:58-142 | rows are the view's items sorted by size, largest first; the row map is keyed 0..n-1; the selection is cleared |
| ShowSize.RowTitle | plex_sync/show_size.py:101-129 | the title cell starts with the show's title; in show view it is the bare title exactly when the year is missing or 0; in season view a suffix is always added |
| ShowSize.ShowSizeApp.ToggleSelect | plex_sync/show_size.py:144-165 | the selection toggles at the cursor; the rest is unchanged |
| ShowSize.ShowSizeApp.ToggleView | plex_sync/show_size.py:352-356 | the view switches and the table is rebuilt for it |
| ShowSize.ShowSizeApp.DeleteSelected | plex_sync/show_size.py:167-204 | empty selection, missing client or no mapped show stop with no change; otherwise each distinct selected show is deleted once, with its result and the request sent for it, and the selection is cleared |
| ShowSize.ShowSizeApp.GenerateReencode | plex_sync/show_size.py:206-244 | empty selection stops; otherwise the files of every selected row (whole show, or its season in season view), and "no files" when there are none |
| MovieSize.CandidatesOf | plex_sync/movie_size.py:345-357 | at most one entry per movie |
| MovieSize.CandidatesAppend | plex_sync/movie_size.py:345-357 | scanning sections one after the other concatenates their candidates |
| MovieSize.KeptIsCandidate | plex_sync/movie_size.py:348-357 | every movie that passes the filter and has a positive size is a candidate |
| MovieSize.CandidateIsKept | plex_sync/movie_size.py:348-357 | every candidate is the entry of such a movie, so its size is positive |
| MovieSize.MovieSections | plex_sync/movie_size.py:333-335 | exactly the movie sections, all of them |
| MovieSize.ScanMovies | plex_sync/movie_size.py:347-357 | the movie loop appends exactly the candidates of the section |
| MovieSize.ScanSections | plex_sync/movie_size.py:345-357 | `movies_list` holds the candidates of all movie sections in scan order |
| MovieSize.Cli | plex_sync/movie_size.py:333-365 | no libraries iff no movie section; otherwise the stable sort then slice; for `limit >= 0` that is the top-`limit` ranking |
| MovieSize.DurationSplit | plex_sync/movie_size.py:68-71 | minutes are in 0..59, and hours * 60 + minutes is the whole number of minutes |
| MovieSize.DurationText | plex_sync/movie_size.py:65-98 | a missing or zero duration shows `   0h 00m`; otherwise `Hh MMm` for some hours `H` and minutes `MM` below 60 that together make the duration's whole minutes |
| MovieSize.RowTitle | plex_sync/movie_size.py:81 | the title cell starts with the title, and is the bare title exactly when the year is missing or 0 |
| MovieSize.AssignedDomain | plex_sync/movie_size.py:93-105 | the row map gains exactly the new row keys |
| MovieSize.AssignedRow | plex_sync/movie_size.py:93-105 | the last row added under a key maps to its movie |
| MovieSize.AssignedOthers | plex_sync/movie_size.py:105 | keys not added keep their movie |
| MovieSize.MoviesForMembership | plex_sync/movie_size.py:141 | a movie is chosen iff some selected row maps to it |
| MovieSize.MoviesFilesMembership | plex_sync/movie_size.py:173-179 | a file is collected iff some chosen movie's media holds it |
| MovieSize.DeleteResultsAt | plex_sync/movie_size.py:145-153 | result i is whether movie i was found in Radarr and its DELETE succeeded |
| MovieSize.SelectedMovies | plex_sync/movie_size.py:141 | the comprehension visits every selected row once and keeps the mapped movies; a movie is returned iff some selected row maps to it |
| MovieSize.DeleteRequestOf | plex_sync/radarr.py:95-125 | with the default flags: no request iff the lookup fails; otherwise `movie/<id>` of the found movie with `deleteFiles='true'` and `addImportExclusion='true'` |
| MovieSize.DeleteAll | plex_sync/movie_size.py:145-153 | the delete loop reports the result for each movie in turn, and sends exactly DeleteRequestOf for each movie |
| MovieSize.CollectMovieFiles | plex_sync/movie_size.py:173-179 | the loop gathers exactly the movies' truthy files |
| MovieSize.MovieSizeApp.constructor | plex_sync/movie_size.py:35-40 | no selection and an empty row map |
| MovieSize.MovieSizeApp.OnMount | plex_sync/movie_size.py:49-105 | one row per ranked movie, in order, and the row map extended with the table's keys |
| MovieSize.MovieSizeApp.ToggleSelect | plex_sync/movie_size.py:107-128 | the selection toggles at the cursor; the rest is unchanged |
| MovieSize.MovieSizeApp.DeleteSelected | plex_sync/movie_size.py:130-157 | empty selection or missing client stop with no change; otherwise the movie of every mapped selected row is deleted, with its result and the request sent for it, and the selection is cleared |
| MovieSize.MovieSizeApp.GenerateReencode | plex_sync/movie_size.py:159-183 | empty selection, no mapped movie, or no files each stop; otherwise the files of the chosen movies |

## Left out

- Plex, Sonarr and Radarr are reached over HTTP. Every answer is an input instead:
  - the section list;
  - the list `GET series` / `GET movie` returns (None when the request failed);
  - whether a DELETE succeeded;
  - the `system/status` object.
- `get_series_by_id`, `get_movie_by_id`, `_get` and `_delete` are not modelled beyond that; they are thin HTTP wrappers.
- The delete loops look the list up once per deleted item in the program. The model passes one fetched list to every call, as if the service's list did not change between calls.
- Whether each DELETE succeeds is an input function (`deleteOk`). An exception in `delete_series` or `delete_movie` is treated like a failed result.
- The clients' setup inside both `cli` commands is not modelled: reading the `sonarr` / `radarr` settings, creating the client, and dropping it when the connection test fails. The browsers take a client, or null.
- The Textual UI itself is not modelled: widgets, notifications, key bindings, the DataTable's own row keys, and `app.run()`.
  - The table's row keys are an input.
  - The show browser's row map is keyed by its own counter, in the same key space; the model makes no claim that the two agree.
- The library, size-in-GB, GB per episode or minute, and rating columns are left out: they need floating point and `section()` calls.
- The ffmpeg script text, the timestamps, the file write and `chmod` are not modelled. Only the quote escape applied to each path is modelled, with its round trip through the single-quoted `INPUT_FILE='…'` assignment (plex_sync/show_size.py:303, plex_sync/movie_size.py:242).
- Text.ShellEscapeRoundTrip covers only that single-quoted use. The same escaped path also sits inside a double-quoted `echo "… Processing: '…'"` (plex_sync/show_size.py:301, plex_sync/movie_size.py:240). There the shell prints `'\''` literally and expands `$(…)`, backticks and `$VAR` in a file name when the script runs. Double-quoted shell expansion is not modelled.
- ShowSize.RowCells and MovieSize.RowCells are the text cells of a table row. They are definitions only: no contract states them, and the table state keeps the displayed items, not their texts.
- YAML parsing, the environment and the file system are inputs:
  - the parsed document (None when there is no file or reading it failed);
  - the two variables;
  - an existence predicate.
  `create_default_config` and the `config` command write files and are not modelled.
- `load_config` makes a shallow copy of `DEFAULT_CONFIG`, so it can alias the nested defaults. The model has value semantics and does not capture that aliasing.
- Config.ConfigPath: paths are joined with `/` as plain strings. `pathlib` normalisation is not modelled.
- ShowSize.ScanShow: the `except AttributeError` fallback (plex_sync/show_size.py:447-457) is not modelled. The model assumes every show has seasons with numbers; a catalogue value cannot raise.
- Text.Lower and Text.Strip cover ASCII only. Unicode case mapping and Unicode whitespace are not modelled.
- `click` option parsing, `sys.exit`, the `Unauthorized` handlers, `get_plex_server` and setup.py are left out.
- A present attribute or key holding Python's None (or JSON null) is not modelled. `None` on `Part.file` and `Part.size` means the attribute is missing, and on `ArrLookup.Item` titles and years the key is missing. The program behaves differently for a present None: plex_sync/main.py:217 prints `  None`, the size sums at plex_sync/show_size.py:434-439 and plex_sync/movie_size.py:350-355 raise a TypeError, and `series.get('title', '').lower()` at plex_sync/sonarr.py:63 raises an AttributeError.
- ArrLookup.Item: `item['id']` is always present in the model. The program would raise a KeyError on an item without an id.
- Plex objects are compared by structural equality (`show not in selected_shows`). plexapi's own `__eq__` is not modelled.
- Selection.ToggleAt: the cursor row is `Option<nat>`. A negative cursor row, which Python would index from the end, is not modelled.
- Ranking.Top requires `limit >= 0`. The commands still handle a negative `--limit`: the Cli members use `Ranking.Take`, which follows Python's slice for negative limits, and state the result through it.
- ShowSize.SeasonDataSums requires distinct season numbers. With two seasons sharing a number, plex_sync/show_size.py:444-446 adds both to the show's totals, but `season_data` keeps only the later one. The season rows then add up to less than the show row.
- ShowSize.Put: the dictionary is a sequence of entries. Its contract does not state that an entry keeps its position when an existing season number is assigned again; seasons with repeated numbers are covered only by membership.
- MovieSize.MovieSizeApp.OnMount takes the row keys `add_row` returns as an input. Row cells (`MovieSize.RowCells`) are a function of the entry, not stored table state.
- ShowSize.Cli and MovieSize.Cli return their outcome instead of starting the application.
