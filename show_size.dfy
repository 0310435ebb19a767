/**
 * The TV-show size browser (plex_sync/show_size.py): the command that
 * totals every show's bytes season by season, drops unsized and (with
 * `--watched`) partly watched shows, ranks them by size and keeps the top
 * `limit`; and the table browser over that ranking, with its row map, the
 * selection, the show/season view switch, the delete and the re-encode
 * file collection.
 */
module ShowSize {

  import opened Wrappers
  import opened Plex
  import Text
  import Ranking
  import ArrLookup
  import Sonarr
  import opened Selection
  import opened Folds

  // ---------------------------------------------------------------------
  // Sizes
  // ---------------------------------------------------------------------

  /** `if episode.media:` — only episodes with media count towards a season. */
  predicate HasMedia(e: Episode) {
    e.media != []
  }

  /** A season's `season_size`: the sizes of its episodes that have media. */
  function EpisodesSize(episodes: seq<Episode>): int {
    if episodes == [] then 0
    else
      var last := episodes[|episodes| - 1];
      EpisodesSize(episodes[..|episodes| - 1]) + (if HasMedia(last) then MediaSize(last.media) else 0)
  }

  /** A season's `season_ep_count`: how many of its episodes have media. */
  function EpisodesCount(episodes: seq<Episode>): (r: nat)
    ensures r <= |episodes|
  {
    if episodes == [] then 0
    else EpisodesCount(episodes[..|episodes| - 1]) + (if HasMedia(episodes[|episodes| - 1]) then 1 else 0)
  }

  lemma EpisodesStep(episodes: seq<Episode>, e: Episode)
    ensures EpisodesSize(episodes + [e]) == EpisodesSize(episodes) + (if HasMedia(e) then MediaSize(e.media) else 0)
    ensures EpisodesCount(episodes + [e]) == EpisodesCount(episodes) + (if HasMedia(e) then 1 else 0)
  {
    assert (episodes + [e])[..|episodes|] == episodes;
  }

  /** The count is zero exactly when no episode has media, and then the size is zero too. */
  lemma {:induction false} EmptySeason(episodes: seq<Episode>)
    ensures EpisodesCount(episodes) == 0 <==> forall i :: 0 <= i < |episodes| ==> !HasMedia(episodes[i])
    ensures EpisodesCount(episodes) == 0 ==> EpisodesSize(episodes) == 0
  {
    if episodes != [] {
      var init := episodes[..|episodes| - 1];
      EmptySeason(init);
      if EpisodesCount(episodes) == 0 {
        forall i | 0 <= i < |episodes| ensures !HasMedia(episodes[i]) {
          if i < |init| {
            assert init[i] == episodes[i];
          }
        }
      } else if !HasMedia(episodes[|episodes| - 1]) {
        var i :| 0 <= i < |init| && HasMedia(init[i]);
        assert episodes[i] == init[i];
      }
    }
  }

  /** One entry of `season_data`: the season number and its (size, episode count). */
  datatype SeasonEntry = SeasonEntry(number: Option<int>, size: int, episodes: nat)

  /**
   * `season_data[number] = (size, count)`: a number already present keeps its
   * place and takes the new value; a new number goes at the end.
   */
  function Put(data: seq<SeasonEntry>, e: SeasonEntry): (r: seq<SeasonEntry>)
    ensures e in r
    ensures forall x :: x in data && x.number != e.number ==> x in r
    ensures forall x :: x in r ==> x == e || x in data
    ensures (forall x :: x in data ==> x.number != e.number) ==> r == data + [e]
  {
    if data == [] then [e]
    else if data[0].number == e.number then [e] + data[1..]
    else
      var rest := Put(data[1..], e);
      assert data == [data[0]] + data[1..];
      [data[0]] + rest
  }

  function SeasonTotals(s: Season): SeasonEntry {
    SeasonEntry(s.seasonNumber, EpisodesSize(s.episodes), EpisodesCount(s.episodes))
  }

  /** `season_data` after the season loop: only seasons of positive size are recorded. */
  function SeasonData(seasons: seq<Season>): (r: seq<SeasonEntry>)
    ensures forall x :: x in r ==> x.size > 0
    ensures forall x :: x in r ==> exists i :: 0 <= i < |seasons| && SeasonTotals(seasons[i]) == x
  {
    if seasons == [] then []
    else
      var init, last := seasons[..|seasons| - 1], seasons[|seasons| - 1];
      var data := SeasonData(init);
      assert forall i :: 0 <= i < |init| ==> init[i] == seasons[i];
      var t := SeasonTotals(last);
      if t.size > 0 then Put(data, t) else data
  }

  /** `total_size`: the sizes of the recorded seasons. */
  function TotalSize(seasons: seq<Season>): int {
    if seasons == [] then 0
    else
      var t := SeasonTotals(seasons[|seasons| - 1]);
      TotalSize(seasons[..|seasons| - 1]) + (if t.size > 0 then t.size else 0)
  }

  /** `total_episode_count`: the episode counts of the recorded seasons. */
  function TotalEpisodes(seasons: seq<Season>): nat {
    if seasons == [] then 0
    else
      var t := SeasonTotals(seasons[|seasons| - 1]);
      TotalEpisodes(seasons[..|seasons| - 1]) + (if t.size > 0 then t.episodes else 0)
  }

  function SizeSum(data: seq<SeasonEntry>): int {
    if data == [] then 0 else SizeSum(data[..|data| - 1]) + data[|data| - 1].size
  }

  function EpisodeSum(data: seq<SeasonEntry>): nat {
    if data == [] then 0 else EpisodeSum(data[..|data| - 1]) + data[|data| - 1].episodes
  }

  ghost predicate DistinctNumbers(seasons: seq<Season>) {
    forall i, j :: 0 <= i < j < |seasons| ==> seasons[i].seasonNumber != seasons[j].seasonNumber
  }

  lemma SumsStep(data: seq<SeasonEntry>, t: SeasonEntry)
    ensures SizeSum(data + [t]) == SizeSum(data) + t.size
    ensures EpisodeSum(data + [t]) == EpisodeSum(data) + t.episodes
  {
    assert (data + [t])[..|data|] == data;
  }

  /** One more season: the recorded entries and both totals grow by that season when its size is positive. */
  lemma SeasonStep(seasons: seq<Season>)
    requires seasons != []
    ensures var init, t := seasons[..|seasons| - 1], SeasonTotals(seasons[|seasons| - 1]);
            && SeasonData(seasons) == (if t.size > 0 then Put(SeasonData(init), t) else SeasonData(init))
            && TotalSize(seasons) == TotalSize(init) + (if t.size > 0 then t.size else 0)
            && TotalEpisodes(seasons) == TotalEpisodes(init) + (if t.size > 0 then t.episodes else 0)
  {
  }

  /** A season whose number no earlier season has gets a new entry. */
  lemma FreshNumber(seasons: seq<Season>)
    requires seasons != [] && DistinctNumbers(seasons)
    ensures var init, t := seasons[..|seasons| - 1], SeasonTotals(seasons[|seasons| - 1]);
            forall x :: x in SeasonData(init) ==> x.number != t.number
  {
    var init, t := seasons[..|seasons| - 1], SeasonTotals(seasons[|seasons| - 1]);
    forall x | x in SeasonData(init) ensures x.number != t.number {
      var i :| 0 <= i < |init| && SeasonTotals(init[i]) == x;
      assert seasons[i] == init[i];
    }
  }

  lemma DistinctInit(seasons: seq<Season>)
    requires seasons != [] && DistinctNumbers(seasons)
    ensures DistinctNumbers(seasons[..|seasons| - 1])
  {
    var init := seasons[..|seasons| - 1];
    forall i, j | 0 <= i < j < |init| ensures init[i].seasonNumber != init[j].seasonNumber {
      assert init[i] == seasons[i] && init[j] == seasons[j];
    }
  }

  /**
   * With distinct season numbers, `season_data` holds one entry per season of
   * positive size, in season order, and its sizes and counts add up to the
   * show's totals.
   */
  lemma {:induction false} SeasonDataSums(seasons: seq<Season>)
    requires DistinctNumbers(seasons)
    ensures SizeSum(SeasonData(seasons)) == TotalSize(seasons)
    ensures EpisodeSum(SeasonData(seasons)) == TotalEpisodes(seasons)
    ensures |SeasonData(seasons)| <= |seasons|
  {
    if seasons != [] {
      var init, t := seasons[..|seasons| - 1], SeasonTotals(seasons[|seasons| - 1]);
      DistinctInit(seasons);
      SeasonDataSums(init);
      SeasonStep(seasons);
      if t.size > 0 {
        FreshNumber(seasons);
        var data := SeasonData(init);
        assert Put(data, t) == data + [t];
        SumsStep(data, t);
      }
    }
  }

  // ---------------------------------------------------------------------
  // The command
  // ---------------------------------------------------------------------

  /** One element of `shows_list`: the show, its total size, its episode count and its `season_data`. */
  datatype ShowEntry = ShowEntry(show: Show, size: int, episodes: nat, seasons: seq<SeasonEntry>)

  function EntrySize(e: ShowEntry): int {
    e.size
  }

  /** `all(ep.isWatched for ep in episodes)`: no episode's flag is anything but True. */
  predicate AllWatched(episodes: seq<Episode>) {
    forall i :: 0 <= i < |episodes| ==> IsTruthy(episodes[i].isWatched)
  }

  /** The show passes the watched filter and has episodes. */
  predicate Considered(show: Show, watched: bool) {
    (!watched || AllWatched(show.episodes)) && show.episodes != []
  }

  function EntryFor(show: Show): ShowEntry {
    ShowEntry(show, TotalSize(show.seasons), TotalEpisodes(show.seasons), SeasonData(show.seasons))
  }

  /** What the scan appends for a show: considered, and of positive total size. */
  predicate Kept(show: Show, watched: bool) {
    Considered(show, watched) && TotalSize(show.seasons) > 0
  }

  /** The filter of the scan: Kept, as a function value. */
  function KeptBy(watched: bool): Show -> bool {
    (x: Show) => Kept(x, watched)
  }

  /** `shows_list` after the scan: the entries of the kept shows, in scan order. */
  function CandidatesOf(shows: seq<Show>, watched: bool): (r: seq<ShowEntry>)
    ensures |r| <= |shows|
  {
    Keep(shows, KeptBy(watched), EntryFor)
  }

  lemma CandidatesStep(scanned: seq<Show>, show: Show, watched: bool)
    ensures CandidatesOf(scanned + [show], watched)
            == CandidatesOf(scanned, watched) + (if Kept(show, watched) then [EntryFor(show)] else [])
  {
    KeepStep(scanned, show, KeptBy(watched), EntryFor);
  }

  lemma CandidatesAppend(a: seq<Show>, b: seq<Show>, watched: bool)
    ensures CandidatesOf(a + b, watched) == CandidatesOf(a, watched) + CandidatesOf(b, watched)
  {
    KeepAppend(a, b, KeptBy(watched), EntryFor);
  }

  /** Every kept show is a candidate. */
  lemma KeptIsCandidate(shows: seq<Show>, watched: bool, i: nat)
    requires i < |shows| && Kept(shows[i], watched)
    ensures EntryFor(shows[i]) in CandidatesOf(shows, watched)
  {
    KeepMember(shows, KeptBy(watched), EntryFor, i);
  }

  /** Every candidate is the entry of a kept show, so its size is positive. */
  lemma CandidateIsKept(shows: seq<Show>, watched: bool, x: ShowEntry)
    requires x in CandidatesOf(shows, watched)
    ensures exists i :: 0 <= i < |shows| && Kept(shows[i], watched) && x == EntryFor(shows[i])
    ensures x.size > 0
  {
    KeepSource(shows, KeptBy(watched), EntryFor, x);
  }

  /** `[s for s in sections if s.type == "show"]`. */
  function ShowSections(sections: seq<Section>): (r: seq<Section>)
    ensures forall i :: 0 <= i < |r| ==> r[i].kind == "show"
    ensures forall s :: s in sections && s.kind == "show" ==> s in r
    ensures forall s :: s in r ==> s in sections
  {
    if sections == [] then []
    else
      var init := sections[..|sections| - 1];
      assert forall s :: s in init ==> s in sections;
      assert forall s :: s in sections ==> s in init || s == sections[|sections| - 1];
      ShowSections(init) + (if sections[|sections| - 1].kind == "show" then [sections[|sections| - 1]] else [])
  }

  /** Every show of the given sections, section by section. */
  function ShowsOf(sections: seq<Section>): seq<Show> {
    Flatten(sections, SectionShows)
  }

  function SectionShows(s: Section): seq<Show> {
    s.shows
  }

  /** The shows the command ranks, with their sizes. */
  function Candidates(sections: seq<Section>, watched: bool): seq<ShowEntry> {
    CandidatesOf(ShowsOf(ShowSections(sections)), watched)
  }

  datatype CliOutcome =
    | NoShowLibraries
    | NoSizedShows
    | Ranked(top: seq<ShowEntry>)

  /** The season loop of the scan for one season: its size and episode count. */
  method ScanSeason(season: Season) returns (size: int, count: nat)
    ensures size == EpisodesSize(season.episodes) && count == EpisodesCount(season.episodes)
  {
    size, count := 0, 0;
    var episodes := season.episodes;
    for j := 0 to |episodes|
      invariant size == EpisodesSize(episodes[..j]) && count == EpisodesCount(episodes[..j])
    {
      assert episodes[..j + 1] == episodes[..j] + [episodes[j]];
      EpisodesStep(episodes[..j], episodes[j]);
      if episodes[j].media != [] {
        size := size + MediaSize(episodes[j].media);
        count := count + 1;
      }
    }
    assert episodes[..|episodes|] == episodes;
  }

  /** The loop over `show.seasons()`: the show's totals and its `season_data`. */
  method ScanShow(show: Show) returns (totalSize: int, totalEpisodes: nat, seasonData: seq<SeasonEntry>)
    ensures totalSize == TotalSize(show.seasons)
    ensures totalEpisodes == TotalEpisodes(show.seasons)
    ensures seasonData == SeasonData(show.seasons)
  {
    totalSize, totalEpisodes, seasonData := 0, 0, [];
    var seasons := show.seasons;
    for k := 0 to |seasons|
      invariant totalSize == TotalSize(seasons[..k])
      invariant totalEpisodes == TotalEpisodes(seasons[..k])
      invariant seasonData == SeasonData(seasons[..k])
    {
      assert seasons[..k + 1][..k] == seasons[..k];
      var seasonSize, seasonCount := ScanSeason(seasons[k]);
      if seasonSize > 0 {
        seasonData := Put(seasonData, SeasonEntry(seasons[k].seasonNumber, seasonSize, seasonCount));
        totalSize := totalSize + seasonSize;
        totalEpisodes := totalEpisodes + seasonCount;
      }
    }
    assert seasons[..|seasons|] == seasons;
  }

  /** The loop over the shows of one section: what it appends to `shows_list`. */
  method ScanShows(shows: seq<Show>, watched: bool) returns (entries: seq<ShowEntry>)
    ensures entries == CandidatesOf(shows, watched)
  {
    entries := [];
    for j := 0 to |shows|
      invariant entries == CandidatesOf(shows[..j], watched)
    {
      var show := shows[j];
      assert shows[..j + 1] == shows[..j] + [show];
      CandidatesStep(shows[..j], show, watched);
      var episodes := show.episodes;
      if watched && !AllWatched(episodes) {
        continue;
      }
      if episodes != [] {
        var totalSize, totalEpisodes, seasonData := ScanShow(show);
        if totalSize > 0 {
          entries := entries + [ShowEntry(show, totalSize, totalEpisodes, seasonData)];
        }
      }
    }
    assert shows[..|shows|] == shows;
  }

  /** The loop over the show libraries: `shows_list` after the scan. */
  method ScanSections(showSections: seq<Section>, watched: bool) returns (showsList: seq<ShowEntry>)
    ensures showsList == CandidatesOf(ShowsOf(showSections), watched)
  {
    showsList := [];
    for i := 0 to |showSections|
      invariant showsList == CandidatesOf(ShowsOf(showSections[..i]), watched)
    {
      var section := showSections[i];
      assert showSections[..i + 1] == showSections[..i] + [section];
      FlattenStep(showSections[..i], section, SectionShows);
      var entries := ScanShows(section.shows, watched);
      CandidatesAppend(ShowsOf(showSections[..i]), section.shows, watched);
      showsList := showsList + entries;
    }
    assert showSections[..|showSections|] == showSections;
  }

  /**
   * The command without its I/O: the show libraries, the candidate shows
   * (scanned section by section), then the `limit` largest by a stable
   * descending sort.
   */
  method Cli(sections: seq<Section>, watched: bool, limit: int) returns (outcome: CliOutcome)
    ensures outcome.NoShowLibraries? <==> ShowSections(sections) == []
    ensures ShowSections(sections) != [] ==>
              var top := Ranking.Take(Ranking.SortDesc(Candidates(sections, watched), EntrySize), limit);
              outcome == if top == [] then NoSizedShows else Ranked(top)
    ensures outcome.Ranked? && limit >= 0 ==> outcome.top == Ranking.Top(Candidates(sections, watched), EntrySize, limit)
  {
    var showSections := ShowSections(sections);
    if showSections == [] {
      return NoShowLibraries;
    }
    var showsList := ScanSections(showSections, watched);
    var sorted := Ranking.SortDesc(showsList, EntrySize);
    var top := Ranking.Take(sorted, limit);
    if top == [] {
      return NoSizedShows;
    }
    return Ranked(top);
  }

  // ---------------------------------------------------------------------
  // The browser
  // ---------------------------------------------------------------------

  datatype ViewMode = ShowView | SeasonView

  /** `"season" if view_mode == "show" else "show"`. */
  function Switched(mode: ViewMode): (r: ViewMode)
    ensures r != mode
  {
    if mode == ShowView then SeasonView else ShowView
  }

  /** Switching twice returns to the first view. */
  lemma SwitchedTwice(mode: ViewMode)
    ensures Switched(Switched(mode)) == mode
  {
  }

  /** One element of `display_items`: the show, the size and episode count shown, and the season (None in show view and for specials). */
  datatype DisplayItem = DisplayItem(show: Show, size: int, episodes: nat, seasonNumber: Option<int>)

  function ItemSize(d: DisplayItem): int {
    d.size
  }

  /** The season-view items of one show: one per `season_data` entry, in its order. */
  function SeasonItems(show: Show, data: seq<SeasonEntry>): (r: seq<DisplayItem>)
    ensures |r| == |data|
  {
    if data == [] then []
    else
      var last := data[|data| - 1];
      SeasonItems(show, data[..|data| - 1]) + [DisplayItem(show, last.size, last.episodes, last.number)]
  }

  /** Season item k shows the show with season k's number, size and episode count. */
  lemma {:induction false} SeasonItemsAt(show: Show, data: seq<SeasonEntry>, k: nat)
    requires k < |data|
    ensures SeasonItems(show, data)[k] == DisplayItem(show, data[k].size, data[k].episodes, data[k].number)
  {
    var init := data[..|data| - 1];
    if k < |init| {
      assert init[k] == data[k];
      SeasonItemsAt(show, init, k);
    }
  }

  /** How many seasons all shows have recorded: the row count of the season view. */
  function SeasonRowCount(data: seq<ShowEntry>): nat {
    if data == [] then 0 else SeasonRowCount(data[..|data| - 1]) + |data[|data| - 1].seasons|
  }

  /** The items one show contributes: itself in show view, its recorded seasons in season view. */
  function EntryItems(e: ShowEntry, mode: ViewMode): seq<DisplayItem> {
    if mode == ShowView then [DisplayItem(e.show, e.size, e.episodes, None)] else SeasonItems(e.show, e.seasons)
  }

  /** `display_items` before sorting: the items of every show, in ranking order. */
  function DisplayItems(data: seq<ShowEntry>, mode: ViewMode): seq<DisplayItem> {
    if data == [] then [] else DisplayItems(data[..|data| - 1], mode) + EntryItems(data[|data| - 1], mode)
  }

  lemma DisplayItemsStep(data: seq<ShowEntry>, i: nat, mode: ViewMode)
    requires i < |data|
    ensures DisplayItems(data[..i + 1], mode) == DisplayItems(data[..i], mode) + EntryItems(data[i], mode)
  {
    assert data[..i + 1][..i] == data[..i];
  }

  /** In show view there is one item per show, carrying that show's totals and no season. */
  lemma {:induction false} ShowViewItems(data: seq<ShowEntry>)
    ensures |DisplayItems(data, ShowView)| == |data|
    ensures forall k :: 0 <= k < |data| ==>
              DisplayItems(data, ShowView)[k] == DisplayItem(data[k].show, data[k].size, data[k].episodes, None)
  {
    if data != [] {
      var init := data[..|data| - 1];
      ShowViewItems(init);
      assert forall k :: 0 <= k < |init| ==> init[k] == data[k];
    }
  }

  /** In season view there is one item per recorded season. */
  lemma {:induction false} SeasonViewItems(data: seq<ShowEntry>)
    ensures |DisplayItems(data, SeasonView)| == SeasonRowCount(data)
  {
    if data != [] {
      SeasonViewItems(data[..|data| - 1]);
    }
  }

  /** The title cell: `Title (year)` when the year is truthy, `Title - Specials` or `Title - Snn` in season view. */
  function RowTitle(item: DisplayItem, mode: ViewMode): (r: string)
    ensures item.show.title <= r
    ensures mode == ShowView ==> (r == item.show.title <==> !(item.show.year.Some? && item.show.year.value != 0))
    ensures mode == SeasonView ==> |r| > |item.show.title|
  {
    var show := item.show;
    if mode == ShowView then
      (if show.year.Some? && show.year.value != 0 then show.title + " (" + Text.IntToString(show.year.value) + ")"
       else show.title)
    else if item.seasonNumber.None? then show.title + " - Specials"
    else show.title + " - S" + Text.PadInt(item.seasonNumber.value, 2)
  }

  /**
   * The text cells of the row showing `item` at rank `rank` (counted from 1):
   * the checkbox, the rank, the title and the episode count. The library,
   * float and rating columns are not modelled.
   */
  function RowCells(rank: nat, item: DisplayItem, mode: ViewMode): seq<string> {
    [" ", Text.ZeroPad(rank, 3), RowTitle(item, mode), Text.ZeroPad(item.episodes, 4)]
  }

  /** `row_to_show` after the loop: counter value k maps to the show and season of the k-th item. */
  function RowMap(items: seq<DisplayItem>): map<RowKey, (Show, Option<int>)> {
    if items == [] then map[]
    else
      var last := items[|items| - 1];
      RowMap(items[..|items| - 1])[RowKey(|items| - 1) := (last.show, last.seasonNumber)]
  }

  /** The row map has exactly the keys 0..n-1, key k holding item k's show and season. */
  lemma {:induction false} RowMapKeys(items: seq<DisplayItem>)
    ensures forall key :: key in RowMap(items) <==> 0 <= key.id < |items|
    ensures forall k :: 0 <= k < |items| ==> RowMap(items)[RowKey(k)] == (items[k].show, items[k].seasonNumber)
  {
    if items != [] {
      var init := items[..|items| - 1];
      RowMapKeys(init);
      assert forall k :: 0 <= k < |init| ==> init[k] == items[k];
    }
  }

  /** What `display_items.sort(key=size, reverse=True)` yields for a view. */
  function SortedItems(data: seq<ShowEntry>, mode: ViewMode): seq<DisplayItem> {
    Ranking.SortDesc(DisplayItems(data, mode), ItemSize)
  }

  datatype DeleteOutcome =
    | NoShowsChosen
    | NoSonarrClient
    | NoWholeShows
    | Deleted(shows: seq<Show>, results: seq<bool>, requests: seq<Option<ArrLookup.DeleteRequest>>)

  datatype ReencodeOutcome =
    | NoItemsChosen
    | NoFilePaths
    | Script(files: seq<string>)

  /** The shows behind the selected rows that are in the row map. */
  function ShowsAt(keys: set<RowKey>, m: map<RowKey, (Show, Option<int>)>): set<Show> {
    set k | k in keys && k in m :: m[k].0
  }

  lemma ShowsAtAdd(keys: set<RowKey>, k: RowKey, m: map<RowKey, (Show, Option<int>)>)
    ensures ShowsAt(keys + {k}, m) == ShowsAt(keys, m) + (if k in m then {m[k].0} else {})
  {
  }

  /** `sonarr_client.delete_series(show)` succeeds: the lookup finds the show and the DELETE succeeds. */
  predicate DeleteSucceeds(seriesList: Option<seq<ArrLookup.Item>>, show: Show, deleteOk: Show -> bool) {
    ArrLookup.Lookup(seriesList, show.title, show.year).Some? && deleteOk(show)
  }

  /** The episodes a row stands for; None when `show.season(n)` finds no such season. */
  function RowEpisodes(show: Show, seasonNumber: Option<int>, mode: ViewMode): Option<seq<Episode>> {
    if mode == ShowView || seasonNumber.None? then Some(show.episodes)
    else SeasonEpisodes(show.seasons, seasonNumber.value)
  }

  /** `show.season(n).episodes()`: the first season numbered n. */
  function SeasonEpisodes(seasons: seq<Season>, n: int): (r: Option<seq<Episode>>)
    ensures r.Some? <==> exists i :: 0 <= i < |seasons| && seasons[i].seasonNumber == Some(n)
    ensures r.Some? ==> exists i :: 0 <= i < |seasons| && seasons[i].seasonNumber == Some(n) && seasons[i].episodes == r.value
  {
    if seasons == [] then None
    else if seasons[0].seasonNumber == Some(n) then Some(seasons[0].episodes)
    else
      var r := SeasonEpisodes(seasons[1..], n);
      assert forall i :: 0 <= i < |seasons[1..]| ==> seasons[1..][i] == seasons[i + 1];
      assert (exists i :: 0 <= i < |seasons| && seasons[i].seasonNumber == Some(n))
             ==> exists i :: 0 <= i < |seasons[1..]| && seasons[1..][i].seasonNumber == Some(n);
      r
  }

  /** The truthy `part.file` values of one episode, when it has media. */
  function EpisodeFiles(e: Episode): seq<string> {
    if HasMedia(e) then MediaFiles(e.media) else []
  }

  /** The truthy `part.file` values of the episodes that have media, in order. */
  function EpisodesFiles(episodes: seq<Episode>): seq<string> {
    Flatten(episodes, EpisodeFiles)
  }

  /** A file is collected exactly when some part of some episode holds it as a non-empty `file`. */
  lemma EpisodesFilesMembership(episodes: seq<Episode>, f: string)
    ensures f in EpisodesFiles(episodes) <==> exists i :: 0 <= i < |episodes| && f in MediaFiles(episodes[i].media)
  {
    FlattenMembership(episodes, EpisodeFiles, f);
    assert forall i :: 0 <= i < |episodes| ==> EpisodeFiles(episodes[i]) == MediaFiles(episodes[i].media);
  }

  /** The files one selected row contributes: none when the row is not in the map or its season is missing. */
  function RowFiles(k: RowKey, m: map<RowKey, (Show, Option<int>)>, mode: ViewMode): seq<string> {
    if k !in m then []
    else match RowEpisodes(m[k].0, m[k].1, mode)
         case None => []
         case Some(episodes) => EpisodesFiles(episodes)
  }

  /** The files the re-encode collects, visiting the rows in `order`. */
  function FilesFor(order: seq<RowKey>, m: map<RowKey, (Show, Option<int>)>, mode: ViewMode): seq<string> {
    if order == [] then [] else FilesFor(order[..|order| - 1], m, mode) + RowFiles(order[|order| - 1], m, mode)
  }

  lemma FilesForStep(order: seq<RowKey>, k: RowKey, m: map<RowKey, (Show, Option<int>)>, mode: ViewMode)
    ensures FilesFor(order + [k], m, mode) == FilesFor(order, m, mode) + RowFiles(k, m, mode)
  {
    assert (order + [k])[..|order|] == order;
  }

  /** A file is collected exactly when some visited row contributes it. */
  lemma {:induction false} FilesForMembership(order: seq<RowKey>, m: map<RowKey, (Show, Option<int>)>, mode: ViewMode, f: string)
    ensures f in FilesFor(order, m, mode) <==> exists i :: 0 <= i < |order| && f in RowFiles(order[i], m, mode)
  {
    if order != [] {
      var init := order[..|order| - 1];
      FilesForMembership(init, m, mode, f);
      assert forall i :: 0 <= i < |init| ==> init[i] == order[i];
    }
  }

  /** The row loop of the re-encode: the files of every selected row, in the set's iteration order `order`. */
  method CollectRowFiles(selected: set<RowKey>, m: map<RowKey, (Show, Option<int>)>, mode: ViewMode)
    returns (filePaths: seq<string>, ghost order: seq<RowKey>)
    ensures IsOrderOf(order, selected)
    ensures filePaths == FilesFor(order, m, mode)
    ensures forall f :: f in filePaths <==> exists k :: k in selected && f in RowFiles(k, m, mode)
  {
    filePaths, order := [], [];
    var todo := selected;
    while todo != {}
      invariant todo <= selected
      invariant forall k :: k in order <==> k in selected && k !in todo
      invariant Distinct(order)
      invariant filePaths == FilesFor(order, m, mode)
      decreases |todo|
    {
      var rowKey :| rowKey in todo;
      AppendNew(order, rowKey);
      FilesForStep(order, rowKey, m, mode);
      order := order + [rowKey];
      todo := todo - {rowKey};
      if rowKey !in m {
        continue;
      }
      var (show, seasonNumber) := m[rowKey];
      var episodes := RowEpisodes(show, seasonNumber, mode);
      if episodes.None? {
        continue;
      }
      var files := CollectEpisodeFiles(episodes.value);
      filePaths := filePaths + files;
    }
    forall f | true
      ensures f in filePaths <==> exists k :: k in selected && f in RowFiles(k, m, mode)
    {
      FilesForMembership(order, m, mode, f);
      if f in filePaths {
        var i :| 0 <= i < |order| && f in RowFiles(order[i], m, mode);
        assert order[i] in selected;
      }
      if exists k :: k in selected && f in RowFiles(k, m, mode) {
        var k :| k in selected && f in RowFiles(k, m, mode);
        assert k in order;
        var i :| 0 <= i < |order| && order[i] == k;
      }
    }
  }

  /** The episode loop of the re-encode file collection. */
  method CollectEpisodeFiles(episodes: seq<Episode>) returns (files: seq<string>)
    ensures files == EpisodesFiles(episodes)
  {
    files := [];
    for i := 0 to |episodes|
      invariant files == EpisodesFiles(episodes[..i])
    {
      assert episodes[..i + 1] == episodes[..i] + [episodes[i]];
      FlattenStep(episodes[..i], episodes[i], EpisodeFiles);
      if episodes[i].media != [] {
        var more := CollectFiles(episodes[i].media);
        files := files + more;
      }
    }
    assert episodes[..|episodes|] == episodes;
  }

  /** The inner loop of the season view: one item per recorded season of `show`. */
  method BuildSeasonItems(show: Show, seasons: seq<SeasonEntry>) returns (items: seq<DisplayItem>)
    ensures items == SeasonItems(show, seasons)
  {
    items := [];
    for k := 0 to |seasons|
      invariant items == SeasonItems(show, seasons[..k])
    {
      var s := seasons[k];
      assert seasons[..k + 1][..k] == seasons[..k];
      items := items + [DisplayItem(show, s.size, s.episodes, s.number)];
    }
    assert seasons[..|seasons|] == seasons;
  }

  /** The loop building `display_items` for a view. */
  method BuildDisplayItems(data: seq<ShowEntry>, mode: ViewMode) returns (displayItems: seq<DisplayItem>)
    ensures displayItems == DisplayItems(data, mode)
  {
    displayItems := [];
    for i := 0 to |data|
      invariant displayItems == DisplayItems(data[..i], mode)
    {
      DisplayItemsStep(data, i, mode);
      var items := BuildEntryItems(data[i], mode);
      displayItems := displayItems + items;
    }
    assert data[..|data|] == data;
  }

  /** The items of one show for the view: the show itself, or one per recorded season. */
  method BuildEntryItems(e: ShowEntry, mode: ViewMode) returns (items: seq<DisplayItem>)
    ensures items == EntryItems(e, mode)
  {
    if mode == ShowView {
      items := [DisplayItem(e.show, e.size, e.episodes, None)];
    } else {
      items := BuildSeasonItems(e.show, e.seasons);
    }
  }

  /** The loop adding the sorted items as rows, counting `row_key` from 0. */
  method BuildRows(items: seq<DisplayItem>) returns (rows: seq<DisplayItem>, rowMap: map<RowKey, (Show, Option<int>)>)
    ensures rows == items && rowMap == RowMap(items)
  {
    rows, rowMap := [], map[];
    var rowKey := 0;
    for i := 0 to |items|
      invariant rowKey == i
      invariant rows == items[..i]
      invariant rowMap == RowMap(items[..i])
    {
      assert items[..i + 1][..i] == items[..i];
      rows := rows + [items[i]];
      rowMap := rowMap[RowKey(rowKey) := (items[i].show, items[i].seasonNumber)];
      rowKey := rowKey + 1;
    }
    assert items[..|items|] == items;
  }

  /** The shows behind the selected rows, each once, in the set's iteration order. */
  method DistinctShows(selected: set<RowKey>, rowToShow: map<RowKey, (Show, Option<int>)>) returns (shows: seq<Show>)
    ensures forall s :: s in shows <==> s in ShowsAt(selected, rowToShow)
    ensures Distinct(shows)
  {
    shows := [];
    var todo := selected;
    ghost var visited: set<RowKey> := {};
    while todo != {}
      invariant todo <= selected && visited == selected - todo
      invariant forall s :: s in shows <==> s in ShowsAt(visited, rowToShow)
      invariant Distinct(shows)
      decreases |todo|
    {
      var rowKey :| rowKey in todo;
      ShowsAtAdd(visited, rowKey, rowToShow);
      if rowKey in rowToShow {
        var show := rowToShow[rowKey].0;
        if show !in shows {
          AppendNew(shows, show);
          shows := shows + [show];
        }
      }
      todo := todo - {rowKey};
      visited := visited + {rowKey};
    }
  }

  /** What the delete loop reports, show by show. */
  function DeleteResults(shows: seq<Show>, seriesList: Option<seq<ArrLookup.Item>>, deleteOk: Show -> bool)
    : seq<bool>
  {
    Outcomes(shows, SucceedsBy(seriesList, deleteOk))
  }

  /** DeleteSucceeds, as a function value. */
  function SucceedsBy(seriesList: Option<seq<ArrLookup.Item>>, deleteOk: Show -> bool): Show -> bool {
    (s: Show) => DeleteSucceeds(seriesList, s, deleteOk)
  }

  /** Result i is whether show i was found in Sonarr and its DELETE succeeded. */
  lemma DeleteResultsAt(shows: seq<Show>, seriesList: Option<seq<ArrLookup.Item>>, deleteOk: Show -> bool, i: nat)
    requires i < |shows|
    ensures |DeleteResults(shows, seriesList, deleteOk)| == |shows|
    ensures DeleteResults(shows, seriesList, deleteOk)[i] == DeleteSucceeds(seriesList, shows[i], deleteOk)
  {
    OutcomesAt(shows, SucceedsBy(seriesList, deleteOk), i);
  }

  /**
   * The DELETE `delete_series(show)` sends with its default flags
   * (`delete_files=True`, `add_exclusion=True`), or None when the lookup fails
   * and nothing is sent.
   */
  function DeleteRequestOf(seriesList: Option<seq<ArrLookup.Item>>, show: Show): (r: Option<ArrLookup.DeleteRequest>)
    ensures r.Some? <==> ArrLookup.Lookup(seriesList, show.title, show.year).Some?
    ensures r.Some? ==>
              && r.value.endpoint == "series/" + Text.IntToString(ArrLookup.Lookup(seriesList, show.title, show.year).value.id)
              && r.value.params == [("deleteFiles", "true"), (Sonarr.ExclusionKey, "true")]
  {
    var found := ArrLookup.Lookup(seriesList, show.title, show.year);
    if found.Some? then Some(ArrLookup.DeleteRequestFor("series", found.value.id, true, Sonarr.ExclusionKey, true))
    else None
  }

  /** The requests the delete loop sends, one per show in order (None where nothing is sent). */
  function DeleteRequests(shows: seq<Show>, seriesList: Option<seq<ArrLookup.Item>>): seq<Option<ArrLookup.DeleteRequest>> {
    seq(|shows|, i requires 0 <= i < |shows| => DeleteRequestOf(seriesList, shows[i]))
  }

  lemma DeleteRequestsStep(shows: seq<Show>, show: Show, seriesList: Option<seq<ArrLookup.Item>>)
    ensures DeleteRequests(shows + [show], seriesList) == DeleteRequests(shows, seriesList) + [DeleteRequestOf(seriesList, show)]
  {
  }

  /** The delete loop: `delete_series(show)` for each show, with the default flags. */
  method DeleteAll(client: Sonarr.SonarrClient, shows: seq<Show>, seriesList: Option<seq<ArrLookup.Item>>,
                   deleteOk: Show -> bool) returns (results: seq<bool>, requests: seq<Option<ArrLookup.DeleteRequest>>)
    ensures results == DeleteResults(shows, seriesList, deleteOk)
    ensures requests == DeleteRequests(shows, seriesList)
  {
    results, requests := [], [];
    for i := 0 to |shows|
      invariant results == DeleteResults(shows[..i], seriesList, deleteOk)
      invariant requests == DeleteRequests(shows[..i], seriesList)
    {
      var show := shows[i];
      assert shows[..i + 1] == shows[..i] + [show];
      OutcomesStep(shows[..i], show, SucceedsBy(seriesList, deleteOk));
      var success, request := client.DeleteSeries(show, seriesList, true, true, deleteOk(show));
      assert success == DeleteSucceeds(seriesList, show, deleteOk);
      results := results + [success];
      assert request == DeleteRequestOf(seriesList, show);
      DeleteRequestsStep(shows[..i], show, seriesList);
      requests := requests + [request];
    }
    assert shows[..|shows|] == shows;
  }

  class ShowSizeApp {
    /** The ranked shows the command passed in. */
    const showsData: seq<ShowEntry>
    /** The Sonarr client, null when there is none. */
    const sonarr: Sonarr.SonarrClient?
    var selectedRows: set<RowKey>
    var rowToShow: map<RowKey, (Show, Option<int>)>
    var viewMode: ViewMode
    /** The table's rows, top to bottom; row k shows `RowCells(k + 1, rows[k], viewMode)`. */
    var rows: seq<DisplayItem>

    constructor (showsData: seq<ShowEntry>, sonarr: Sonarr.SonarrClient?)
      ensures this.showsData == showsData && this.sonarr == sonarr
      ensures selectedRows == {} && rowToShow == map[] && viewMode == ShowView && rows == []
    {
      this.showsData := showsData;
      this.sonarr := sonarr;
      selectedRows := {};
      rowToShow := map[];
      viewMode := ShowView;
      rows := [];
    }

    /**
     * Rebuilds the table for the current view: the items sorted by size,
     * largest first, ranked from 1; the row map keyed 0..n-1; no selection.
     */
    method PopulateTable()
      modifies this
      ensures viewMode == old(viewMode)
      ensures selectedRows == {}
      ensures rows == SortedItems(showsData, viewMode)
      ensures rowToShow == RowMap(SortedItems(showsData, viewMode))
      ensures Ranking.NonIncreasing(SortedItems(showsData, viewMode), ItemSize)
    {
      selectedRows := {};
      var displayItems := BuildDisplayItems(showsData, viewMode);
      var items := Ranking.SortDesc(displayItems, ItemSize);
      var newRows, newMap := BuildRows(items);
      rows := newRows;
      rowToShow := newMap;
    }

    /** Toggles the row under the cursor; nothing else changes. */
    method ToggleSelect(cursor: Option<nat>, rowKeys: seq<RowKey>, columnCount: nat)
      modifies this
      ensures selectedRows == ToggleAt(old(selectedRows), cursor, rowKeys, columnCount)
      ensures rowToShow == old(rowToShow) && viewMode == old(viewMode) && rows == old(rows)
    {
      if cursor.Some? {
        var rowIndex := cursor.value;
        if rowIndex < |rowKeys| && columnCount > 0 {
          var rowKey := rowKeys[rowIndex];
          if rowKey in selectedRows {
            selectedRows := selectedRows - {rowKey};
          } else {
            selectedRows := selectedRows + {rowKey};
          }
        }
      }
    }

    /** Switches between the show and the season view and rebuilds the table. */
    method ToggleView()
      modifies this
      ensures viewMode == Switched(old(viewMode))
      ensures selectedRows == {}
      ensures rows == SortedItems(showsData, viewMode)
      ensures rowToShow == RowMap(SortedItems(showsData, viewMode))
    {
      viewMode := if viewMode == ShowView then SeasonView else ShowView;
      PopulateTable();
    }

    /**
     * Deletes, through Sonarr, every distinct show behind a selected row
     * (a season row deletes its whole show). The series list Sonarr returns
     * and whether each DELETE succeeds are inputs.
     */
    method DeleteSelected(seriesList: Option<seq<ArrLookup.Item>>, deleteOk: Show -> bool)
      returns (outcome: DeleteOutcome)
      modifies this
      ensures old(selectedRows) == {} ==> outcome == NoShowsChosen && selectedRows == old(selectedRows)
      ensures old(selectedRows) != {} && sonarr == null ==> outcome == NoSonarrClient && selectedRows == old(selectedRows)
      ensures old(selectedRows) != {} && sonarr != null && ShowsAt(old(selectedRows), rowToShow) == {} ==>
                outcome == NoWholeShows && selectedRows == old(selectedRows)
      ensures old(selectedRows) != {} && sonarr != null && ShowsAt(old(selectedRows), rowToShow) != {} ==>
                && outcome.Deleted?
                && (forall s :: s in outcome.shows <==> s in ShowsAt(old(selectedRows), rowToShow))
                && Distinct(outcome.shows)
                && outcome.results == DeleteResults(outcome.shows, seriesList, deleteOk)
                && outcome.requests == DeleteRequests(outcome.shows, seriesList)
                && selectedRows == {}
      ensures rowToShow == old(rowToShow) && viewMode == old(viewMode) && rows == old(rows)
    {
      if selectedRows == {} {
        return NoShowsChosen;
      }
      if sonarr == null {
        return NoSonarrClient;
      }
      var selectedShows := DistinctShows(selectedRows, rowToShow);
      if selectedShows == [] {
        assert forall s :: s !in ShowsAt(selectedRows, rowToShow);
        return NoWholeShows;
      }
      assert selectedShows[0] in ShowsAt(selectedRows, rowToShow);
      var results, requests := DeleteAll(sonarr, selectedShows, seriesList, deleteOk);
      selectedRows := {};
      return Deleted(selectedShows, results, requests);
    }

    /**
     * The file collection of the re-encode: every truthy `part.file` of the
     * episodes behind each selected row (the whole show in show view or for
     * specials, the numbered season otherwise), rows visited in the set's
     * iteration order `order`.
     */
    method GenerateReencode() returns (outcome: ReencodeOutcome, ghost order: seq<RowKey>)
      ensures selectedRows == {} ==> outcome == NoItemsChosen
      ensures selectedRows != {} ==>
                IsOrderOf(order, selectedRows)
                && var files := FilesFor(order, rowToShow, viewMode);
                   outcome == if files == [] then NoFilePaths else Script(files)
    {
      order := [];
      if selectedRows == {} {
        return NoItemsChosen, order;
      }
      var filePaths;
      filePaths, order := CollectRowFiles(selectedRows, rowToShow, viewMode);
      if filePaths == [] {
        return NoFilePaths, order;
      }
      return Script(filePaths), order;
    }
  }
}
