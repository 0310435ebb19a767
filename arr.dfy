/**
 * The title lookup and delete request shared, line for line, by the Sonarr
 * client (plex_sync/sonarr.py) and the Radarr client (plex_sync/radarr.py).
 * The list the service returned is an input.
 */
module ArrLookup {

  import opened Wrappers
  import Text

  datatype AltTitle = AltTitle(title: Option<string>)

  /** One object of the service's list; an absent key is None (or an empty list). */
  datatype Item = Item(id: int, title: Option<string>, year: Option<int>, alternateTitles: seq<AltTitle>)

  /** `s.lower().strip()`. */
  function Normalize(s: string): string {
    Text.Strip(Text.Lower(s))
  }

  /*
   * The matching below is written for any normalisation `norm`; the two
   * clients use Normalize.
   */

  /** `item.get('title', '').lower().strip() == search`. */
  predicate PrimaryMatch(item: Item, search: string, norm: string -> string) {
    norm(item.title.GetOr("")) == search
  }

  predicate AltMatches(a: AltTitle, search: string, norm: string -> string) {
    norm(a.title.GetOr("")) == search
  }

  predicate AltMatch(item: Item, search: string, norm: string -> string) {
    exists k :: 0 <= k < |item.alternateTitles| && AltMatches(item.alternateTitles[k], search, norm)
  }

  /** Python truthiness of the year argument: given, and not 0. */
  predicate YearGiven(year: Option<int>) {
    year.Some? && year.value != 0
  }

  predicate YearOk(item: Item, year: Option<int>) {
    !YearGiven(year) || item.year == year
  }

  /** What the first pass accepts: the primary or an alternate title matches, and the year when one is given. */
  predicate Hit(item: Item, search: string, year: Option<int>, norm: string -> string) {
    (PrimaryMatch(item, search, norm) || AltMatch(item, search, norm)) && YearOk(item, year)
  }

  function FirstHit(items: seq<Item>, search: string, year: Option<int>, norm: string -> string): Option<Item> {
    if items == [] then None
    else if Hit(items[0], search, year, norm) then Some(items[0])
    else FirstHit(items[1..], search, year, norm)
  }

  function FirstPrimary(items: seq<Item>, search: string, norm: string -> string): Option<Item> {
    if items == [] then None
    else if PrimaryMatch(items[0], search, norm) then Some(items[0])
    else FirstPrimary(items[1..], search, norm)
  }

  /**
   * The reference rule: nothing for a missing or empty list; otherwise the
   * first item the first pass accepts; failing that, and only when a year
   * was given, the first item whose primary title matches.
   */
  function LookupBy(fetched: Option<seq<Item>>, title: string, year: Option<int>, norm: string -> string): Option<Item> {
    if fetched.None? || fetched.value == [] then None
    else
      var search := norm(title);
      var hit := FirstHit(fetched.value, search, year, norm);
      if hit.Some? then hit
      else if YearGiven(year) then FirstPrimary(fetched.value, search, norm)
      else None
  }

  /** The rule with the clients' normalisation. */
  function Lookup(fetched: Option<seq<Item>>, title: string, year: Option<int>): Option<Item> {
    LookupBy(fetched, title, year, Normalize)
  }

  lemma {:induction false} FirstHitSkips(items: seq<Item>, search: string, year: Option<int>, norm: string -> string, i: nat)
    requires i <= |items|
    requires forall j :: 0 <= j < i ==> !Hit(items[j], search, year, norm)
    ensures FirstHit(items, search, year, norm) == FirstHit(items[i..], search, year, norm)
  {
    if i > 0 {
      FirstHitSkips(items[1..], search, year, norm, i - 1);
      assert items[1..][i - 1..] == items[i..];
    }
  }

  lemma {:induction false} FirstPrimarySkips(items: seq<Item>, search: string, norm: string -> string, i: nat)
    requires i <= |items|
    requires forall j :: 0 <= j < i ==> !PrimaryMatch(items[j], search, norm)
    ensures FirstPrimary(items, search, norm) == FirstPrimary(items[i..], search, norm)
  {
    if i > 0 {
      FirstPrimarySkips(items[1..], search, norm, i - 1);
      assert items[1..][i - 1..] == items[i..];
    }
  }

  /** The nested search with early returns of `find_series_by_title` and `find_movie_by_title`. */
  method FindByTitleWith(fetched: Option<seq<Item>>, title: string, year: Option<int>, norm: string -> string)
    returns (r: Option<Item>)
    ensures r == LookupBy(fetched, title, year, norm)
  {
    if fetched.None? || fetched.value == [] {
      return None;
    }
    var items := fetched.value;
    var search := norm(title);
    for i := 0 to |items|
      invariant forall j :: 0 <= j < i ==> !Hit(items[j], search, year, norm)
    {
      var item := items[i];
      if norm(item.title.GetOr("")) == search {
        if YearGiven(year) {
          if item.year == year {
            FirstHitSkips(items, search, year, norm, i);
            return Some(item);
          }
        } else {
          FirstHitSkips(items, search, year, norm, i);
          return Some(item);
        }
      }
      var alternatives := item.alternateTitles;
      for k := 0 to |alternatives|
        invariant forall m :: 0 <= m < k ==> !(AltMatches(alternatives[m], search, norm) && YearOk(item, year))
      {
        if norm(alternatives[k].title.GetOr("")) == search {
          if YearGiven(year) {
            if item.year == year {
              FirstHitSkips(items, search, year, norm, i);
              return Some(item);
            }
          } else {
            FirstHitSkips(items, search, year, norm, i);
            return Some(item);
          }
        }
      }
    }
    FirstHitSkips(items, search, year, norm, |items|);
    if YearGiven(year) {
      for i := 0 to |items|
        invariant forall j :: 0 <= j < i ==> !PrimaryMatch(items[j], search, norm)
      {
        if norm(items[i].title.GetOr("")) == search {
          FirstPrimarySkips(items, search, norm, i);
          return Some(items[i]);
        }
      }
      FirstPrimarySkips(items, search, norm, |items|);
    }
    return None;
  }

  /** The search as the clients run it, with `lower().strip()`. */
  method FindByTitle(fetched: Option<seq<Item>>, title: string, year: Option<int>) returns (r: Option<Item>)
    ensures r == Lookup(fetched, title, year)
  {
    r := FindByTitleWith(fetched, title, year, Normalize);
  }

  /** FirstHit finds the earliest accepted item, and nothing only when no item is accepted. */
  lemma {:induction false} FirstHitIsFirst(items: seq<Item>, search: string, year: Option<int>, norm: string -> string)
    ensures var h := FirstHit(items, search, year, norm);
            (h.Some? ==> exists i :: 0 <= i < |items| && items[i] == h.value && Hit(items[i], search, year, norm)
                                     && forall j :: 0 <= j < i ==> !Hit(items[j], search, year, norm))
            && (h.None? <==> forall i :: 0 <= i < |items| ==> !Hit(items[i], search, year, norm))
  {
    if items != [] {
      FirstHitIsFirst(items[1..], search, year, norm);
      var h := FirstHit(items[1..], search, year, norm);
      if !Hit(items[0], search, year, norm) && h.Some? {
        var i :| 0 <= i < |items[1..]| && items[1..][i] == h.value && Hit(items[1..][i], search, year, norm)
                 && forall j :: 0 <= j < i ==> !Hit(items[1..][j], search, year, norm);
        assert items[i + 1] == h.value;
        forall j | 0 <= j < i + 1 ensures !Hit(items[j], search, year, norm) {
          if j > 0 { assert items[j] == items[1..][j - 1]; }
        }
      }
      if !Hit(items[0], search, year, norm) && h.None? {
        forall i | 0 <= i < |items| ensures !Hit(items[i], search, year, norm) {
          if i > 0 { assert items[i] == items[1..][i - 1]; }
        }
      }
    }
  }

  lemma {:induction false} FirstPrimaryIsFirst(items: seq<Item>, search: string, norm: string -> string)
    ensures var p := FirstPrimary(items, search, norm);
            (p.Some? ==> exists i :: 0 <= i < |items| && items[i] == p.value && PrimaryMatch(items[i], search, norm)
                                     && forall j :: 0 <= j < i ==> !PrimaryMatch(items[j], search, norm))
            && (p.None? <==> forall i :: 0 <= i < |items| ==> !PrimaryMatch(items[i], search, norm))
  {
    if items != [] {
      FirstPrimaryIsFirst(items[1..], search, norm);
      var p := FirstPrimary(items[1..], search, norm);
      if !PrimaryMatch(items[0], search, norm) && p.Some? {
        var i :| 0 <= i < |items[1..]| && items[1..][i] == p.value && PrimaryMatch(items[1..][i], search, norm)
                 && forall j :: 0 <= j < i ==> !PrimaryMatch(items[1..][j], search, norm);
        assert items[i + 1] == p.value;
        forall j | 0 <= j < i + 1 ensures !PrimaryMatch(items[j], search, norm) {
          if j > 0 { assert items[j] == items[1..][j - 1]; }
        }
      }
      if !PrimaryMatch(items[0], search, norm) && p.None? {
        forall i | 0 <= i < |items| ensures !PrimaryMatch(items[i], search, norm) {
          if i > 0 { assert items[i] == items[1..][i - 1]; }
        }
      }
    }
  }

  /** Any item found is an element of the list the service returned; a missing or empty list finds nothing. */
  lemma LookupInList(fetched: Option<seq<Item>>, title: string, year: Option<int>, norm: string -> string)
    ensures fetched.None? || fetched.value == [] ==> LookupBy(fetched, title, year, norm).None?
    ensures LookupBy(fetched, title, year, norm).Some? ==>
              fetched.Some? && LookupBy(fetched, title, year, norm).value in fetched.value
  {
    if fetched.Some? && fetched.value != [] {
      FirstHitIsFirst(fetched.value, norm(title), year, norm);
      FirstPrimaryIsFirst(fetched.value, norm(title), norm);
    }
  }

  /**
   * Without a year (or with year 0): the first item, in list order, whose
   * primary title or any alternate title matches.
   */
  lemma LookupWithoutYear(items: seq<Item>, title: string, year: Option<int>, norm: string -> string)
    requires !YearGiven(year)
    ensures var r := LookupBy(Some(items), title, year, norm);
            var search := norm(title);
            (r.None? <==> forall i :: 0 <= i < |items| ==> !PrimaryMatch(items[i], search, norm) && !AltMatch(items[i], search, norm))
            && (r.Some? ==> exists i :: 0 <= i < |items| && items[i] == r.value
                                        && (PrimaryMatch(items[i], search, norm) || AltMatch(items[i], search, norm))
                                        && forall j :: 0 <= j < i ==> !PrimaryMatch(items[j], search, norm) && !AltMatch(items[j], search, norm))
  {
    FirstHitIsFirst(items, norm(title), year, norm);
  }

  /** With a year, an item accepted by the first pass has exactly that year. */
  lemma LookupYearHit(items: seq<Item>, title: string, year: Option<int>, norm: string -> string)
    requires YearGiven(year)
    requires exists i :: 0 <= i < |items| && Hit(items[i], norm(title), year, norm)
    ensures LookupBy(Some(items), title, year, norm).Some? && LookupBy(Some(items), title, year, norm).value.year == year
  {
    FirstHitIsFirst(items, norm(title), year, norm);
  }

  /**
   * With a year and no first-pass hit: the first item whose primary title
   * matches, whatever its year; alternate titles are not consulted.
   */
  lemma LookupYearFallback(items: seq<Item>, title: string, year: Option<int>, norm: string -> string)
    requires YearGiven(year)
    requires forall i :: 0 <= i < |items| ==> !Hit(items[i], norm(title), year, norm)
    ensures var r := LookupBy(Some(items), title, year, norm);
            var search := norm(title);
            (r.None? <==> forall i :: 0 <= i < |items| ==> !PrimaryMatch(items[i], search, norm))
            && (r.Some? ==> exists i :: 0 <= i < |items| && items[i] == r.value && PrimaryMatch(items[i], search, norm)
                                        && r.value.year != year
                                        && forall j :: 0 <= j < i ==> !PrimaryMatch(items[j], search, norm))
  {
    FirstHitIsFirst(items, norm(title), year, norm);
    FirstPrimaryIsFirst(items, norm(title), norm);
  }

  /** A boolean sent as a query value: the strings 'true' and 'false'. */
  function Flag(b: bool): (r: string)
    ensures r == "true" <==> b
    ensures r == "false" <==> !b
  {
    if b then "true" else "false"
  }

  /** The DELETE request issued: the endpoint below `/api/v3/` and the query parameters, in order. */
  datatype DeleteRequest = DeleteRequest(endpoint: string, params: seq<(string, string)>)

  /** `_delete(f"{resource}/{id}", params={'deleteFiles': ..., exclusionKey: ...})`. */
  function DeleteRequestFor(resource: string, id: int, deleteFiles: bool, exclusionKey: string, addExclusion: bool)
    : (r: DeleteRequest)
    ensures r.endpoint == resource + "/" + Text.IntToString(id)
    ensures |r.params| == 2 && r.params[0].0 == "deleteFiles" && r.params[1].0 == exclusionKey
    ensures (r.params[0].1 == "true") == deleteFiles && (r.params[1].1 == "true") == addExclusion
  {
    DeleteRequest(resource + "/" + Text.IntToString(id), [("deleteFiles", Flag(deleteFiles)), (exclusionKey, Flag(addExclusion))])
  }
}
