/**
 * The Sonarr client (plex_sync/sonarr.py), which manages TV series. Every HTTP
 * exchange is an input: the list `GET series` returned (None when the request
 * failed), whether the DELETE succeeded, and the `system/status` answer.
 */
module Sonarr {

  import opened Wrappers
  import Text
  import Plex
  import ArrLookup

  /** The key of the query parameter that asks Sonarr to add an import exclusion. */
  const ExclusionKey := "addImportListExclusion"

  class SonarrClient {
    /** The server URL without trailing slashes. */
    const url: string
    const apiKey: string
    /** The headers every request of the session carries. */
    const headers: seq<(string, string)>

    constructor (url: string, apiKey: string)
      ensures this.url == Text.TrimTrailing(url, '/')
      ensures this.url == url[..|this.url|] && (this.url == [] || this.url[|this.url| - 1] != '/')
      ensures this.apiKey == apiKey
      ensures headers == [("X-Api-Key", apiKey), ("Content-Type", "application/json")]
    {
      this.url := Text.TrimTrailing(url, '/');
      this.apiKey := apiKey;
      headers := [("X-Api-Key", apiKey), ("Content-Type", "application/json")];
    }

    /** The first item matching the title (and the year when one is given), by ArrLookup.Lookup. */
    method FindSeriesByTitle(seriesList: Option<seq<ArrLookup.Item>>, title: string, year: Option<int>)
      returns (r: Option<ArrLookup.Item>)
      ensures r == ArrLookup.Lookup(seriesList, title, year)
    {
      r := ArrLookup.FindByTitle(seriesList, title, year);
    }

    /**
     * Looks the Plex show up by title and year; when found, issues the
     * DELETE request for its id and reports whether it succeeded. When not
     * found, nothing is requested and the answer is false.
     */
    method DeleteSeries(show: Plex.Show, seriesList: Option<seq<ArrLookup.Item>>, deleteFiles: bool, addExclusion: bool,
                        deleteSucceeded: bool)
      returns (success: bool, request: Option<ArrLookup.DeleteRequest>)
      ensures var found := ArrLookup.Lookup(seriesList, show.title, show.year);
              && (found.None? ==> !success && request.None?)
              && (found.Some? ==>
                    success == deleteSucceeded
                    && request == Some(ArrLookup.DeleteRequestFor("series", found.value.id, deleteFiles, ExclusionKey, addExclusion)))
    {
      var item := FindSeriesByTitle(seriesList, show.title, show.year);
      if item.None? {
        return false, None;
      }
      var req := ArrLookup.DeleteRequestFor("series", item.value.id, deleteFiles, ExclusionKey, addExclusion);
      return deleteSucceeded, Some(req);
    }

    /** Connected exactly when `system/status` answered with a non-empty object. */
    method TestConnection(status: Option<map<string, string>>) returns (connected: bool)
      ensures connected <==> status.Some? && status.value != map[]
    {
      if status.Some? && status.value != map[] {
        return true;
      }
      return false;
    }
  }
}
