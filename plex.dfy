/**
 * The media server's catalogue as plain values: sections of shows or movies,
 * seasons, episodes and their media -> part -> file/size records.
 *
 * `Part.file` and `Part.size` are None when the part object has no such
 * attribute (what `hasattr` probes); `isWatched` is None when the flag holds
 * Python's None.
 */
module Plex {

  import opened Wrappers
  import opened Folds

  datatype Part = Part(file: Option<string>, size: Option<int>)
  datatype Media = Media(parts: seq<Part>)
  datatype Episode = Episode(title: string, seasonNumber: Option<int>, episodeNumber: Option<int>,
                             isWatched: Option<bool>, media: seq<Media>)
  datatype Season = Season(seasonNumber: Option<int>, episodes: seq<Episode>)
  datatype Show = Show(title: string, year: Option<int>, episodes: seq<Episode>, seasons: seq<Season>)
  datatype Movie = Movie(title: string, year: Option<int>, isWatched: Option<bool>,
                         duration: Option<int>, media: seq<Media>)
  /** `kind` is the section's type tag ("show", "movie", ...); `shows` or `movies` is what `section.all()` returns. */
  datatype Section = Section(title: string, kind: string, shows: seq<Show>, movies: seq<Movie>)

  /** `x.isWatched is False`: only an explicit False counts as unwatched. */
  predicate IsUnwatched(flag: Option<bool>) {
    flag == Some(false)
  }

  /** Python truthiness of the flag: only an explicit True. */
  predicate IsTruthy(flag: Option<bool>) {
    flag == Some(true)
  }

  /** `sum(part.size for part in parts if hasattr(part, "size"))`. */
  function PartsSize(parts: seq<Part>): int {
    if parts == [] then 0
    else PartsSize(parts[..|parts| - 1]) + parts[|parts| - 1].size.GetOr(0)
  }

  /** `sum(part.size for media in media for part in media.parts if hasattr(part, "size"))`. */
  function MediaSize(media: seq<Media>): int {
    if media == [] then 0
    else MediaSize(media[..|media| - 1]) + PartsSize(media[|media| - 1].parts)
  }

  function MediumParts(m: Media): seq<Part> {
    m.parts
  }

  /** The sum over a concatenation of parts is the sum of the two sums. */
  lemma {:induction false} PartsSizeAppend(a: seq<Part>, b: seq<Part>)
    ensures PartsSize(a + b) == PartsSize(a) + PartsSize(b)
    decreases |b|
  {
    if b == [] {
      assert a + b == a;
    } else {
      var init := b[..|b| - 1];
      assert (a + b)[..|a + b| - 1] == a + init;
      assert (a + b)[|a + b| - 1] == b[|b| - 1];
      PartsSizeAppend(a, init);
    }
  }

  /** The nested sum over media and their parts equals the sum over every part, media by media. */
  lemma {:induction false} MediaSizeAllParts(media: seq<Media>)
    ensures MediaSize(media) == PartsSize(Flatten(media, MediumParts))
  {
    if media != [] {
      var init, last := media[..|media| - 1], media[|media| - 1];
      MediaSizeAllParts(init);
      assert media == init + [last];
      FlattenStep(init, last, MediumParts);
      PartsSizeAppend(Flatten(init, MediumParts), last.parts);
    }
  }

  /** Python truthiness of `part.file`: the attribute exists and is a non-empty string. */
  predicate HasFile(p: Part) {
    p.file.Some? && p.file.value != ""
  }

  /** `[part.file]` when the part has a truthy file, else nothing. */
  function PartFile(p: Part): (r: seq<string>)
    ensures forall f :: f in r <==> HasFile(p) && p.file.value == f
  {
    if HasFile(p) then [p.file.value] else []
  }

  /** The truthy `part.file` values of `parts`, in order. */
  function PartsFiles(parts: seq<Part>): seq<string> {
    Flatten(parts, PartFile)
  }

  function MediumFiles(m: Media): seq<string> {
    PartsFiles(m.parts)
  }

  /** The truthy `part.file` values, media by media and part by part. */
  function MediaFiles(media: seq<Media>): seq<string> {
    Flatten(media, MediumFiles)
  }

  lemma PartsFilesMembership(parts: seq<Part>, f: string)
    ensures f in PartsFiles(parts) <==> exists j :: 0 <= j < |parts| && HasFile(parts[j]) && parts[j].file.value == f
  {
    FlattenMembership(parts, PartFile, f);
  }

  /** A file is collected exactly when some part of some media holds it as a non-empty `file`. */
  lemma MediaFilesMembership(media: seq<Media>, f: string)
    ensures f in MediaFiles(media) <==>
            exists i, j :: 0 <= i < |media| && 0 <= j < |media[i].parts|
                           && HasFile(media[i].parts[j]) && media[i].parts[j].file.value == f
  {
    FlattenMembership(media, MediumFiles, f);
    forall i | 0 <= i < |media| {
      PartsFilesMembership(media[i].parts, f);
    }
  }

  /** The loops `for media in ...: for part in media.parts: if part.file: file_paths.append(part.file)`. */
  method CollectFiles(media: seq<Media>) returns (files: seq<string>)
    ensures files == MediaFiles(media)
  {
    files := [];
    for i := 0 to |media|
      invariant files == MediaFiles(media[..i])
    {
      assert media[..i + 1] == media[..i] + [media[i]];
      FlattenStep(media[..i], media[i], MediumFiles);
      var parts := media[i].parts;
      ghost var before := files;
      for j := 0 to |parts|
        invariant files == before + PartsFiles(parts[..j])
      {
        assert parts[..j + 1] == parts[..j] + [parts[j]];
        FlattenStep(parts[..j], parts[j], PartFile);
        if parts[j].file.Some? && parts[j].file.value != "" {
          files := files + [parts[j].file.value];
        }
      }
      assert parts[..|parts|] == parts;
    }
    assert media[..|media|] == media;
  }
}
