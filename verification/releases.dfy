/**
 * The release record built up while a `<release>` element is read, the
 * element paths whose text fills it, and its expansion into one output row
 * per song.
 */
module Releases {
  import opened Wrappers
  import opened Numeric
  import opened Derive

  const ReleaseTag := "release"
  const IdAttribute := "id"

  /** Only the first this many songs of a release are written. */
  const MaxSongs: nat := 100
  /** A row's id is the release id times this, plus the song's index. */
  const IdStride: nat := 100

  const AlbumPath: seq<string> := ["releases", "release", "title"]
  const GenrePath: seq<string> := ["releases", "release", "genres", "genre"]
  const CountryPath: seq<string> := ["releases", "release", "country"]
  const ReleasedPath: seq<string> := ["releases", "release", "released"]
  const ArtistPath: seq<string> := ["releases", "release", "artists", "artist", "name"]
  const TrackTitlePath: seq<string> := ["releases", "release", "tracklist", "track", "title"]
  const TrackDurationPath: seq<string> := ["releases", "release", "tracklist", "track", "duration"]

  datatype Song = Song(title: string, duration: Option<string>)

  datatype Release = Release(
    id: Option<string>,
    album: Option<string>,
    artist: Option<string>,
    genre: Option<string>,
    country: Option<string>,
    released: Option<string>,
    songs: seq<Song>)

  /** `Release::default()` */
  const EmptyRelease := Release(None, None, None, None, None, None, [])

  type Row = seq<string>

  const Header: Row := ["id", "title", "album", "artist", "genre", "country", "released",
                        "duration", "released-timestamp", "duration-float"]

  /** What ends the run early. */
  datatype Error =
    | InvalidId(id: string)          // the release id is not a `usize`
    | InvalidDate(cause: DateError)  // the release date cannot become a timestamp

  datatype Outcome = Continue | Fatal(error: Error)

  predicate IsComplete(r: Release) {
    r.id.Some? && r.album.Some? && r.artist.Some?
  }

  /**
   * The record after a text event at path `scope`: each of the seven paths is
   * tested on its own. A track title appends a song without duration; a track
   * duration sets the duration of the last song, if there is one.
   */
  function Captured(r: Release, scope: seq<string>, text: string): (c: Release)
    ensures c.id == r.id
    ensures |c.songs| == |r.songs| + (if scope == TrackTitlePath then 1 else 0)
    ensures forall i :: 0 <= i < |r.songs| ==> c.songs[i].title == r.songs[i].title
  {
    var r := if scope == AlbumPath then r.(album := Some(text)) else r;
    var r := if scope == GenrePath then r.(genre := Some(text)) else r;
    var r := if scope == CountryPath then r.(country := Some(text)) else r;
    var r := if scope == ReleasedPath then r.(released := Some(text)) else r;
    var r := if scope == ArtistPath then r.(artist := Some(text)) else r;
    var r := if scope == TrackTitlePath then r.(songs := r.songs + [Song(text, None)]) else r;
    if scope == TrackDurationPath && r.songs != [] then
      var last := |r.songs| - 1;
      r.(songs := r.songs[last := r.songs[last].(duration := Some(text))])
    else r
  }

  function Min(a: nat, b: nat): nat {
    if a < b then a else b
  }

  /** The ten columns of the row for song `index` of a complete release whose id parsed as `id`. */
  function SongRow(r: Release, id: nat, index: nat, timestamp: Option<int>): (row: Row)
    requires IsComplete(r) && index < |r.songs|
    ensures |row| == |Header|
  {
    var song := r.songs[index];
    [ NatToString(id * IdStride + index),
      song.title,
      r.album.value,
      r.artist.value,
      r.genre.GetOr(""),
      r.country.GetOr(""),
      r.released.GetOr(""),
      song.duration.GetOr(""),
      if timestamp.Some? then IntToString(timestamp.value) else "",
      DurationFloat(song.duration).GetOr("") ]
  }

  /** The rows for the first `count` songs, in song order. */
  function SongRows(r: Release, id: nat, timestamp: Option<int>, count: nat): (rows: seq<Row>)
    requires IsComplete(r) && count <= |r.songs|
    ensures |rows| == count
    ensures forall i :: 0 <= i < count ==> rows[i] == SongRow(r, id, i, timestamp)
  {
    if count == 0 then [] else SongRows(r, id, timestamp, count - 1) + [SongRow(r, id, count - 1, timestamp)]
  }

  /**
   * The rows a finished release produces. An incomplete release produces none.
   * A complete one fails if its id is not a `usize`; otherwise each of its first
   * `MaxSongs` songs gives one row, and computing the release timestamp for the
   * first of them aborts the run if the date cannot be converted.
   */
  function Expand(r: Release): (result: Result<seq<Row>, Error>)
    ensures result.Ok? ==> |result.value| <= MaxSongs && |result.value| <= |r.songs|
    ensures result.Ok? && result.value != [] ==> IsComplete(r)
    ensures result.Err? ==> IsComplete(r)
  {
    if !IsComplete(r) then Ok([])
    else match ParseUnsigned(r.id.value, UsizeMax)
      case None => Err(InvalidId(r.id.value))
      case Some(id) =>
        if r.songs == [] then Ok([])
        else match ReleasedTimestamp(r.released)
          case Err(cause) => Err(InvalidDate(cause))
          case Ok(timestamp) =>
            Ok(SongRows(r, id, timestamp, Min(|r.songs|, MaxSongs)))
  }

  /**
   * A text event sets a scalar field exactly when the scope is that field's
   * path, to the text; the id never changes, and the songs change only on the
   * two track paths.
   */
  lemma CapturedScalars(r: Release, scope: seq<string>, text: string)
    ensures var c := Captured(r, scope, text);
      && c.id == r.id
      && c.album == (if scope == AlbumPath then Some(text) else r.album)
      && c.genre == (if scope == GenrePath then Some(text) else r.genre)
      && c.country == (if scope == CountryPath then Some(text) else r.country)
      && c.released == (if scope == ReleasedPath then Some(text) else r.released)
      && c.artist == (if scope == ArtistPath then Some(text) else r.artist)
      && (scope != TrackTitlePath && scope != TrackDurationPath ==> c.songs == r.songs)
  {
  }

  /** A track title appends one song `(title, None)` and touches nothing else. */
  lemma CapturedTrackTitle(r: Release, text: string)
    ensures Captured(r, TrackTitlePath, text) == r.(songs := r.songs + [Song(text, None)])
  {
  }

  /**
   * A track duration sets the duration of the last song and nothing else; with
   * no song yet it changes nothing.
   */
  lemma CapturedTrackDuration(r: Release, text: string)
    ensures var c := Captured(r, TrackDurationPath, text);
      && c.(songs := r.songs) == r
      && |c.songs| == |r.songs|
      && (r.songs == [] ==> c == r)
      && (r.songs != [] ==> c.songs[..|r.songs| - 1] == r.songs[..|r.songs| - 1]
                            && c.songs[|r.songs| - 1] == Song(r.songs[|r.songs| - 1].title, Some(text)))
  {
  }

  /** Of two texts at the same scalar path, the later one is kept. */
  lemma LastWriteWins(r: Release, scope: seq<string>, first: string, second: string)
    requires scope in {AlbumPath, GenrePath, CountryPath, ReleasedPath, ArtistPath}
    ensures Captured(Captured(r, scope, first), scope, second) == Captured(r, scope, second)
  {
  }

  /** A release without an id, an album or an artist is dropped silently. */
  lemma ExpandIncomplete(r: Release)
    requires !IsComplete(r)
    ensures Expand(r) == Ok([])
  {
  }

  /** A complete release whose id is not a `usize` aborts the run, even when it has no songs. */
  lemma ExpandInvalidId(r: Release)
    requires IsComplete(r) && ParseUnsigned(r.id.value, UsizeMax).None?
    ensures Expand(r) == Err(InvalidId(r.id.value))
  {
  }

  /** A complete release with songs and an unconvertible date aborts the run before writing a row. */
  lemma ExpandInvalidDate(r: Release)
    requires IsComplete(r) && ParseUnsigned(r.id.value, UsizeMax).Some? && r.songs != []
    requires ReleasedTimestamp(r.released).Err?
    ensures Expand(r) == Err(InvalidDate(ReleasedTimestamp(r.released).error))
  {
  }

  /**
   * Row i has ten columns: id `id * 100 + i`, the song's title, the release's
   * album, artist, genre, country and date (absent ones as ""), the song's
   * duration, the release timestamp and the song's derived duration.
   */
  lemma SongRowColumns(r: Release, id: nat, index: nat, timestamp: Option<int>)
    requires IsComplete(r) && index < |r.songs|
    ensures var row, song := SongRow(r, id, index, timestamp), r.songs[index];
      && |row| == |Header|
      && row[0] == NatToString(id * IdStride + index)
      && row[1] == song.title
      && row[2..7] == [r.album.value, r.artist.value, r.genre.GetOr(""), r.country.GetOr(""), r.released.GetOr("")]
      && row[7] == song.duration.GetOr("")
      && row[8] == (match timestamp case Some(t) => IntToString(t) case None => "")
      && row[9] == DurationFloat(song.duration).GetOr("")
  {
    var row := SongRow(r, id, index, timestamp);
    assert |row| == 10;
    assert row[2..7] == [row[2], row[3], row[4], row[5], row[6]];
  }

  /**
   * A complete release with id `id` and k songs gives min(k, 100) rows in song
   * order, row i being the row of song i under the release timestamp.
   */
  lemma ExpandRows(r: Release, id: nat)
    requires IsComplete(r) && ParseUnsigned(r.id.value, UsizeMax) == Some(id)
    requires r.songs == [] || ReleasedTimestamp(r.released).Ok?
    ensures Expand(r).Ok?
    ensures |Expand(r).value| == Min(|r.songs|, MaxSongs)
    ensures forall i :: 0 <= i < |Expand(r).value| ==>
      Expand(r).value[i] == SongRow(r, id, i, ReleasedTimestamp(r.released).value)
  {
  }

  /** Every row of a release has as many columns as the header. */
  lemma ExpandRowWidth(r: Release, rows: seq<Row>)
    requires Expand(r) == Ok(rows)
    ensures forall i :: 0 <= i < |rows| ==> |rows[i]| == |Header|
  {
  }

  /** The rows of one release carry pairwise distinct ids. */
  lemma ExpandIdsDistinct(r: Release, rows: seq<Row>)
    requires Expand(r) == Ok(rows)
    ensures forall i, j :: 0 <= i < j < |rows| ==> |rows[i]| == |rows[j]| == |Header| && rows[i][0] != rows[j][0]
  {
    if rows != [] {
      var id := ParseUnsigned(r.id.value, UsizeMax).value;
      forall i, j | 0 <= i < j < |rows|
        ensures |rows[i]| == |rows[j]| == |Header| && rows[i][0] != rows[j][0]
      {
        NatToStringInjective(id * IdStride + i, id * IdStride + j);
      }
    }
  }

  /**
   * Row ids never repeat across releases either: since at most `MaxSongs`
   * songs are written per release, two different (release id, song index)
   * pairs give two different id columns.
   */
  lemma RowIdsUnique(a: nat, i: nat, b: nat, j: nat)
    requires i < MaxSongs && j < MaxSongs && (a, i) != (b, j)
    ensures NatToString(a * IdStride + i) != NatToString(b * IdStride + j)
  {
    if a < b {
      assert a * IdStride + i < (a + 1) * IdStride <= b * IdStride;
    } else if b < a {
      assert b * IdStride + j < (b + 1) * IdStride <= a * IdStride;
    }
    NatToStringInjective(a * IdStride + i, b * IdStride + j);
  }
}
