/** One small document followed event by event through the converter. */
module Walkthrough {
  import opened Wrappers
  import opened Numeric
  import opened Derive
  import opened Events
  import opened Releases
  import opened Engine

  /** A leaf element holding one text. */
  function Leaf(name: string, text: string): seq<Event> {
    [Start(name, []), Text(text), End(name)]
  }

  /** An element without attributes around the events `inner`. */
  function Element(name: string, inner: seq<Event>): seq<Event> {
    [Start(name, [])] + inner + [End(name)]
  }

  const Opening: seq<Event> := [Start("releases", []), Start("release", [Attribute("status", "Accepted"), Attribute("id", "7")])]
  const AlbumTitle: seq<Event> := Leaf("title", "Album")
  const ArtistName: seq<Event> := Element("artists", Element("artist", Leaf("name", "Band")))
  const Tracklist: seq<Event> := Element("tracklist", Element("track", Leaf("title", "Song") + Leaf("duration", "3:45")))
  const Closing: seq<Event> := [End("release"), End("releases")]

  const Document := Opening + AlbumTitle + ArtistName + Tracklist + Closing

  const ReleaseScope: seq<string> := ["releases", "release"]
  const TrackScope: seq<string> := ["releases", "release", "tracklist", "track"]

  /** A leaf element other than `release` records its text at its own path and closes back to where it opened. */
  lemma LeafRun(scope: seq<string>, r: Release, rows: seq<Row>, name: string, text: string)
    requires name != ReleaseTag
    ensures Process(State(scope, r, rows), Leaf(name, text))
            == (State(scope, Captured(r, scope + [name], text), rows), Continue)
  {
    var c := Captured(r, scope + [name], text);
    assert (scope + [name])[..|scope|] == scope;
    ProcessTrace([State(scope, r, rows), State(scope + [name], r, rows), State(scope + [name], c, rows),
                  State(scope, c, rows)], Leaf(name, text));
  }

  /**
   * An element other than `release` around a run that ends normally inside it
   * has that run's effect on the record and returns to the scope it opened in.
   */
  lemma ElementRun(scope: seq<string>, r: Release, rows: seq<Row>, name: string, inner: seq<Event>, r': Release)
    requires name != ReleaseTag
    requires Process(State(scope + [name], r, rows), inner) == (State(scope + [name], r', rows), Continue)
    ensures Process(State(scope, r, rows), Element(name, inner)) == (State(scope, r', rows), Continue)
  {
    var s0 := State(scope, r, rows);
    ProcessTrace([s0, State(scope + [name], r, rows)], [Start(name, [])]);
    ProcessConcat(s0, [Start(name, [])], inner);
    assert (scope + [name])[..|scope|] == scope;
    ProcessTrace([State(scope + [name], r', rows), State(scope, r', rows)], [End(name)]);
    ProcessConcat(s0, [Start(name, [])] + inner, [End(name)]);
  }

  lemma OpeningRun()
    ensures Process(Initial, Opening) == (State(ReleaseScope, EmptyRelease.(id := Some("7")), [Header]), Continue)
  {
    var attributes := [Attribute("status", "Accepted"), Attribute("id", "7")];
    assert attributes[1..] == [Attribute("id", "7")];
    assert Lookup(attributes, IdAttribute) == Some("7");
    var s1 := State(["releases"], EmptyRelease, [Header]);
    assert Opening[0] == Start("releases", []);
    assert "releases" != ReleaseTag;
    assert ScopeStep([], Start("releases", [])) == ["releases"];
    assert Next(Initial, Start("releases", [])) == Ok(s1);
    assert Next(Initial, Opening[0]) == Ok(s1);
    assert Opening[1] == Start(ReleaseTag, attributes);
    assert ScopeStep(["releases"], Start(ReleaseTag, attributes)) == ReleaseScope;
    assert Next(s1, Opening[1]) == Ok(State(ReleaseScope, EmptyRelease.(id := Some("7")), [Header]));
    assert Opening[1..] == [Opening[1]] && Opening[1..][1..] == [];
  }

  lemma AlbumRun(r: Release)
    ensures Process(State(ReleaseScope, r, [Header]), AlbumTitle)
            == (State(ReleaseScope, r.(album := Some("Album")), [Header]), Continue)
  {
    LeafRun(ReleaseScope, r, [Header], "title", "Album");
    assert ReleaseScope + ["title"] == AlbumPath;
    CapturedScalars(r, AlbumPath, "Album");
  }

  lemma ArtistRun(r: Release)
    ensures Process(State(ReleaseScope, r, [Header]), ArtistName)
            == (State(ReleaseScope, r.(artist := Some("Band")), [Header]), Continue)
  {
    var r' := r.(artist := Some("Band"));
    var artists := ReleaseScope + ["artists"];
    var artist := artists + ["artist"];
    LeafRun(artist, r, [Header], "name", "Band");
    assert artist + ["name"] == ArtistPath;
    CapturedScalars(r, ArtistPath, "Band");
    ElementRun(artists, r, [Header], "artist", Leaf("name", "Band"), r');
    ElementRun(ReleaseScope, r, [Header], "artists", Element("artist", Leaf("name", "Band")), r');
  }

  lemma TracklistRun(r: Release)
    requires r.songs == []
    ensures Process(State(ReleaseScope, r, [Header]), Tracklist)
            == (State(ReleaseScope, r.(songs := [Song("Song", Some("3:45"))]), [Header]), Continue)
  {
    var titled := r.(songs := [Song("Song", None)]);
    var timed := r.(songs := [Song("Song", Some("3:45"))]);
    var tracklist := ReleaseScope + ["tracklist"];
    assert tracklist + ["track"] == TrackScope;
    LeafRun(TrackScope, r, [Header], "title", "Song");
    assert TrackScope + ["title"] == TrackTitlePath;
    CapturedTrackTitle(r, "Song");
    assert r.songs + [Song("Song", None)] == [Song("Song", None)];
    LeafRun(TrackScope, titled, [Header], "duration", "3:45");
    assert TrackScope + ["duration"] == TrackDurationPath;
    assert Captured(titled, TrackDurationPath, "3:45") == timed by {
      CapturedTrackDuration(titled, "3:45");
      var c := Captured(titled, TrackDurationPath, "3:45");
      assert |c.songs| == 1 && c.songs[0] == Song("Song", Some("3:45"));
      assert c.songs == [Song("Song", Some("3:45"))];
    }
    ProcessConcat(State(TrackScope, r, [Header]), Leaf("title", "Song"), Leaf("duration", "3:45"));
    ElementRun(tracklist, r, [Header], "track", Leaf("title", "Song") + Leaf("duration", "3:45"), timed);
    ElementRun(ReleaseScope, r, [Header], "tracklist", Element("track", Leaf("title", "Song") + Leaf("duration", "3:45")), timed);
  }

  const Finished := EmptyRelease.(id := Some("7"), album := Some("Album"), artist := Some("Band"),
                                  songs := [Song("Song", Some("3:45"))])

  const SongRow700: Row := ["700", "Song", "Album", "Band", "", "", "", "3:45", "", "3.45"]

  /** The finished release expands to its one row. */
  lemma FinishedRows()
    ensures Expand(Finished) == Ok([SongRow700])
  {
    assert ParseUnsigned("7", UsizeMax) == Some(7) by {
      assert "7"[..0] == "";
    }
    assert NatToString(700) == "700" by {
      assert NatToString(70) == "70";
    }
    DurationFloatMinutesSeconds();
    assert SongRow(Finished, 7, 0, None) == SongRow700;
    assert Expand(Finished).Ok?;
    var rows := Expand(Finished).value;
    assert |rows| == 1 && rows[0] == SongRow(Finished, 7, 0, None);
    assert rows == [SongRow700];
  }

  /** Closing a `release` whose record expands to `written` appends those rows and leaves an empty record. */
  lemma ReleaseEndRun(scope: seq<string>, r: Release, rows: seq<Row>, written: seq<Row>)
    requires Expand(r) == Ok(written)
    ensures Process(State(scope + [ReleaseTag], r, rows), [End(ReleaseTag)])
            == (State(scope, EmptyRelease, rows + written), Continue)
  {
    assert (scope + [ReleaseTag])[..|scope|] == scope;
    ProcessTrace([State(scope + [ReleaseTag], r, rows), State(scope, EmptyRelease, rows + written)], [End(ReleaseTag)]);
  }

  lemma ClosingRun(r: Release)
    requires Expand(r) == Ok([SongRow700])
    ensures Process(State(ReleaseScope, r, [Header]), Closing)
            == (State([], EmptyRelease, [Header, SongRow700]), Continue)
  {
    var rows := [Header, SongRow700];
    assert ["releases"] + [ReleaseTag] == ReleaseScope;
    ReleaseEndRun(["releases"], r, [Header], [SongRow700]);
    assert [Header] + [SongRow700] == rows;
    assert ["releases"][..0] == [];
    ProcessTrace([State(["releases"], EmptyRelease, rows), State([], EmptyRelease, rows)], [End("releases")]);
    ProcessConcat(State(ReleaseScope, r, [Header]), [End(ReleaseTag)], [End("releases")]);
    assert Closing == [End(ReleaseTag)] + [End("releases")];
  }

  /**
   * A release with id 7, album, artist and one song with a duration gives the
   * header and exactly one row: id 700, empty optional columns, the duration
   * "3:45" and its derived "3.45".
   */
  lemma DocumentOutput()
    ensures Process(Initial, Document) == (State([], EmptyRelease, [Header, SongRow700]), Continue)
  {
    var r1 := EmptyRelease.(id := Some("7"));
    var r2 := r1.(album := Some("Album"));
    var r3 := r2.(artist := Some("Band"));
    OpeningRun();
    AlbumRun(r1);
    ProcessConcat(Initial, Opening, AlbumTitle);
    ArtistRun(r2);
    ProcessConcat(Initial, Opening + AlbumTitle, ArtistName);
    TracklistRun(r3);
    ProcessConcat(Initial, Opening + AlbumTitle + ArtistName, Tracklist);
    assert r3.(songs := [Song("Song", Some("3:45"))]) == Finished;
    FinishedRows();
    ClosingRun(Finished);
    ProcessConcat(Initial, Opening + AlbumTitle + ArtistName + Tracklist, Closing);
  }
}
