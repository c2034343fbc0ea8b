/**
 * The converter's single pass over the event stream: the pure transition
 * relation (`Next`, `Process`) and the object that runs it (`Converter`),
 * which keeps the scope, the release in progress and the rows written so far.
 */
module Engine {
  import opened Wrappers
  import opened Numeric
  import opened Derive
  import opened Events
  import opened Releases

  datatype State = State(scope: seq<string>, release: Release, rows: seq<Row>)

  /** Before the first event: nothing open, an empty release, and the header written. */
  const Initial := State([], EmptyRelease, [Header])

  /**
   * One event. A start tag pushes its name and, for `release` at any depth,
   * starts a fresh record whose id is the first `id` attribute. An end tag
   * pops a matching scope and, for `release`, takes the record (leaving an
   * empty one) and appends its rows. A text event fills the record according
   * to the scope. Everything else is ignored.
   */
  function Next(st: State, e: Event): (r: Result<State, Error>)
    ensures r.Err? ==> e == End(ReleaseTag)
    ensures r.Ok? ==> st.rows <= r.value.rows
    ensures e.Other? ==> r == Ok(st)
  {
    var scope := ScopeStep(st.scope, e);
    match e
    case Start(name, attributes) =>
      var release := if name == ReleaseTag then EmptyRelease.(id := Lookup(attributes, IdAttribute)) else st.release;
      Ok(State(scope, release, st.rows))
    case End(name) =>
      if name != ReleaseTag then Ok(st.(scope := scope))
      else (match Expand(st.release)
        case Err(err) => Err(err)
        case Ok(rows) => Ok(State(scope, EmptyRelease, st.rows + rows)))
    case Text(text) => Ok(st.(release := Captured(st.release, st.scope, text)))
    case Other => Ok(st)
  }

  /**
   * The events in order, stopping at the first fatal error; the rows returned
   * with an error are those written before the failing event.
   */
  function Process(st: State, events: seq<Event>): (result: (State, Outcome))
    ensures result.1.Fatal? ==> exists i :: 0 <= i < |events| && events[i] == End(ReleaseTag)
    decreases |events|
  {
    if events == [] then (st, Continue)
    else match Next(st, events[0])
      case Err(err) => (st, Fatal(err))
      case Ok(st') =>
        var result := Process(st', events[1..]);
        assert result.1.Fatal? ==> exists i :: 0 <= i < |events| && events[i] == End(ReleaseTag) by {
          if result.1.Fatal? {
            var i :| 0 <= i < |events[1..]| && events[1..][i] == End(ReleaseTag);
            assert events[i + 1] == End(ReleaseTag);
          }
        }
        result
  }

  class Converter {
    var scope: seq<string>
    var release: Release
    var rows: seq<Row>

    function Snapshot(): State
      reads this
    {
      State(scope, release, rows)
    }

    /** An empty scope and record; the header is the first row written. */
    constructor ()
      ensures Snapshot() == Initial
    {
      scope := [];
      release := EmptyRelease;
      rows := [Header];
    }

    /** The end of a `release` element: take the record and write its rows. */
    method Flush() returns (outcome: Outcome)
      modifies this
      ensures scope == old(scope) && release == EmptyRelease
      ensures match Expand(old(release))
        case Ok(written) => outcome == Continue && rows == old(rows) + written
        case Err(err) => outcome == Fatal(err) && rows == old(rows)
    {
      var taken := release;
      release := EmptyRelease;
      outcome := Continue;
      if taken.id.Some? && taken.album.Some? && taken.artist.Some? {
        var parsed := ParseUnsigned(taken.id.value, UsizeMax);
        if parsed.None? {
          assert Expand(taken) == Err(InvalidId(taken.id.value));
          return Fatal(InvalidId(taken.id.value));
        }
        var id := parsed.value;
        var count := Min(|taken.songs|, MaxSongs);
        var i := 0;
        while i < count
          invariant 0 <= i <= count
          invariant scope == old(scope) && release == EmptyRelease
          invariant i > 0 ==> ReleasedTimestamp(taken.released).Ok?
          invariant i == 0 ==> rows == old(rows)
          invariant i > 0 ==> rows == old(rows) + SongRows(taken, id, ReleasedTimestamp(taken.released).value, i)
        {
          var timestamp := ReleasedTimestamp(taken.released);
          if timestamp.Err? {
            assert Expand(taken) == Err(InvalidDate(timestamp.error));
            return Fatal(InvalidDate(timestamp.error));
          }
          rows := rows + [SongRow(taken, id, i, timestamp.value)];
          i := i + 1;
        }
        if count == 0 {
          assert Expand(taken) == Ok([]) && old(rows) + [] == old(rows);
        } else {
          assert Expand(taken) == Ok(SongRows(taken, id, ReleasedTimestamp(taken.released).value, count));
        }
      } else {
        assert Expand(taken) == Ok([]) && old(rows) + [] == old(rows);
      }
    }

    /** A start tag, as `Next` describes it. */
    method StartTag(name: string, attributes: seq<Attribute>)
      modifies this
      ensures Next(old(Snapshot()), Start(name, attributes)) == Ok(Snapshot())
    {
      scope := scope + [name];
      if name == ReleaseTag {
        release := EmptyRelease;
        var id := Lookup(attributes, IdAttribute);
        if id.Some? {
          release := release.(id := id);
        }
      }
    }

    /** An end tag, as `Next` describes it; on a fatal error no row is added. */
    method EndTag(name: string) returns (outcome: Outcome)
      modifies this
      ensures match Next(old(Snapshot()), End(name))
        case Ok(st) => outcome == Continue && Snapshot() == st
        case Err(err) => outcome == Fatal(err) && rows == old(rows)
    {
      outcome := Continue;
      if |scope| > 0 && scope[|scope| - 1] == name {
        scope := scope[..|scope| - 1];
      }
      if name == ReleaseTag {
        outcome := Flush();
      }
    }

    /** A text event, as `Next` describes it. */
    method TextEvent(text: string)
      modifies this
      ensures Next(old(Snapshot()), Text(text)) == Ok(Snapshot())
    {
      if scope == AlbumPath {
        release := release.(album := Some(text));
      }
      if scope == GenrePath {
        release := release.(genre := Some(text));
      }
      if scope == CountryPath {
        release := release.(country := Some(text));
      }
      if scope == ReleasedPath {
        release := release.(released := Some(text));
      }
      if scope == ArtistPath {
        release := release.(artist := Some(text));
      }
      if scope == TrackTitlePath {
        release := release.(songs := release.songs + [Song(text, None)]);
      }
      if scope == TrackDurationPath && release.songs != [] {
        var last := |release.songs| - 1;
        release := release.(songs := release.songs[last := release.songs[last].(duration := Some(text))]);
      }
    }

    /** One event, as `Next` describes it; on a fatal error no row is added. */
    method Step(e: Event) returns (outcome: Outcome)
      modifies this
      ensures match Next(old(Snapshot()), e)
        case Ok(st) => outcome == Continue && Snapshot() == st
        case Err(err) => outcome == Fatal(err) && rows == old(rows)
    {
      outcome := Continue;
      match e
      case Start(name, attributes) =>
        StartTag(name, attributes);
      case End(name) =>
        outcome := EndTag(name);
      case Text(text) =>
        TextEvent(text);
      case Other =>
    }

    /** The whole stream, until it ends or an event is fatal. */
    method Run(events: seq<Event>) returns (outcome: Outcome)
      modifies this
      ensures Process(old(Snapshot()), events).1 == outcome
      ensures Process(old(Snapshot()), events).0.rows == rows
      ensures outcome == Continue ==> Process(old(Snapshot()), events).0 == Snapshot()
    {
      var i := 0;
      outcome := Continue;
      while i < |events|
        invariant 0 <= i <= |events|
        invariant outcome == Continue
        invariant Process(old(Snapshot()), events) == Process(Snapshot(), events[i..])
      {
        ghost var before := Snapshot();
        assert events[i..][0] == events[i] && events[i..][1..] == events[i + 1..];
        outcome := Step(events[i]);
        if outcome.Fatal? {
          assert Process(before, events[i..]) == (before, outcome);
          return;
        }
        i := i + 1;
      }
      assert events[i..] == [];
    }
  }

  /** The converter's output for a whole stream: the rows written and how the run ended. */
  method Convert(events: seq<Event>) returns (output: seq<Row>, outcome: Outcome)
    ensures (Process(Initial, events).0.rows, Process(Initial, events).1) == (output, outcome)
  {
    var converter := new Converter();
    outcome := converter.Run(events);
    output := converter.rows;
  }

  /**
   * A start tag pushes its name and writes nothing; a `release` start tag, at
   * any depth, replaces the record by an empty one holding the first `id`
   * attribute, if any.
   */
  lemma NextStart(st: State, name: string, attributes: seq<Attribute>)
    ensures Next(st, Start(name, attributes)).Ok?
    ensures var st' := Next(st, Start(name, attributes)).value;
      && st'.scope == st.scope + [name]
      && st'.rows == st.rows
      && st'.release == if name == ReleaseTag then EmptyRelease.(id := Lookup(attributes, IdAttribute)) else st.release
  {
  }

  /**
   * An end tag pops the scope exactly when its innermost element has the
   * closing name, and otherwise leaves it as it was; any end tag but
   * `release` changes nothing else.
   */
  lemma NextEnd(st: State, name: string)
    requires Next(st, End(name)).Ok?
    ensures var st' := Next(st, End(name)).value;
      && (st.scope != [] && st.scope[|st.scope| - 1] == name ==> st'.scope + [name] == st.scope)
      && (st.scope == [] || st.scope[|st.scope| - 1] != name ==> st'.scope == st.scope)
      && (name != ReleaseTag ==> st'.release == st.release && st'.rows == st.rows)
  {
  }

  /**
   * A `release` end tag always leaves an empty record behind; it appends the
   * record's rows, or is fatal exactly when expanding the record is.
   */
  lemma NextReleaseEnd(st: State)
    ensures Next(st, End(ReleaseTag)).Ok? <==> Expand(st.release).Ok?
    ensures Next(st, End(ReleaseTag)).Ok? ==>
      && Next(st, End(ReleaseTag)).value.release == EmptyRelease
      && Next(st, End(ReleaseTag)).value.rows == st.rows + Expand(st.release).value
    ensures !IsComplete(st.release) ==> Next(st, End(ReleaseTag)) == Ok(State(ScopeStep(st.scope, End(ReleaseTag)), EmptyRelease, st.rows))
  {
    if !IsComplete(st.release) {
      ExpandIncomplete(st.release);
      assert st.rows + [] == st.rows;
    }
  }

  /** A text event only fills the record, according to the scope it occurs in. */
  lemma NextText(st: State, text: string)
    ensures Next(st, Text(text)) == Ok(st.(release := Captured(st.release, st.scope, text)))
  {
  }

  /** The pass is a left fold: a stream split in two is the first part, then the second from where it stopped. */
  lemma {:induction false} ProcessConcat(st: State, first: seq<Event>, second: seq<Event>)
    ensures Process(st, first + second)
            == if Process(st, first).1 == Continue then Process(Process(st, first).0, second) else Process(st, first)
    decreases |first|
  {
    if first == [] {
      assert first + second == second;
    } else {
      assert (first + second)[0] == first[0] && (first + second)[1..] == first[1..] + second;
      match Next(st, first[0])
      case Err(_) =>
      case Ok(st') =>
        ProcessConcat(st', first[1..], second);
    }
  }

  /** A run with no fatal event ends in the state the successive steps reach. */
  lemma {:induction false} ProcessTrace(states: seq<State>, events: seq<Event>)
    requires |states| == |events| + 1
    requires forall i :: 0 <= i < |events| ==> Next(states[i], events[i]) == Ok(states[i + 1])
    ensures Process(states[0], events) == (states[|events|], Continue)
    decreases |events|
  {
    if events != [] {
      assert Next(states[0], events[0]) == Ok(states[1]);
      ProcessTrace(states[1..], events[1..]);
    }
  }

  /** Rows are only ever appended: the rows before a run are a prefix of the rows after it. */
  lemma {:induction false} ProcessAppendsRows(st: State, events: seq<Event>)
    ensures st.rows <= Process(st, events).0.rows
    decreases |events|
  {
    if events != [] {
      match Next(st, events[0])
      case Err(_) =>
      case Ok(st') =>
        ProcessAppendsRows(st', events[1..]);
    }
  }

  /** A run that ends normally leaves the scope the scope tracker alone computes. */
  lemma {:induction false} ProcessScope(st: State, events: seq<Event>)
    requires Process(st, events).1 == Continue
    ensures Process(st, events).0.scope == ScopeAfter(st.scope, events)
    decreases |events|
  {
    if events != [] {
      ProcessScope(Next(st, events[0]).value, events[1..]);
    }
  }

  /** If every row so far has the header's width, every row written later has it too. */
  lemma {:induction false} ProcessKeepsRowWidth(st: State, events: seq<Event>)
    requires forall i :: 0 <= i < |st.rows| ==> |st.rows[i]| == |Header|
    ensures var rows := Process(st, events).0.rows; forall i :: 0 <= i < |rows| ==> |rows[i]| == |Header|
    decreases |events|
  {
    if events != [] {
      match Next(st, events[0])
      case Err(_) =>
      case Ok(st') =>
        if events[0].End? && events[0].name == ReleaseTag {
          ExpandRowWidth(st.release, Expand(st.release).value);
        }
        assert forall i :: 0 <= i < |st'.rows| ==> |st'.rows[i]| == |Header|;
        ProcessKeepsRowWidth(st', events[1..]);
        assert Process(st, events) == Process(st', events[1..]);
    }
  }

  /** The output starts with the header, and every row has its ten columns. */
  lemma ConvertOutputShape(events: seq<Event>)
    ensures var rows := Process(Initial, events).0.rows;
      && rows != [] && rows[0] == Header
      && forall i :: 0 <= i < |rows| ==> |rows[i]| == |Header|
  {
    ProcessAppendsRows(Initial, events);
    ProcessKeepsRowWidth(Initial, events);
  }

  /** Well-nested input that ends normally returns the scope to empty. */
  lemma ConvertWellNestedScope(events: seq<Event>)
    requires WellNested([], events) && Process(Initial, events).1 == Continue
    ensures Process(Initial, events).0.scope == []
  {
    ProcessScope(Initial, events);
    WellNestedRestoresScope([], [], events);
  }
}
