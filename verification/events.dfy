/**
 * The markup events the converter consumes, already decoded and unescaped,
 * and the scope tracker: the stack of open element names.
 */
module Events {
  import opened Wrappers

  datatype Attribute = Attribute(key: string, value: string)

  /**
   * One event from the reader. `Other` stands for everything the converter
   * ignores: self-closing (empty) elements, comments, CDATA, declarations,
   * processing instructions and doctypes.
   */
  datatype Event =
    | Start(name: string, attributes: seq<Attribute>)
    | End(name: string)
    | Text(text: string)
    | Other

  /** The value of the first attribute named `key`, as `attributes().find(..)` returns it. */
  function Lookup(attributes: seq<Attribute>, key: string): (r: Option<string>)
    ensures r.None? <==> forall i :: 0 <= i < |attributes| ==> attributes[i].key != key
    ensures r.Some? ==> exists i :: 0 <= i < |attributes| && attributes[i] == Attribute(key, r.value)
                                   && forall j :: 0 <= j < i ==> attributes[j].key != key
  {
    if attributes == [] then None
    else if attributes[0].key == key then Some(attributes[0].value)
    else
      var r := Lookup(attributes[1..], key);
      assert r.Some? ==> exists i :: 1 <= i < |attributes| && attributes[i] == Attribute(key, r.value)
                                     && forall j :: 0 <= j < i ==> attributes[j].key != key by {
        if r.Some? {
          var i :| 0 <= i < |attributes[1..]| && attributes[1..][i] == Attribute(key, r.value)
                   && forall j :: 0 <= j < i ==> attributes[1..][j].key != key;
          assert attributes[i + 1] == Attribute(key, r.value);
          assert forall j :: 0 <= j < i + 1 ==> attributes[j].key != key by {
            forall j | 0 <= j < i + 1 ensures attributes[j].key != key {
              if j > 0 { assert attributes[j] == attributes[1..][j - 1]; }
            }
          }
        }
      }
      r
  }

  /**
   * The scope after one event: a start tag always pushes its name; an end tag
   * pops only when the innermost open element has the closing name.
   */
  function ScopeStep(scope: seq<string>, e: Event): (r: seq<string>)
    ensures e.Start? ==> r == scope + [e.name]
    ensures e.End? ==> r == scope || r + [e.name] == scope
    ensures !e.Start? && !e.End? ==> r == scope
  {
    match e
    case Start(name, _) => scope + [name]
    case End(name) => if |scope| > 0 && scope[|scope| - 1] == name then scope[..|scope| - 1] else scope
    case _ => scope
  }

  /** The scope after a run of events. */
  function ScopeAfter(scope: seq<string>, events: seq<Event>): seq<string>
    decreases |events|
  {
    if events == [] then scope else ScopeAfter(ScopeStep(scope, events[0]), events[1..])
  }

  /** An end tag whose name is not the innermost open element leaves the scope alone. */
  lemma UnmatchedEndKeepsScope(scope: seq<string>, name: string)
    requires scope == [] || scope[|scope| - 1] != name
    ensures ScopeStep(scope, End(name)) == scope
  {
  }

  /** An end tag for the innermost open element removes exactly that element. */
  lemma MatchedEndPops(scope: seq<string>, name: string)
    requires scope != [] && scope[|scope| - 1] == name
    ensures ScopeStep(scope, End(name)) + [name] == scope
  {
  }

  /**
   * `events` closes the elements `open` (innermost last) and otherwise opens and
   * closes elements in properly nested pairs.
   */
  predicate WellNested(open: seq<string>, events: seq<Event>)
    decreases |events|
  {
    if events == [] then open == []
    else match events[0]
      case Start(name, _) => WellNested(open + [name], events[1..])
      case End(name) => open != [] && open[|open| - 1] == name && WellNested(open[..|open| - 1], events[1..])
      case _ => WellNested(open, events[1..])
  }

  /** Over well-nested input every end tag pops, and the scope comes back to where it began. */
  lemma {:induction false} WellNestedRestoresScope(scope: seq<string>, open: seq<string>, events: seq<Event>)
    requires WellNested(open, events)
    ensures ScopeAfter(scope + open, events) == scope
    decreases |events|
  {
    if events == [] {
      assert scope + open == scope;
    } else {
      match events[0]
      case Start(name, _) =>
        assert ScopeStep(scope + open, events[0]) == scope + (open + [name]);
        WellNestedRestoresScope(scope, open + [name], events[1..]);
      case End(name) =>
        var s := scope + open;
        assert s[..|s| - 1] == scope + open[..|open| - 1];
        WellNestedRestoresScope(scope, open[..|open| - 1], events[1..]);
      case Text(_) =>
        WellNestedRestoresScope(scope, open, events[1..]);
      case Other =>
        WellNestedRestoresScope(scope, open, events[1..]);
    }
  }
}
