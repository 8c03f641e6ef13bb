/** When a single test case of a flow passes. */
module TestCases {
  import opened Wrappers
  import opened DataTrees
  import opened DataDiff
  import opened DataDiffLaws

  datatype TestCase = TestCase(name: string, initial: Data, expected: Data)

  // How the flow run of a case ends: one of the three callbacks of its subscriber.
  datatype Outcome = Finished(data: Data) | Halted | Failed(message: string)

  datatype TestError =
    | ValueDiffers(name: string, path: Path, kind: Kind, expected: Option<Content>, actual: Option<Content>)
    | DataDiffers(name: string, wanted: Data, got: Data)
    | HaltedDuring(name: string)
    | ExceptionDuring(name: string, message: string)

  // Extra data is let go, and so is content with the expected text.
  predicate LetGo(text: Content -> string, e: Event) {
    || e.kind == ADDED
    || (e.previous.Some? && e.current.Some? && text(e.previous.value) == text(e.current.value))
  }

  function ErrorOf(text: Content -> string, name: string, e: Event): seq<TestError> {
    if LetGo(text, e) then [] else [ValueDiffers(name, e.path, e.kind, e.previous, e.current)]
  }

  function ErrorsFrom(text: Content -> string, name: string, events: seq<Event>): seq<TestError> {
    if events == [] then []
    else ErrorsFrom(text, name, events[..|events| - 1]) + ErrorOf(text, name, events[|events| - 1])
  }

  function WithData(errors: seq<TestError>, c: TestCase, data: Data): seq<TestError> {
    if errors == [] then [] else errors + [DataDiffers(c.name, c.expected, data)]
  }

  // The errors a case records for its outcome; the order of the differences is open.
  ghost predicate Recorded(text: Content -> string, c: TestCase, outcome: Outcome, errors: seq<TestError>) {
    match outcome
    case Halted => errors == [HaltedDuring(c.name)]
    case Failed(message) => errors == [ExceptionDuring(c.name, message)]
    case Finished(data) =>
      exists events :: Records([], c.expected, data, events)
          && errors == WithData(ErrorsFrom(text, c.name, events), c, data)
  }

  // The callback for a flow run that finished.
  method Ok(text: Content -> string, c: TestCase, data: Data) returns (testErrors: seq<TestError>)
    requires Valid(c.expected) && Valid(data)
    ensures Recorded(text, c, Finished(data), testErrors)
  {
    hide Records, LetGo;
    testErrors := [];
    var log := new EventLog();
    log.DiffContent([], c.expected, data);
    var events := log.events;
    assert events[0..] == events == events[..|events|];
    var diffCount := 0;
    for k := 0 to |events|
      invariant testErrors == ErrorsFrom(text, c.name, events[..k])
      invariant diffCount == |testErrors|
    {
      assert events[..k + 1][..k] == events[..k] && events[..k + 1][k] == events[k];
      var more := Visit(text, c.name, events[k]);
      testErrors, diffCount := testErrors + more, diffCount + |more|;
    }
    if diffCount > 0 {
      testErrors := testErrors + [DataDiffers(c.name, c.expected, data)];
    }
  }

  // The visitor of one difference.
  method Visit(text: Content -> string, name: string, e: Event) returns (testErrors: seq<TestError>)
    ensures testErrors == ErrorOf(text, name, e)
  {
    if e.kind == ADDED {
      return [];
    }
    if e.current.Some? && e.previous.Some? && text(e.current.value) == text(e.previous.value) {
      return [];
    }
    testErrors := [ValueDiffers(name, e.path, e.kind, e.previous, e.current)];
  }

  // What is expected somewhere is there, with the same text.
  ghost predicate AsExpected(text: Content -> string, expected: Data, data: Data) {
    forall p :: ContentAt(expected, p).Some? ==>
      ContentAt(data, p).Some? && text(ContentAt(data, p).value) == text(ContentAt(expected, p).value)
  }

  lemma {:induction false} NoErrorsFrom(text: Content -> string, name: string, events: seq<Event>)
    ensures ErrorsFrom(text, name, events) == [] <==> forall k :: 0 <= k < |events| ==> LetGo(text, events[k])
  {
    if events == [] {
    } else {
      var front := events[..|events| - 1];
      NoErrorsFrom(text, name, front);
      assert forall k | 0 <= k < |front| :: events[k] == front[k];
    }
  }

  // What the comparison sees of the expected side is its content, and then it also sees the content of the data.
  lemma {:induction false} ExpectedSeen(expected: Data, data: Data, q: Path)
    requires NoAddedHoles(data, expected)
    ensures Seen(expected, data, q).0 == ContentAt(expected, q)
    ensures ContentAt(expected, q).Some? ==> Seen(expected, data, q).1 == ContentAt(data, q)
    decreases |q|
  {
    if q == [] {
    } else {
      var e, r := q[0], q[1..];
      if !Has(expected, e) {
        ContentBelow(expected, q);
      }
      if !Has(data, e) {
        ContentBelow(data, q);
      }
      if Has(expected, e) && Has(data, e) {
        ExpectedSeen(At(expected, e), At(data, e), r);
      } else if Has(expected, e) {
        VisitsContent(At(expected, e), r);
      }
    }
  }

  // A hole in an element that only the expectation has is reported as removed null content.
  lemma {:induction false} ExpectedHole(expected: Data, data: Data) returns (q: Path)
    requires Valid(expected) && Valid(data) && !NoAddedHoles(data, expected)
    ensures Seen(expected, data, q) == (Some(NullContent), None)
    decreases expected
  {
    hide NoHoles, Visited;
    if e :| Has(expected, e) && !Has(data, e) && !NoHoles(At(expected, e)) {
      AtEntry(expected, Place(expected.entries, e));
      var r := HoleIsVisited(At(expected, e));
      q := [e] + r;
      assert q[0] == e && q[1..] == r;
    } else {
      var e :| Has(data, e) && Has(expected, e) && !NoAddedHoles(At(data, e), At(expected, e));
      AtEntry(expected, Place(expected.entries, e));
      AtEntry(data, Place(data.entries, e));
      var r := ExpectedHole(At(expected, e), At(data, e));
      q := [e] + r;
      assert q[0] == e && q[1..] == r;
    }
  }

  ghost predicate AllLetGo(text: Content -> string, expected: Data, data: Data) {
    forall p :: Due([], expected, data, p).Some? ==> LetGo(text, Due([], expected, data, p).value)
  }

  lemma AllLetGoIsAsExpected(text: Content -> string, expected: Data, data: Data)
    requires Valid(expected) && Valid(data)
    ensures AllLetGo(text, expected, data) <==> NoAddedHoles(data, expected) && AsExpected(text, expected, data)
  {
    forall p: Path
      ensures p[0..] == p
    {
    }
    if NoAddedHoles(data, expected) {
      forall p: Path
        ensures Seen(expected, data, p).0 == ContentAt(expected, p)
        ensures ContentAt(expected, p).Some? ==> Seen(expected, data, p).1 == ContentAt(data, p)
      {
        ExpectedSeen(expected, data, p);
      }
      forall p: Path
        ensures (Due([], expected, data, p).Some? ==> LetGo(text, Due([], expected, data, p).value))
           <==> (ContentAt(expected, p).Some? ==>
                  ContentAt(data, p).Some? && text(ContentAt(data, p).value) == text(ContentAt(expected, p).value))
      {
        assert Due([], expected, data, p) == Noted(p, Seen(expected, data, p).0, Seen(expected, data, p).1);
      }
    } else {
      var q := ExpectedHole(expected, data);
      assert Due([], expected, data, q) == Some(Event(q, REMOVED, Some(NullContent), None));
    }
  }

  // A finished case records no error exactly when everything expected is there with its text,
  // and no element missing from the data was expected with a hole in it.
  lemma NoErrorIsAsExpected(text: Content -> string, c: TestCase, data: Data, errors: seq<TestError>)
    requires Valid(c.expected) && Valid(data) && Recorded(text, c, Finished(data), errors)
    ensures errors == [] <==> NoAddedHoles(data, c.expected) && AsExpected(text, c.expected, data)
  {
    hide NoAddedHoles, AsExpected, Seen, Noted;
    var events: seq<Event> :| Records([], c.expected, data, events)
        && errors == WithData(ErrorsFrom(text, c.name, events), c, data);
    NoErrorsFrom(text, c.name, events);
    AllLetGoIsAsExpected(text, c.expected, data);
    var due := p => Due([], c.expected, data, p);
    if AllLetGo(text, c.expected, data) {
      forall k | 0 <= k < |events|
        ensures LetGo(text, events[k])
      {
        assert due(events[k].path) == Some(events[k]);
      }
    } else {
      var p :| Due([], c.expected, data, p).Some? && !LetGo(text, Due([], c.expected, data, p).value);
      assert due(p).value in events;
    }
  }
}
