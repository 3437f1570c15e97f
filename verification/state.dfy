/** The component's state — three filter inputs and the loaded log list — and
    the transitions that change it: an edit of one input, or the completion
    of a load whose parsed response replaces the list. */
module AppState {
  import opened Types
  import Query
  import Text
  import LogTable

  datatype State = State(filter: Filter, logs: seq<LogEntry>)

  /** Every input starts empty and no logs are loaded. */
  const Initial: State := State(NoFilter, [])

  /** What can happen to the state: the user types into one input, or a
      `fetchLogs` call completes with its parsed response. */
  datatype Event = Edit(key: Key, value: string) | Loaded(data: seq<LogEntry>)

  /** One transition. An edit sets its own input and leaves the other two
      inputs and the logs alone; a load replaces the logs wholesale and
      leaves the inputs alone. */
  function Step(s: State, e: Event): (t: State)
    ensures e.Edit? ==> Value(t.filter, e.key) == e.value
    ensures e.Edit? ==> forall k :: k != e.key ==> Value(t.filter, k) == Value(s.filter, k)
    ensures e.Edit? ==> t.logs == s.logs
    ensures e.Loaded? ==> t.logs == e.data && t.filter == s.filter
  {
    match e
    case Edit(k, v) => s.(filter := With(s.filter, k, v))
    case Loaded(data) => s.(logs := data)
  }

  /** The URL a load started in state `s` requests: the bare endpoint
      exactly when every input is empty. */
  function Request(s: State): (url: string)
    ensures Text.IsPrefix(Query.Base, url)
    ensures url == Query.Base <==> Query.Unfiltered(s.filter)
  {
    Query.RequestUrl(s.filter)
  }

  /** Round trip on the request: the text after the endpoint, read back, is
      the inputs of the state the load was started in, whenever no input
      holds `&`. */
  lemma RequestRoundTrip(s: State)
    requires Query.NoAmpersand(s.filter)
    ensures Query.Parse(Request(s)[|Query.Base|..]) == s.filter
  {
    Query.RequestUrlRoundTrip(s.filter);
  }

  /** At start-up the table shows the "No logs found." message, and a load
      requests the bare endpoint. */
  lemma StartUp()
    ensures LogTable.Render(Initial.logs) == LogTable.Message(LogTable.NoLogsMessage)
    ensures Request(Initial) == Query.Base
  {
  }

  /** The state after a sequence of events, applied in order. */
  function Run(s: State, events: seq<Event>): State
    decreases |events|
  {
    if |events| == 0 then s else Run(Step(s, events[0]), events[1..])
  }

  /** The data of the last load in `events`, if any. */
  function LastLoad(events: seq<Event>): Option<seq<LogEntry>>
    decreases |events|
  {
    if |events| == 0 then None
    else if events[|events| - 1].Loaded? then Some(events[|events| - 1].data)
    else LastLoad(events[..|events| - 1])
  }

  /** The value of the last edit to input `k` in `events`, if any. */
  function LastEdit(events: seq<Event>, k: Key): Option<string>
    decreases |events|
  {
    if |events| == 0 then None
    else if events[|events| - 1].Edit? && events[|events| - 1].key == k
    then Some(events[|events| - 1].value)
    else LastEdit(events[..|events| - 1], k)
  }

  lemma {:induction false} RunSnoc(s: State, events: seq<Event>, e: Event)
    ensures Run(s, events + [e]) == Step(Run(s, events), e)
    decreases |events|
  {
    if |events| == 0 {
      assert events + [e] == [e];
    } else {
      assert (events + [e])[1..] == events[1..] + [e];
      RunSnoc(Step(s, events[0]), events[1..], e);
    }
  }

  /** The loaded logs are exactly the most recent load's response — no
      merging with earlier responses — or the starting logs when nothing
      has been loaded. */
  lemma {:induction false} LogsAreLastLoad(s: State, events: seq<Event>)
    ensures Run(s, events).logs
         == (match LastLoad(events) case Some(d) => d case None => s.logs)
    decreases |events|
  {
    if |events| > 0 {
      var init := events[..|events| - 1];
      var e := events[|events| - 1];
      assert init + [e] == events;
      RunSnoc(s, init, e);
      LogsAreLastLoad(s, init);
    }
  }

  /** Each input holds the value of its own most recent edit, or its starting
      value when it was never edited; edits to other inputs and loads do not
      touch it. */
  lemma {:induction false} InputIsLastEdit(s: State, events: seq<Event>, k: Key)
    ensures Value(Run(s, events).filter, k)
         == (match LastEdit(events, k) case Some(v) => v case None => Value(s.filter, k))
    decreases |events|
  {
    if |events| > 0 {
      var init := events[..|events| - 1];
      var e := events[|events| - 1];
      assert init + [e] == events;
      RunSnoc(s, init, e);
      InputIsLastEdit(s, init, k);
    }
  }

  /** Edits to two different inputs commute. */
  lemma EditsCommute(s: State, j: Key, a: string, k: Key, b: string)
    requires j != k
    ensures Step(Step(s, Edit(j, a)), Edit(k, b)) == Step(Step(s, Edit(k, b)), Edit(j, a))
  {
  }
}
