/** What the component shows for the loaded logs: the "No logs found."
    message when there are none, otherwise a table with one row per log, in
    the order received, whose six cells sit under the six column headings. */
module LogTable {
  import opened Types

  const NoLogsMessage: string := "No logs found."

  /** The column headings, left to right. */
  const Columns: seq<string> := ["Employee", "Date", "Start Time", "End Time", "Task", "Project"]

  /** The field of a log that the column with heading `column` displays. */
  function Under(log: LogEntry, column: string): Option<string>
  {
    match column
    case "Employee" => Some(log.employee)
    case "Date" => Some(log.date)
    case "Start Time" => Some(log.startTime)
    case "End Time" => Some(log.endTime)
    case "Task" => Some(log.task)
    case "Project" => Some(log.project)
    case _ => None
  }

  datatype View = Message(text: string) | Table(rows: seq<seq<string>>)

  /** The cells of one table row: each cell is the field its column heading
      names, and no cell is left out, so the row gives back the log. */
  function Cells(log: LogEntry): (row: seq<string>)
    ensures |row| == |Columns|
    ensures forall j :: 0 <= j < |row| ==> Under(log, Columns[j]) == Some(row[j])
    ensures Entry(row) == Some(log)
  {
    [log.employee, log.date, log.startTime, log.endTime, log.task, log.project]
  }

  /** A log read back from a row of six cells; any other width is no row
      of this table. */
  function Entry(row: seq<string>): Option<LogEntry>
  {
    if |row| == 6 then Some(LogEntry(row[0], row[1], row[2], row[3], row[4], row[5]))
    else None
  }

  /** `logs.map(...)`: one row per log, in the order of the logs. */
  function Rows(logs: seq<LogEntry>): (rows: seq<seq<string>>)
    ensures |rows| == |logs|
    ensures forall i :: 0 <= i < |logs| ==> rows[i] == Cells(logs[i])
    decreases |logs|
  {
    if |logs| == 0 then [] else [Cells(logs[0])] + Rows(logs[1..])
  }

  /** The branch on `logs.length > 0`. */
  function Render(logs: seq<LogEntry>): (v: View)
    ensures v.Message? <==> |logs| == 0
    ensures v.Message? ==> v.text == NoLogsMessage
    ensures v.Table? ==> |v.rows| == |logs|
    ensures v.Table? ==> forall i, j :: 0 <= i < |logs| && 0 <= j < |Columns| ==>
              |v.rows[i]| == |Columns| && Under(logs[i], Columns[j]) == Some(v.rows[i][j])
  {
    if |logs| > 0 then Table(Rows(logs)) else Message(NoLogsMessage)
  }

  /** The logs a view displays, read back row by row; `None` if some row is
      not a six-cell row. */
  function Shown(v: View): Option<seq<LogEntry>>
  {
    match v
    case Message(_) => Some([])
    case Table(rows) => Entries(rows)
  }

  function Entries(rows: seq<seq<string>>): Option<seq<LogEntry>>
    decreases |rows|
  {
    if |rows| == 0 then Some([])
    else
      match (Entry(rows[0]), Entries(rows[1..]))
      case (Some(e), Some(es)) => Some([e] + es)
      case _ => None
  }

  /** Rendering loses nothing and reorders nothing: the view read back is
      exactly the loaded logs. */
  lemma {:induction false} RenderRoundTrip(logs: seq<LogEntry>)
    ensures Shown(Render(logs)) == Some(logs)
  {
    if |logs| > 0 {
      EntriesOfRows(logs);
    }
  }

  lemma {:induction false} EntriesOfRows(logs: seq<LogEntry>)
    ensures Entries(Rows(logs)) == Some(logs)
    decreases |logs|
  {
    if |logs| > 0 {
      var rows := Rows(logs);
      assert rows[1..] == Rows(logs[1..]);
      EntriesOfRows(logs[1..]);
      assert [logs[0]] + logs[1..] == logs;
    }
  }
}
