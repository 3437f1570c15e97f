# PDM Time Log Viewer — verified model of the `App` component

The viewer is a single React component, `App` (`src/App.jsx`). It holds three
filter inputs (employee, project, date) and a list of loaded time logs.
"Load Logs" builds a request URL from the non-empty filters and replaces the
list with the parsed response. The list is shown as a six-column table, or as
the message "No logs found." when it is empty.

This project models that component as pure functions over immutable data:

- `types.dfy` (`Types`): the filter keys and their query names, the `Filter`
  record, the `LogEntry` record, and `With`, which replaces one filter field.
- `text.dfy` (`Text`): JavaScript's `Array.prototype.join`, plus splitting on a
  separator character and at the first separator. The splitting functions are
  used only to read a query back, as the inverse of the builder.
- `query.dfy` (`Query`): the query parts, the query string, the request URL,
  a reader for query strings, and the round trip between them.
- `state.dfy` (`AppState`): the state record, the edit and load events, the
  transition function `Step`, and its fold `Run` over an event sequence.
- `table.dfy` (`LogTable`): the empty-state message, the column headings, the
  cells of a row, the rows, and reading a rendered view back into logs.

The source tests `if (employee)` on a string, which is JavaScript truthiness.
The inputs only ever hold strings (`useState('')` and `e.target.value`), so
the model reads that test as "the string is non-empty".

Filter values go into the URL unencoded. `Query.Parse` is a raw reader of the
string handed to `fetch`: it splits on `&` and at the first `=`, and decodes
nothing. Read that way, the query gives back the filter it came from only when
no value contains `&`. `Query.QueryRoundTrip` proves the "if" half and
`Query.RoundTripOnlyWithoutAmpersand` the "only if" half, since the reader
never yields a value holding `&`. `Query.AmpersandCollision` shows the failure: an
employee value `a&project=b` gives the same query as employee `a` with
project `b`.

Loads are modelled as `Loaded` events that may arrive in any order, whatever
order the requests were issued in. `AppState.LogsAreLastLoad` states the
component's actual behaviour: the last response to arrive wins, even if it
answers an older request.

## Model

| member | source | states |
|---|---|---|
| `Query.Present` | src/App.jsx:11-13 | A filter is present exactly when its input is non-empty. Present filters come in strictly increasing order employee, project, date, so each appears at most once. None are present exactly when all three inputs are empty. |
| `Query.Parts` | src/App.jsx:10-13 | There is one part per present filter, so the count equals the number of non-empty inputs. The parts follow the order of the present filters. Each part is the key name, `=`, and the value copied unchanged. |
| `Text.Join` | src/App.jsx:14 | A non-empty join begins with the first part and ends with the last. |
| `Query.QueryString` | src/App.jsx:14 | The query string is empty exactly when all three inputs are empty. Otherwise it starts with `?`. |
| `Query.QueryStringEnds` | src/App.jsx:11-14 | A non-empty query starts with `?`, the first present key and `=`. It ends with the value of the last present filter. So the join adds no `&` at either end. |
| `Query.QuerySplitsIntoParts` | src/App.jsx:10-14 | If no value contains `&`, the text after `?`, split on `&`, is exactly the parts, and no part is empty. So the query is the parts joined by `&`. |
| `Query.RequestUrl` | src/App.jsx:16 | The URL begins with the fixed endpoint `http://localhost:3000/logs`. It is exactly that endpoint when all inputs are empty. |
| `Query.QueryRoundTrip` | src/App.jsx:10-14 | If no value contains `&`, reading the query string back yields exactly the filter state that built it. |
| `Query.ParseNoAmpersand` | src/App.jsx:11-14 | Whatever query text is read, the reader yields no value containing `&`, because `&` always separates parts. |
| `Query.RoundTripOnlyWithoutAmpersand` | src/App.jsx:11-14 | If a filter's query string reads back as that filter, no value contains `&`. This is the converse of `Query.QueryRoundTrip`. |
| `Query.RequestUrlRoundTrip` | src/App.jsx:10-16 | If no value contains `&`, the URL text after the endpoint reads back as exactly the filter state that built it. |
| `Query.AmpersandCollision` | src/App.jsx:11-14 | Values are not encoded, so two different filter states give the same query string, and so the same URL. An employee value `a&project=b` collides with employee `a` plus project `b`. |
| `AppState.Step` | src/App.jsx:18-45 | Editing an input sets that input only. The other two inputs and the logs are unchanged. A load sets the logs to exactly the response and leaves the inputs unchanged. |
| `AppState.Request` | src/App.jsx:9-16 | A load requests a URL that begins with the endpoint. The URL is the bare endpoint exactly when every input is empty. |
| `AppState.RequestRoundTrip` | src/App.jsx:9-16 | If no input contains `&`, the URL a load requests, read back after the endpoint, is exactly the state's inputs. |
| `AppState.StartUp` | src/App.jsx:4-7 | In the initial state the view is the "No logs found." message, and a load requests the bare endpoint. |
| `AppState.LogsAreLastLoad` | src/App.jsx:18 | After any event sequence, the logs are exactly the data of the last load. They are never merged with earlier responses. With no load, the starting logs remain. |
| `AppState.InputIsLastEdit` | src/App.jsx:33-45 | After any event sequence, each input holds its own most recent edit, or its starting value if it was never edited. |
| `AppState.EditsCommute` | src/App.jsx:33-45 | Edits to two different inputs give the same state in either order. |
| `LogTable.Cells` | src/App.jsx:61-77 | A row has one cell per column heading. Each cell is the field its heading names: Employee, Date, Start Time, End Time, Task, Project. The row reads back as the log. |
| `LogTable.Rows` | src/App.jsx:70-79 | There is one row per log, in the order of the logs. Row i holds the cells of log i. |
| `LogTable.Render` | src/App.jsx:56-84 | The view is the "No logs found." message exactly when there are no logs. Otherwise it is a table with one row per log, and each cell sits under the heading that names its field. |
| `LogTable.RenderRoundTrip` | src/App.jsx:56-84 | Reading a rendered view back gives exactly the loaded logs. Nothing is lost, duplicated or reordered. |

## Left out

- `fetch`, `await` and `response.json()` (src/App.jsx:16-17) are I/O. A completed load is an event carrying the parsed logs. Network failures and parse failures are not handled by the component, so they are not modelled.
- A response that is not an array is not modelled. The data of a load is always a sequence of log entries.
- `LogTable.RenderRoundTrip`: each log is assumed to carry exactly the six fields, all strings, so "nothing is lost" holds only for such entries. The component renders raw JSON objects (src/App.jsx:72-77). There, a missing field, `null`, `undefined` or a boolean shows as an empty cell, the same as `""`. A number shows as its text, and any other field is never shown. Such entries can therefore render identical rows.
- React's `useState` machinery and re-rendering are left out. State is a plain record and transitions are pure functions.
- JSX markup, Tailwind classes, the page heading and the button are presentational. The column heading texts are kept because they name each cell's field.
- Hours aggregation, charts, the tab switcher, CSV export and Google sign-in are not part of this model. None of them appears in src/App.jsx.
- `Query.RequestUrl`: the contract states only the endpoint prefix and the bare endpoint without filters. That the rest reads back as the filter is stated separately by `Query.RequestUrlRoundTrip`, and only for values without `&`.
- `AppState.Request`: the same holds; `AppState.RequestRoundTrip` ties the rest of the URL to the state's inputs for values without `&`.
- The raw reader shows only the string-level gap, `&`. Once the URL is parsed by `fetch` or decoded by a server, more characters corrupt the request, and the model does not cover them. A `#` starts a fragment, so everything after it is dropped. A `+` may be read as a space, a `%` as the start of an escape, and whitespace is altered.
- The base URL is the literal in src/App.jsx:16. Other builds may point at other hosts, but this file has only one.
