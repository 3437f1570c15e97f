/** The entities of the log viewer: the three filter inputs held in component
    state, and a time-log entry as delivered by the backend. */
module Types {

  /** A possibly missing value. */
  datatype Option<T> = None | Some(value: T)

  /** The three filter inputs, in the fixed order in which the query builder
      visits them. */
  datatype Key = Employee | Project | Date

  /** Query-parameter name of each filter. */
  function Name(k: Key): string
  {
    match k
    case Employee => "employee"
    case Project => "project"
    case Date => "date"
  }

  /** Position of a filter in the query builder's visiting order. */
  function Rank(k: Key): nat
  {
    match k
    case Employee => 0
    case Project => 1
    case Date => 2
  }

  /** The parameter name a query part carries, if it names a filter. */
  function KeyNamed(name: string): (r: Option<Key>)
    ensures r.Some? ==> Name(r.value) == name
    ensures forall k :: Name(k) == name ==> r == Some(k)
  {
    if name == "employee" then Some(Employee)
    else if name == "project" then Some(Project)
    else if name == "date" then Some(Date)
    else None
  }

  /** Filter state; the empty string means "no constraint". */
  datatype Filter = Filter(employee: string, project: string, date: string)

  /** The state every filter input starts in. */
  const NoFilter: Filter := Filter("", "", "")

  function Value(f: Filter, k: Key): string
  {
    match k
    case Employee => f.employee
    case Project => f.project
    case Date => f.date
  }

  /** `f` with the field for `k` replaced by `v` and nothing else touched. */
  function With(f: Filter, k: Key, v: string): (g: Filter)
    ensures Value(g, k) == v
    ensures forall j :: j != k ==> Value(g, j) == Value(f, j)
  {
    match k
    case Employee => f.(employee := v)
    case Project => f.(project := v)
    case Date => f.(date := v)
  }

  /** Two filters agreeing on every key are the same filter. */
  lemma FilterExt(f: Filter, g: Filter)
    requires forall k :: Value(f, k) == Value(g, k)
    ensures f == g
  {
    assert Value(f, Employee) == Value(g, Employee);
    assert Value(f, Project) == Value(g, Project);
    assert Value(f, Date) == Value(g, Date);
  }

  /** One time-log record as returned by the backend. */
  datatype LogEntry = LogEntry(
    employee: string,
    date: string,
    startTime: string,
    endTime: string,
    task: string,
    project: string)
}
