/** The request `fetchLogs` issues: one `key=value` part per non-empty filter,
    in the order employee, project, date, joined with `&`, behind a `?` only
    when some part exists, appended to the fixed endpoint. Values are inserted
    verbatim, without percent-encoding. */
module Query {
  import opened Types
  import opened Text

  /** The endpoint every request goes to. */
  const Base: string := "http://localhost:3000/logs"

  /** True when every filter input is empty. */
  predicate Unfiltered(f: Filter)
  {
    f.employee == "" && f.project == "" && f.date == ""
  }

  /** The part that carries filter `k` with value `v`. */
  function Param(k: Key, v: string): string
  {
    Name(k) + "=" + v
  }

  /** The filters whose input is non-empty (JavaScript truthiness of a
      string), in visiting order. */
  function Present(f: Filter): (ks: seq<Key>)
    ensures forall k :: k in ks <==> Value(f, k) != ""
    ensures forall i, j :: 0 <= i < j < |ks| ==> Rank(ks[i]) < Rank(ks[j])
    ensures |ks| == 0 <==> Unfiltered(f)
  {
    (if f.employee != "" then [Employee] else [])
    + (if f.project != "" then [Project] else [])
    + (if f.date != "" then [Date] else [])
  }

  /** The `query` array after the three conditional pushes: one part for each
      present filter, in the order of `Present`, carrying its value unchanged. */
  function Parts(f: Filter): (ps: seq<string>)
    ensures |ps| == |Present(f)|
    ensures forall i :: 0 <= i < |ps| ==>
              ps[i] == Param(Present(f)[i], Value(f, Present(f)[i]))
  {
    (if f.employee != "" then ["employee=" + f.employee] else [])
    + (if f.project != "" then ["project=" + f.project] else [])
    + (if f.date != "" then ["date=" + f.date] else [])
  }

  /** `queryString`: empty exactly when no filter is set; otherwise `?`
      followed by the parts. */
  function QueryString(f: Filter): (q: string)
    ensures q == "" <==> Unfiltered(f)
    ensures q != "" ==> q[0] == '?'
  {
    var query := Parts(f);
    if |query| > 0 then "?" + Join(query, "&") else ""
  }

  /** The query begins with `?key=` of the first present filter and ends with
      the value of the last one: the join adds no `&` at either end. */
  lemma QueryStringEnds(f: Filter)
    requires !Unfiltered(f)
    ensures IsPrefix("?" + Name(Present(f)[0]) + "=", QueryString(f))
    ensures IsSuffix(Value(f, Present(f)[|Present(f)| - 1]), QueryString(f))
  {
    var ks := Present(f);
    var query := Parts(f);
    var joined := Join(query, "&");
    var first := Name(ks[0]) + "=";
    var last := Value(f, ks[|ks| - 1]);
    assert query[0] == first + Value(f, ks[0]);
    assert query[|query| - 1] == Name(ks[|ks| - 1]) + "=" + last;
    PrefixOfPrefix(first, Value(f, ks[0]), joined);
    SuffixOfSuffix(Name(ks[|ks| - 1]) + "=", last, joined);
    AffixesUnderHead("?", first, last, joined);
  }

  /** The URL handed to `fetch`: the endpoint, then the query string. */
  function RequestUrl(f: Filter): (url: string)
    ensures IsPrefix(Base, url)
    ensures url == Base <==> Unfiltered(f)
  {
    Base + QueryString(f)
  }

  /** True when no filter value holds the part separator. */
  predicate NoAmpersand(f: Filter)
  {
    '&' !in f.employee && '&' !in f.project && '&' !in f.date
  }

  /** A raw, non-decoding reader of the query string handed to `fetch`:
      drop a leading `?`,
      split on `&`, split each part at its first `=`, and let each known name
      set its filter (a later part wins); unknown names are ignored. It does
      no percent-decoding and leaves `+` as it is. */
  function Parse(q: string): Filter
  {
    var body := if |q| > 0 && q[0] == '?' then q[1..] else q;
    Apply(NoFilter, Split(body, '&'))
  }

  function Apply(f: Filter, parts: seq<string>): Filter
    decreases |parts|
  {
    if |parts| == 0 then f
    else
      var nv := SplitFirst(parts[0], '=');
      var f' := match KeyNamed(nv.0)
        case Some(k) => With(f, k, nv.1)
        case None => f;
      Apply(f', parts[1..])
  }

  lemma {:induction false} ApplyAppend(f: Filter, a: seq<string>, b: seq<string>)
    ensures Apply(f, a + b) == Apply(Apply(f, a), b)
    decreases |a|
  {
    if |a| > 0 {
      assert (a + b)[1..] == a[1..] + b;
      var nv := SplitFirst(a[0], '=');
      var f' := match KeyNamed(nv.0)
        case Some(k) => With(f, k, nv.1)
        case None => f;
      ApplyAppend(f', a[1..], b);
    } else {
      assert a + b == b;
    }
  }

  /** Reading one part sets exactly its filter. */
  lemma ApplyParam(f: Filter, k: Key, v: string)
    ensures Apply(f, [Param(k, v)]) == With(f, k, v)
  {
    assert Name(k) + "=" + v == Name(k) + ['='] + v;
    SplitFirstAfter(Name(k), '=', v);
  }

  lemma ApplyGuarded(f: Filter, k: Key, v: string, g: Filter)
    requires g == With(f, k, v) || (v == "" && g == f)
    requires Value(f, k) == ""
    ensures Apply(f, if v != "" then [Param(k, v)] else []) == g
  {
    if v != "" {
      ApplyParam(f, k, v);
    } else if g != f {
      FilterExt(g, f);
    }
  }

  /** Reading the parts back in order rebuilds the filter. */
  lemma {:induction false} ApplyParts(f: Filter)
    ensures Apply(NoFilter, Parts(f)) == f
  {
    var a := if f.employee != "" then [Param(Employee, f.employee)] else [];
    var b := if f.project != "" then [Param(Project, f.project)] else [];
    var c := if f.date != "" then [Param(Date, f.date)] else [];
    assert Parts(f) == a + b + c;
    var f1 := With(NoFilter, Employee, f.employee);
    var f2 := With(f1, Project, f.project);
    var f3 := With(f2, Date, f.date);
    ApplyAppend(NoFilter, a + b, c);
    ApplyAppend(NoFilter, a, b);
    ApplyGuarded(NoFilter, Employee, f.employee, f1);
    ApplyGuarded(f1, Project, f.project, f2);
    ApplyGuarded(f2, Date, f.date, f3);
    FilterExt(f3, f);
  }

  /** Each part is `name=value`: never empty, and free of `&` when the
      values are. */
  lemma PartsShape(f: Filter)
    requires NoAmpersand(f)
    ensures forall i :: 0 <= i < |Parts(f)| ==> Parts(f)[i] != "" && '&' !in Parts(f)[i]
  {
  }

  /** With no `&` inside a value, the text after `?` is exactly the parts
      joined by `&`: splitting it on `&` gives the parts, none of them empty. */
  lemma QuerySplitsIntoParts(f: Filter)
    requires NoAmpersand(f)
    requires !Unfiltered(f)
    ensures Split(QueryString(f)[1..], '&') == Parts(f)
    ensures forall i :: 0 <= i < |Parts(f)| ==> Parts(f)[i] != ""
  {
    var ps := Parts(f);
    PartsShape(f);
    assert "&" == ['&'];
    assert QueryString(f) == "?" + Join(ps, ['&']);
    assert QueryString(f)[1..] == Join(ps, ['&']);
    SplitJoin(ps, '&');
  }

  /** Round trip: the query string, read back, is the filter state it was
      built from, whenever no value holds `&`. */
  lemma QueryRoundTrip(f: Filter)
    requires NoAmpersand(f)
    ensures Parse(QueryString(f)) == f
  {
    if Unfiltered(f) {
      assert QueryString(f) == "" && f == NoFilter;
      assert Split("", '&') == [""];
      assert SplitFirst("", '=') == ("", "");
      assert KeyNamed("") == None;
      assert Apply(NoFilter, [""]) == Apply(NoFilter, [""][1..]);
    } else {
      QuerySplitsIntoParts(f);
      ApplyParts(f);
    }
  }

  /** The value read from a part holds no `&` when the part holds none. */
  lemma ValueOfPartNoAmpersand(part: string)
    requires '&' !in part
    ensures '&' !in SplitFirst(part, '=').1
  {
  }

  lemma {:induction false} ApplyNoAmpersand(f: Filter, parts: seq<string>)
    requires NoAmpersand(f)
    requires forall i :: 0 <= i < |parts| ==> '&' !in parts[i]
    ensures NoAmpersand(Apply(f, parts))
    decreases |parts|
  {
    if |parts| > 0 {
      var nv := SplitFirst(parts[0], '=');
      ValueOfPartNoAmpersand(parts[0]);
      var f' := match KeyNamed(nv.0)
        case Some(k) => With(f, k, nv.1)
        case None => f;
      assert NoAmpersand(f') by {
        if KeyNamed(nv.0).Some? {
          var k := KeyNamed(nv.0).value;
          assert Value(f', k) == nv.1;
          assert forall j :: j != k ==> Value(f', j) == Value(f, j);
          assert Value(f', Employee) == f'.employee;
          assert Value(f', Project) == f'.project;
          assert Value(f', Date) == f'.date;
        }
      }
      ApplyNoAmpersand(f', parts[1..]);
    }
  }

  /** Whatever the text, the reader never yields a value holding `&`. */
  lemma ParseNoAmpersand(q: string)
    ensures NoAmpersand(Parse(q))
  {
    var body := if |q| > 0 && q[0] == '?' then q[1..] else q;
    ApplyNoAmpersand(NoFilter, Split(body, '&'));
  }

  /** The converse of `QueryRoundTrip`: a filter whose query reads back as
      itself holds no `&`, so a value with `&` never survives the trip. */
  lemma RoundTripOnlyWithoutAmpersand(f: Filter)
    requires Parse(QueryString(f)) == f
    ensures NoAmpersand(f)
  {
    ParseNoAmpersand(QueryString(f));
  }

  /** Round trip on the URL: the text after the endpoint, read back, is the
      filter state the request was built from, whenever no value holds `&`. */
  lemma RequestUrlRoundTrip(f: Filter)
    requires NoAmpersand(f)
    ensures Parse(RequestUrl(f)[|Base|..]) == f
  {
    QueryRoundTrip(f);
  }

  /** Values are not encoded, so an `&` inside one forges a further part:
      an employee value carrying `&project=b` yields the same query, and so
      the same request, as a separate project filter `b`. */
  lemma AmpersandCollision(a: string, b: string)
    requires a != "" && b != ""
    ensures Filter(a + "&" + Param(Project, b), "", "") != Filter(a, b, "")
    ensures QueryString(Filter(a + "&" + Param(Project, b), "", ""))
         == QueryString(Filter(a, b, ""))
  {
    var forged := Filter(a + "&" + Param(Project, b), "", "");
    var honest := Filter(a, b, "");
    assert |forged.employee| > |a|;
    var e := Param(Employee, a);
    var p := Param(Project, b);
    var joined := e + "&" + p;
    assert Present(forged) == [Employee];
    assert Parts(forged) == [Param(Employee, forged.employee)];
    assert Param(Employee, forged.employee) == joined;
    assert Join([joined], "&") == joined;
    assert QueryString(forged) == "?" + joined;
    assert Present(honest) == [Employee, Project];
    assert Parts(honest) == [e, p];
    assert Join([e, p], "&") == joined;
    assert QueryString(honest) == "?" + joined;
  }
}
