/** The hash routes of the interface: printed to a link, and read back from one. */
module Router {
  import opened Codings

  const WORKFLOW_TABS := ["units", "graph", "attempts", "decisions", "why", "timeline", "evidence", "infra"]
  const ATTEMPT_STEPS := ["dispatch", "run", "report", "checks", "commit", "verdict", "land"]
  const SYSTEM_TABS := ["engine", "sla", "resources", "services", "cleanup", "land", "supervisor", "learning"]
  const DECISION_TABS := ["di", "asks", "incidents"]

  type WorkflowTab = s: string | s in WORKFLOW_TABS witness "units"
  type AttemptStep = s: string | s in ATTEMPT_STEPS witness "run"
  type SystemTab = s: string | s in SYSTEM_TABS witness "engine"
  type DecisionTab = s: string | s in DECISION_TABS witness "di"

  /** The names and values of a query, in order. */
  type Params = seq<(string, string)>

  datatype Route =
    | Overview
    | Workflow(project: string, wf: string, workflowTab: WorkflowTab)
    | Attempt(project: string, attemptId: string, step: AttemptStep, q: string)
    | Decisions(decisionTab: DecisionTab, decider: string, status: string, kindFilter: string)
    | System(systemTab: SystemTab)
    | Logs(filters: Params)
    | Analytics(project: string)
    | Kit
    | NotFound

  // ---- Cutting and joining ----

  function Split(s: string, at: set<char>): (r: seq<string>)
    ensures r != []
  {
    if s == "" then [""]
    else
      var rest := Split(s[1..], at);
      if s[0] in at then [""] + rest else [[s[0]] + rest[0]] + rest[1..]
  }

  function Join(parts: seq<string>, sep: char): string {
    if parts == [] then "" else if |parts| == 1 then parts[0] else parts[0] + [sep] + Join(parts[1..], sep)
  }

  function Before(s: string, c: char): string {
    if s == "" || s[0] == c then "" else [s[0]] + Before(s[1..], c)
  }

  /** What follows the first `c`; nothing when there is none. */
  function After(s: string, c: char): string {
    if s == "" then "" else if s[0] == c then s[1..] else After(s[1..], c)
  }

  predicate Free(s: string, at: set<char>) {
    forall c <- s :: c !in at
  }

  lemma {:induction false} SplitWhole(s: string, at: set<char>)
    requires Free(s, at)
    ensures Split(s, at) == [s]
  {
    if s != "" {
      SplitWhole(s[1..], at);
      assert [s[0]] + s[1..] == s;
    }
  }

  lemma {:induction false} SplitFirst(s: string, sep: char, rest: string, at: set<char>)
    requires sep in at && Free(s, at)
    ensures Split(s + [sep] + rest, at) == [s] + Split(rest, at)
  {
    var all := s + [sep] + rest;
    if s == "" {
      assert all[1..] == rest;
    } else {
      assert all[1..] == s[1..] + [sep] + rest;
      SplitFirst(s[1..], sep, rest, at);
      assert [s[0]] + s[1..] == s;
    }
  }

  /** Joined parts come apart again where none of them holds a separator. */
  lemma {:induction false} SplitJoined(parts: seq<string>, sep: char, at: set<char>)
    requires parts != [] && sep in at && forall p <- parts :: Free(p, at)
    ensures Split(Join(parts, sep), at) == parts
  {
    if |parts| == 1 {
      SplitWhole(parts[0], at);
    } else {
      SplitFirst(parts[0], sep, Join(parts[1..], sep), at);
      SplitJoined(parts[1..], sep, at);
    }
  }

  lemma {:induction false} CutAt(s: string, c: char, rest: string)
    requires c !in s
    ensures Before(s + [c] + rest, c) == s && After(s + [c] + rest, c) == rest
    ensures Before(s, c) == s && After(s, c) == ""
  {
    var all := s + [c] + rest;
    if s == "" {
      assert all[1..] == rest;
    } else {
      assert all[1..] == s[1..] + [c] + rest;
      CutAt(s[1..], c, rest);
      assert [s[0]] + s[1..] == s;
    }
  }

  // ---- URLs ----

  /** The parts of a path, the empty ones too, and a query. */
  datatype Url = Url(segments: seq<string>, query: string)

  const DOTS := [".", "%2e", "%2E"]

  predicate SingleDot(segment: string) {
    segment in DOTS
  }

  predicate DoubleDot(segment: string) {
    exists i, j | 0 <= i < 3 && 0 <= j < 3 :: segment == DOTS[i] + DOTS[j]
  }

  /** Dot-segment removal (section 5.2.4 of RFC 3986), with percent-encoded dots counting as dots. */
  function RemoveDots(segments: seq<string>, out: seq<string>): seq<string>
    decreases |segments|
  {
    if segments == [] then out
    else
      var last := |segments| == 1;
      if DoubleDot(segments[0]) then
        RemoveDots(segments[1..], (if out == [] then [] else out[..|out| - 1]) + if last then [""] else [])
      else if SingleDot(segments[0]) then RemoveDots(segments[1..], out + if last then [""] else [])
      else RemoveDots(segments[1..], out + [segments[0]])
  }

  /** A reference that is a path of the base's own host, and in which a URL parser has nothing to strip. */
  predicate PathAbsolute(raw: string) {
    && raw != "" && raw[0] == '/'
    && (|raw| > 1 ==> raw[1] != '/' && raw[1] != '\\')
    && forall c <- raw :: c > ' '
  }

  /** A reference read against the page's own origin; `elsewhere` answers for those that are no absolute path. */
  function ParseUrl(raw: string, elsewhere: string -> Option<Url>): Option<Url> {
    if !PathAbsolute(raw) then elsewhere(raw)
    else
      var link := Before(raw, '#');
      var path := Before(link, '?');
      Some(Url(RemoveDots(Split(if path == "" then "" else path[1..], {'/', '\\'}), []), After(link, '?')))
  }

  function Present(parts: seq<string>): seq<string> {
    if parts == [] then [] else (if parts[0] == "" then [] else [parts[0]]) + Present(parts[1..])
  }

  function ParamOf(piece: string): (string, string) {
    (FormDecode(Before(piece, '=')), FormDecode(After(piece, '=')))
  }

  function ParamsOf(pieces: seq<string>): Params {
    if pieces == [] then [] else (if pieces[0] == "" then [] else [ParamOf(pieces[0])]) + ParamsOf(pieces[1..])
  }

  function FormParse(query: string): Params {
    ParamsOf(Split(query, {'&'}))
  }

  function Get(params: Params, name: string): Option<string> {
    if params == [] then None else if params[0].0 == name then Some(params[0].1) else Get(params[1..], name)
  }

  function FormPieces(params: Params): seq<string> {
    if params == [] then []
    else [FormEncode(params[0].0) + "=" + FormEncode(params[0].1)] + FormPieces(params[1..])
  }

  /** A query as `URLSearchParams` writes it. */
  function FormWrite(params: Params): string {
    Join(FormPieces(params), '&')
  }

  // ---- Routes ----

  function OneOf(value: Option<string>, values: seq<string>, fallback: string): (r: string)
    requires fallback in values
    ensures r in values
  {
    if value.Some? && value.value in values then value.value else fallback
  }

  function Decode(value: string): string {
    if DecodeComponent(value).None? then "" else DecodeComponent(value).value
  }

  function OrEmpty(value: Option<string>): string {
    if value.None? then "" else value.value
  }

  function ParseSegments(parts: seq<string>, params: Params): Route {
    if parts == [] then Overview
    else if parts[0] == "_kit" && |parts| == 1 then Kit
    else if parts[0] == "w" && |parts| == 3 then
      Workflow(Decode(parts[1]), Decode(parts[2]), OneOf(Get(params, "tab"), WORKFLOW_TABS, "units"))
    else if parts[0] == "a" && |parts| == 3 then
      Attempt(Decode(parts[1]), Decode(parts[2]), OneOf(Get(params, "step"), ATTEMPT_STEPS, "run"), OrEmpty(Get(params, "q")))
    else if parts[0] == "decisions" && |parts| == 1 then
      Decisions(OneOf(Get(params, "tab"), DECISION_TABS, "di"), OrEmpty(Get(params, "decider")),
                OrEmpty(Get(params, "status")), OrEmpty(Get(params, "kind")))
    else if parts[0] == "system" && |parts| <= 2 then
      System(OneOf(if |parts| == 2 then Some(parts[1]) else None, SYSTEM_TABS, "engine"))
    else if parts[0] == "logs" && |parts| == 1 then Logs(params)
    else if parts[0] == "analytics" && |parts| == 1 then Analytics(OrEmpty(Get(params, "project")))
    else NotFound
  }

  function ParseRoute(hash: string, elsewhere: string -> Option<Url>): Route {
    var raw := if hash != "" && hash[0] == '#' then hash[1..] else hash;
    var url := ParseUrl(if raw == "" then "/" else raw, elsewhere);
    if url.None? then NotFound else ParseSegments(Present(url.value.segments), FormParse(url.value.query))
  }

  function Optional(name: string, value: string): Params {
    if value == "" then [] else [(name, value)]
  }

  /** The link to a route. */
  function RouteHref(route: Route): string {
    match route
    case Overview => "#/"
    case Workflow(project, wf, tab) => "#/w/" + EncodeComponent(project) + "/" + EncodeComponent(wf) + "?tab=" + tab
    case Attempt(project, attemptId, step, q) =>
      "#/a/" + EncodeComponent(project) + "/" + EncodeComponent(attemptId) + "?"
      + FormWrite([("step", step)] + Optional("q", q))
    case Decisions(tab, decider, status, kindFilter) =>
      "#/decisions?"
      + FormWrite([("tab", tab)] + Optional("decider", decider) + Optional("status", status) + Optional("kind", kindFilter))
    case System(tab) => "#/system/" + tab
    case Logs(filters) => "#/logs" + if filters == [] then "" else "?" + FormWrite(filters)
    case Analytics(project) => "#/analytics" + if project == "" then "" else "?project=" + EncodeComponent(project)
    case Kit => "#/_kit"
    case NotFound => "#/"
  }

  // ---- Reading a printed link ----

  /** The characters of a printed link past its hash: none that a browser or a URL parser rewrites. */
  predicate LinkChar(c: char) {
    ComponentChar(c) || FormChar(c) || c in "/?&="
  }

  predicate AllComponent(s: string) {
    forall c <- s :: ComponentChar(c)
  }

  predicate AllQuery(s: string) {
    forall c <- s :: ComponentChar(c) || FormChar(c) || c in "&="
  }

  lemma {:induction false} JoinChars(parts: seq<string>, sep: char, c: char)
    requires c in Join(parts, sep)
    ensures c == sep || exists p :: p in parts && c in p
  {
    if |parts| == 1 {
      assert parts[0] in parts;
    } else if |parts| > 1 && c !in parts[0] && c != sep {
      JoinChars(parts[1..], sep, c);
      var p :| p in parts[1..] && c in p;
      assert p in parts;
    }
  }

  /** The raw part of a printed link: segments, and a query or none. */
  function Link(segments: seq<string>, query: Option<string>): string {
    "/" + Join(segments, '/') + if query.None? then "" else "?" + query.value
  }

  /** A list of segments that can follow the first slash of a printed link. */
  predicate Printed(segments: seq<string>) {
    && segments != [] && (segments == [""] || segments[0] != "")
    && forall s <- segments :: AllComponent(s)
  }

  lemma PathChars(segments: seq<string>)
    requires Printed(segments)
    ensures forall c <- Join(segments, '/') :: c == '/' || ComponentChar(c)
    ensures if segments == [""] then Join(segments, '/') == "" else Join(segments, '/') != "" && Join(segments, '/')[0] != '/'
  {
    hide ComponentChar;
    forall c | c in Join(segments, '/') ensures c == '/' || ComponentChar(c) {
      JoinChars(segments, '/', c);
      var p :| c == '/' || (p in segments && c in p);
    }
    if segments != [""] {
      assert segments[0] in segments && segments[0][0] in segments[0] && Join(segments, '/')[0] == segments[0][0];
      assert !ComponentChar('/') by { SlashIsNone(); }
    }
  }

  lemma SlashIsNone()
    ensures !ComponentChar('/') && !ComponentChar('\\') && !ComponentChar('?') && !LinkChar('#')
  {
  }

  lemma LinkChars(segments: seq<string>, query: Option<string>)
    requires Printed(segments) && (query.Some? ==> AllQuery(query.value))
    ensures PathAbsolute(Link(segments, query))
    ensures forall c <- Link(segments, query) :: LinkChar(c)
  {
    hide Join;
    PathChars(segments);
    var path := "/" + Join(segments, '/');
    var raw := Link(segments, query);
    assert query.Some? ==> raw == path + "?" + query.value;
    assert query.None? ==> raw == path;
    if segments != [""] {
      assert path[1] == Join(segments, '/')[0] && path[1] in Join(segments, '/');
      assert raw[1] == path[1];
    }
  }

  /** A printed link has no fragment of its own, and is cut where its query starts. */
  lemma LinkIsCut(path: string, query: Option<string>)
    requires '?' !in path
    ensures var link := path + if query.None? then "" else "?" + query.value;
            Before(link, '?') == path && After(link, '?') == OrEmpty(query)
  {
    hide Before, After;
    if query.Some? {
      assert path + ("?" + query.value) == path + ['?'] + query.value;
      CutAt(path, '?', query.value);
    } else {
      assert path + "" == path;
      CutAt(path, '?', "");
    }
  }

  lemma PathIsSplit(segments: seq<string>)
    requires Printed(segments)
    ensures Split(("/" + Join(segments, '/'))[1..], {'/', '\\'}) == segments
    ensures '?' !in "/" + Join(segments, '/')
  {
    SlashIsNone();
    PathChars(segments);
    hide Join, Split, ComponentChar;
    assert ("/" + Join(segments, '/'))[1..] == Join(segments, '/');
    forall s | s in segments ensures Free(s, {'/', '\\'}) {
      assert AllComponent(s);
    }
    SplitJoined(segments, '/', {'/', '\\'});
  }

  /** Segments and query of a printed link are found again. */
  lemma LinkIsRead(segments: seq<string>, query: Option<string>, elsewhere: string -> Option<Url>)
    requires Printed(segments) && (query.Some? ==> AllQuery(query.value))
    ensures ParseUrl(Link(segments, query), elsewhere) == Some(Url(RemoveDots(segments, []), OrEmpty(query)))
    ensures forall c <- Link(segments, query) :: LinkChar(c)
  {
    var raw := Link(segments, query);
    var path := "/" + Join(segments, '/');
    LinkChars(segments, query);
    SlashIsNone();
    hide PathAbsolute, Join, Split, Before, After, RemoveDots, AllQuery, LinkChar, Printed;
    assert '#' !in raw;
    CutAt(raw, '#', "");
    PathIsSplit(segments);
    LinkIsCut(path, query);
    assert path != "";
  }

  // ---- Which path parameters survive ----

  /** A path parameter that names a path segment of its own. */
  predicate PathSafe(s: string) {
    s != "" && s != "." && s != ".."
  }

  predicate Named(segment: string) {
    segment != "" && !SingleDot(segment) && !DoubleDot(segment)
  }

  lemma DotIsRead(u: string, rest: string)
    requires SingleDot(u)
    ensures ComponentBytes(u + rest)
         == if ComponentBytes(rest).None? then None else Some([0x2e] + ComponentBytes(rest).value)
  {
    var all := u + rest;
    if u == "." {
      assert all[1..] == rest;
    } else {
      assert all[0] == u[0] && all[1] == u[1] && all[2] == u[2];
      assert all[3..] == rest;
    }
  }

  /** Percent-encoded dots stand for dots. */
  lemma DotsAreDots(u: string, v: string)
    requires SingleDot(u) && SingleDot(v)
    ensures DecodeComponent(u) == Some(".") && DecodeComponent(u + v) == Some("..")
  {
    DotIsRead(u, "");
    DotIsRead(v, "");
    DotIsRead(u, v);
    assert u + "" == u && v + "" == v;
    assert Utf8(".") == [0x2e] && Utf8("..") == [0x2e, 0x2e] by {
      assert ".."[1..] == "." && "."[1..] == "";
    }
    DecodesUtf8(".");
    DecodesUtf8("..");
  }

  /** An encoded text names a segment of its own exactly when the text is not empty and is no dot segment. */
  lemma SafeIsNamed(s: string)
    ensures Named(EncodeComponent(s)) <==> PathSafe(s)
  {
    var e := EncodeComponent(s);
    ComponentRoundTrip(s);
    ComponentRoundTrip("");
    if SingleDot(e) {
      DotsAreDots(e, e);
    }
    if DoubleDot(e) {
      var i, j :| 0 <= i < 3 && 0 <= j < 3 && e == DOTS[i] + DOTS[j];
      DotsAreDots(DOTS[i], DOTS[j]);
    }
    if s == "." {
      assert SingleDot(e);
    }
    if s == ".." {
      assert s[1..] == ".";
      assert e == DOTS[0] + DOTS[0];
    }
  }

  lemma {:induction false} RemoveNone(segments: seq<string>, out: seq<string>)
    requires forall s <- segments :: Named(s)
    ensures RemoveDots(segments, out) == out + segments
    decreases |segments|
  {
    if segments == [] {
      assert out + segments == out;
    } else {
      assert segments[0] in segments && forall s <- segments[1..] :: s in segments;
      RemoveNone(segments[1..], out + [segments[0]]);
      assert out + [segments[0]] + segments[1..] == out + segments;
    }
  }

  lemma {:induction false} PresentAll(parts: seq<string>)
    requires forall p <- parts :: p != ""
    ensures Present(parts) == parts
  {
    if parts != [] {
      assert parts[0] in parts && forall p <- parts[1..] :: p in parts;
      PresentAll(parts[1..]);
    }
  }

  lemma {:induction false} PresentLast(parts: seq<string>, last: string)
    ensures Present(parts + [last]) == Present(parts) + if last == "" then [] else [last]
  {
    if parts != [] {
      assert (parts + [last])[1..] == parts[1..] + [last];
      PresentLast(parts[1..], last);
    }
  }

  function CountNamed(segments: seq<string>): nat {
    if segments == [] then 0 else (if Named(segments[0]) then 1 else 0) + CountNamed(segments[1..])
  }

  /** Dot-segment removal leaves no more parts than segments that name something. */
  lemma {:induction false} NoMoreThanNamed(segments: seq<string>, out: seq<string>)
    ensures |Present(RemoveDots(segments, out))| <= |Present(out)| + CountNamed(segments)
    decreases |segments|
  {
    hide SingleDot, DoubleDot;
    if segments != [] {
      var end := if |segments| == 1 then [""] else [];
      if DoubleDot(segments[0]) {
        var kept := if out == [] then [] else out[..|out| - 1];
        if out != [] {
          PresentLast(kept, out[|out| - 1]);
          assert kept + [out[|out| - 1]] == out;
        }
        PresentLast(kept, "");
        assert kept + [] == kept;
        NoMoreThanNamed(segments[1..], kept + end);
      } else if SingleDot(segments[0]) {
        PresentLast(out, "");
        assert out + [] == out;
        NoMoreThanNamed(segments[1..], out + end);
      } else {
        PresentLast(out, segments[0]);
        NoMoreThanNamed(segments[1..], out + [segments[0]]);
      }
    }
  }

  // ---- Queries ----

  lemma FormEncodeChars(s: string)
    ensures forall c <- FormEncode(s) :: FormChar(c)
  {
    FormChars(Utf8(s));
  }

  lemma MarksAreNone()
    ensures !FormChar('=') && !FormChar('&')
  {
  }

  lemma PieceIsRead(name: string, value: string)
    ensures var piece := FormEncode(name) + "=" + FormEncode(value);
            ParamOf(piece) == (name, value) && Free(piece, {'&'}) && AllQuery(piece) && piece != ""
  {
    hide FormEncode, FormDecode, FormChar, Before, After;
    FormEncodeChars(name);
    FormEncodeChars(value);
    FormRoundTrip(name);
    FormRoundTrip(value);
    MarksAreNone();
    assert '=' !in FormEncode(name);
    assert "=" == ['='];
    CutAt(FormEncode(name), '=', FormEncode(value));
  }

  lemma {:induction false} PiecesAreRead(params: Params)
    ensures ParamsOf(FormPieces(params)) == params && |FormPieces(params)| == |params|
    ensures forall p <- FormPieces(params) :: Free(p, {'&'}) && AllQuery(p)
  {
    if params != [] {
      PieceIsRead(params[0].0, params[0].1);
      PiecesAreRead(params[1..]);
    }
  }

  /** A query reads back as the names and values it was written from, in order. */
  lemma QueryRoundTrip(params: Params)
    ensures FormParse(FormWrite(params)) == params && AllQuery(FormWrite(params))
  {
    PiecesAreRead(params);
    if params == [] {
      assert ParamsOf([""]) == [];
    } else {
      SplitJoined(FormPieces(params), '&', {'&'});
    }
    forall c | c in FormWrite(params) ensures ComponentChar(c) || FormChar(c) || c in "&=" {
      JoinChars(FormPieces(params), '&', c);
    }
  }

  lemma {:induction false} PlainComponent(s: string)
    requires forall c <- s :: Unreserved(c)
    ensures EncodeComponent(s) == s
  {
    if s != "" {
      PlainComponent(s[1..]);
      assert [s[0]] + s[1..] == s;
    }
  }

  /** One parameter written by hand, with a plain name and a percent-encoded value. */
  lemma ComponentQuery(name: string, value: string)
    requires forall c <- name :: Alphanumeric(c)
    ensures var query := name + "=" + EncodeComponent(value);
            FormParse(query) == [(name, value)] && AllQuery(query)
  {
    hide EncodeComponent, FormDecode, Split, Before, After;
    var query := name + "=" + EncodeComponent(value);
    ComponentChars(value);
    PlainComponent(name);
    ComponentInForm(name);
    ComponentInForm(value);
    assert "=" == ['='];
    CutAt(name, '=', EncodeComponent(value));
    SplitWhole(query, {'&'});
    assert ParamsOf([query]) == [ParamOf(query)] + ParamsOf([]);
  }

  /** Every tab name is made of lower-case letters. */
  lemma TabsArePlain(tab: string)
    requires tab in WORKFLOW_TABS || tab in ATTEMPT_STEPS || tab in SYSTEM_TABS || tab in DECISION_TABS
    ensures tab != "" && forall c <- tab :: Alphanumeric(c)
  {
  }

  // ---- The round trip ----

  function SegmentsOf(route: Route): seq<string> {
    match route
    case Overview => [""]
    case Workflow(project, wf, _) => ["w", EncodeComponent(project), EncodeComponent(wf)]
    case Attempt(project, attemptId, _, _) => ["a", EncodeComponent(project), EncodeComponent(attemptId)]
    case Decisions(_, _, _, _) => ["decisions"]
    case System(tab) => ["system", tab]
    case Logs(_) => ["logs"]
    case Analytics(_) => ["analytics"]
    case Kit => ["_kit"]
    case NotFound => [""]
  }

  /** The parameters a link carries: the tab, and the others that are not empty. */
  function ParamsOfRoute(route: Route): Params {
    match route
    case Workflow(_, _, tab) => [("tab", tab)]
    case Attempt(_, _, step, q) => [("step", step)] + Optional("q", q)
    case Decisions(tab, decider, status, kindFilter) =>
      [("tab", tab)] + Optional("decider", decider) + Optional("status", status) + Optional("kind", kindFilter)
    case Logs(filters) => filters
    case Analytics(project) => Optional("project", project)
    case _ => []
  }

  function QueryOf(route: Route): Option<string> {
    match route
    case Workflow(_, _, tab) => Some("tab=" + tab)
    case Attempt(_, _, _, _) => Some(FormWrite(ParamsOfRoute(route)))
    case Decisions(_, _, _, _) => Some(FormWrite(ParamsOfRoute(route)))
    case Logs(filters) => if filters == [] then None else Some(FormWrite(filters))
    case Analytics(project) => if project == "" then None else Some("project=" + EncodeComponent(project))
    case _ => None
  }

  lemma JoinThree(a: string, b: string, c: string)
    ensures Join([a, b, c], '/') == a + "/" + b + "/" + c
  {
    assert [a, b, c][1..] == [b, c] && [b, c][1..] == [c];
    assert "/" == ['/'];
    assert Join([b, c], '/') == b + "/" + c;
    assert a + "/" + (b + "/" + c) == a + "/" + b + "/" + c;
  }

  lemma LinkOfThree(first: string, a: string, b: string, query: string)
    ensures "#" + Link([first, a, b], Some(query)) == "#/" + first + "/" + a + "/" + b + "?" + query
  {
    hide Join;
    JoinThree(first, a, b);
    assert "#" + "/" == "#/";
  }

  lemma LinkOfOne(first: string, query: Option<string>)
    ensures "#" + Link([first], query) == "#/" + first + if query.None? then "" else "?" + query.value
  {
    assert "#" + "/" == "#/";
  }

  lemma WorkflowIsLink(route: Route)
    requires route.Workflow?
    ensures RouteHref(route) == "#" + Link(SegmentsOf(route), QueryOf(route))
  {
    hide EncodeComponent, FormWrite, Link;
    var p, w := EncodeComponent(route.project), EncodeComponent(route.wf);
    LinkOfThree("w", p, w, "tab=" + route.workflowTab);
    assert "#/" + "w" + "/" == "#/w/";
    assert "?" + "tab=" == "?tab=";
  }

  lemma AttemptIsLink(route: Route)
    requires route.Attempt?
    ensures RouteHref(route) == "#" + Link(SegmentsOf(route), QueryOf(route))
  {
    hide EncodeComponent, FormWrite, Link;
    LinkOfThree("a", EncodeComponent(route.project), EncodeComponent(route.attemptId), FormWrite(ParamsOfRoute(route)));
    assert "#/" + "a" + "/" == "#/a/";
  }

  lemma SystemIsLink(route: Route)
    requires route.System?
    ensures RouteHref(route) == "#" + Link(SegmentsOf(route), QueryOf(route))
  {
    var tab := route.systemTab;
    assert ["system", tab][1..] == [tab];
    assert "/" == ['/'];
    assert "#" + ("/" + ("system" + "/" + tab) + "") == "#/system/" + tab;
  }

  lemma DecisionsIsLink(route: Route)
    requires route.Decisions?
    ensures RouteHref(route) == "#" + Link(SegmentsOf(route), QueryOf(route))
  {
    hide FormWrite, Link, Optional;
    LinkOfOne("decisions", QueryOf(route));
    assert "#/" + "decisions" + "?" == "#/decisions?";
    assert "#/" + "decisions" + ("?" + QueryOf(route).value) == "#/" + "decisions" + "?" + QueryOf(route).value;
  }

  lemma ListIsLink(route: Route)
    requires route.Logs? || route.Analytics?
    ensures RouteHref(route) == "#" + Link(SegmentsOf(route), QueryOf(route))
  {
    hide FormWrite, EncodeComponent, Link;
    LinkOfOne(SegmentsOf(route)[0], QueryOf(route));
    assert "#/" + "logs" == "#/logs" && "#/" + "analytics" == "#/analytics";
    if route.Analytics? {
      assert "?project=" + EncodeComponent(route.project) == "?" + ("project=" + EncodeComponent(route.project)) by {
        assert "?" + "project=" == "?project=";
      }
    }
  }

  lemma PlainIsLink(route: Route)
    requires route.Overview? || route.Kit? || route.NotFound?
    ensures RouteHref(route) == "#" + Link(SegmentsOf(route), QueryOf(route))
  {
  }

  /** A printed link is its segments and its query. */
  lemma HrefIsLink(route: Route)
    ensures RouteHref(route) == "#" + Link(SegmentsOf(route), QueryOf(route))
  {
    hide *;
    match route
    case Workflow(_, _, _) => WorkflowIsLink(route);
    case Attempt(_, _, _, _) => AttemptIsLink(route);
    case Decisions(_, _, _, _) => DecisionsIsLink(route);
    case System(_) => SystemIsLink(route);
    case Logs(_) => ListIsLink(route);
    case Analytics(_) => ListIsLink(route);
    case _ => PlainIsLink(route);
  }

  lemma WorkflowQuery(tab: WorkflowTab)
    ensures FormParse("tab=" + tab) == [("tab", tab)] && AllQuery("tab=" + tab)
  {
    hide *;
    TabsArePlain(tab);
    PlainIsUnreserved(tab);
    PlainComponent(tab);
    PlainTab();
    ComponentQuery("tab", tab);
    assert "tab" + "=" + tab == "tab=" + tab;
  }

  lemma PlainIsUnreserved(s: string)
    requires forall c <- s :: Alphanumeric(c)
    ensures forall c <- s :: Unreserved(c)
  {
  }

  lemma PlainTab()
    ensures forall c <- "tab" :: Alphanumeric(c)
    ensures forall c <- "project" :: Alphanumeric(c)
  {
  }

  lemma AnalyticsQuery(project: string)
    ensures FormParse("project=" + EncodeComponent(project)) == [("project", project)]
    ensures AllQuery("project=" + EncodeComponent(project))
  {
    hide *;
    PlainTab();
    ComponentQuery("project", project);
    assert "project" + "=" + EncodeComponent(project) == "project=" + EncodeComponent(project);
  }

  /** The query of a link reads back as the parameters of its route. */
  lemma QueryIsRead(route: Route)
    ensures FormParse(OrEmpty(QueryOf(route))) == ParamsOfRoute(route)
    ensures QueryOf(route).Some? ==> AllQuery(QueryOf(route).value)
  {
    hide FormParse, FormWrite, AllQuery, EncodeComponent;
    QueryRoundTrip(ParamsOfRoute(route));
    QueryRoundTrip([]);
    assert FormWrite([]) == "" by { EmptyQuery(); }
    match route
    case Workflow(_, _, tab) => WorkflowQuery(tab);
    case Analytics(project) =>
      if project != "" {
        AnalyticsQuery(project);
      }
    case _ =>
  }

  lemma EmptyQuery()
    ensures FormWrite([]) == ""
  {
  }

  lemma PlainIsNamed(s: string)
    requires s != "" && s[0] != '.' && s[0] != '%'
    ensures Named(s)
  {
  }

  lemma SegmentsArePrinted(route: Route)
    ensures Printed(SegmentsOf(route))
  {
    hide EncodeComponent;
    match route
    case Workflow(project, wf, _) => ComponentChars(project); ComponentChars(wf);
    case Attempt(project, attemptId, _, _) => ComponentChars(project); ComponentChars(attemptId);
    case System(tab) => TabsArePlain(tab);
    case _ =>
  }

  /** A printed link is read as the segments left once dots are removed, and the parameters it was printed with. */
  lemma HrefIsRead(route: Route, elsewhere: string -> Option<Url>)
    ensures ParseRoute(RouteHref(route), elsewhere)
         == ParseSegments(Present(RemoveDots(SegmentsOf(route), [])), ParamsOfRoute(route))
    ensures RouteHref(route)[0] == '#' && forall c <- RouteHref(route)[1..] :: LinkChar(c)
  {
    hide RemoveDots, Present, SegmentsOf, QueryOf, ParamsOfRoute, RouteHref, ParseSegments, ParseUrl, FormParse;
    HrefIsLink(route);
    SegmentsArePrinted(route);
    QueryIsRead(route);
    LinkIsRead(SegmentsOf(route), QueryOf(route), elsewhere);
    assert ("#" + Link(SegmentsOf(route), QueryOf(route)))[1..] == Link(SegmentsOf(route), QueryOf(route));
  }

  /** The routes whose link leads back to them: not the unknown page, and no path parameter that is empty or a dot segment. */
  predicate Printable(route: Route) {
    match route
    case Workflow(project, wf, _) => PathSafe(project) && PathSafe(wf)
    case Attempt(project, attemptId, _, _) => PathSafe(project) && PathSafe(attemptId)
    case NotFound => false
    case _ => true
  }

  lemma AllNamed(segments: seq<string>)
    requires forall s <- segments :: Named(s)
    ensures Present(RemoveDots(segments, [])) == segments
  {
    hide SingleDot, DoubleDot;
    RemoveNone(segments, []);
    assert [] + segments == segments;
    PresentAll(segments);
  }

  lemma SegmentsSurvive(route: Route)
    requires Printable(route)
    ensures Present(RemoveDots(SegmentsOf(route), [])) == if route.Overview? then [] else SegmentsOf(route)
  {
    hide EncodeComponent, SingleDot, DoubleDot, PathSafe;
    match route
    case Overview =>
      PlainOverview();
    case Workflow(project, wf, _) =>
      PlainIsNamed("w");
      SafeIsNamed(project);
      SafeIsNamed(wf);
      AllNamed(SegmentsOf(route));
    case Attempt(project, attemptId, _, _) =>
      PlainIsNamed("a");
      SafeIsNamed(project);
      SafeIsNamed(attemptId);
      AllNamed(SegmentsOf(route));
    case System(tab) =>
      TabsArePlain(tab);
      PlainIsNamed("system");
      PlainIsNamed(tab);
      AllNamed(SegmentsOf(route));
    case Decisions(_, _, _, _) =>
      PlainIsNamed("decisions");
      AllNamed(SegmentsOf(route));
    case Logs(_) =>
      PlainIsNamed("logs");
      AllNamed(SegmentsOf(route));
    case Analytics(_) =>
      PlainIsNamed("analytics");
      AllNamed(SegmentsOf(route));
    case Kit =>
      PlainIsNamed("_kit");
      AllNamed(SegmentsOf(route));
  }

  lemma PlainOverview()
    ensures Present(RemoveDots([""], [])) == []
  {
    assert RemoveDots([""], []) == [""];
  }

  lemma GetOptional(before: Params, name: string, value: string, after: Params)
    requires forall p <- before :: p.0 != name
    requires forall p <- after :: p.0 != name
    ensures OrEmpty(Get(before + Optional(name, value) + after, name)) == value
  {
    if before == [] {
      assert before + Optional(name, value) + after == Optional(name, value) + after;
      if value == "" {
        assert Optional(name, value) + after == after;
        GetAbsent(after, name);
      }
    } else {
      assert (before + Optional(name, value) + after)[1..] == before[1..] + Optional(name, value) + after;
      assert before[0] in before && forall p <- before[1..] :: p in before;
      GetOptional(before[1..], name, value, after);
    }
  }

  lemma GetAbsent(params: Params, name: string)
    requires forall p <- params :: p.0 != name
    ensures Get(params, name) == None
  {
    if params != [] {
      assert params[0] in params && forall p <- params[1..] :: p in params;
      GetAbsent(params[1..], name);
    }
  }

  lemma AttemptParams(route: Route)
    requires route.Attempt?
    ensures Get(ParamsOfRoute(route), "step") == Some(route.step) && OrEmpty(Get(ParamsOfRoute(route), "q")) == route.q
  {
    hide Optional;
    var first: Params := [("step", route.step)];
    GetOptional(first, "q", route.q, []);
    assert first + Optional("q", route.q) + [] == ParamsOfRoute(route);
    assert ParamsOfRoute(route)[0] == first[0];
  }

  lemma OptionalNames(name: string, value: string)
    ensures forall p <- Optional(name, value) :: p.0 == name
  {
  }

  lemma DecisionsParams(route: Route)
    requires route.Decisions?
    ensures var params := ParamsOfRoute(route);
            && Get(params, "tab") == Some(route.decisionTab)
            && OrEmpty(Get(params, "decider")) == route.decider
            && OrEmpty(Get(params, "status")) == route.status
            && OrEmpty(Get(params, "kind")) == route.kindFilter
  {
    hide Optional, OrEmpty;
    var d, s, k := Optional("decider", route.decider), Optional("status", route.status), Optional("kind", route.kindFilter);
    OptionalNames("decider", route.decider);
    OptionalNames("status", route.status);
    OptionalNames("kind", route.kindFilter);
    var first: Params := [("tab", route.decisionTab)];
    var params := ParamsOfRoute(route);
    assert params == first + d + s + k;
    assert params[0] == first[0];
    assert first + d + (s + k) == params && first + d + s + k + [] == params;
    GetOptional(first, "decider", route.decider, s + k);
    GetOptional(first + d, "status", route.status, k);
    GetOptional(first + d + s, "kind", route.kindFilter, []);
  }

  lemma AnalyticsParams(project: string)
    ensures OrEmpty(Get(Optional("project", project), "project")) == project
  {
    GetOptional([], "project", project, []);
    assert [] + Optional("project", project) + [] == Optional("project", project);
  }

  /** The segments and the parameters of a route parse to that route. */
  lemma SegmentsAreRead(route: Route)
    requires Printable(route)
    ensures ParseSegments(if route.Overview? then [] else SegmentsOf(route), ParamsOfRoute(route)) == route
  {
    hide EncodeComponent, DecodeComponent, PathSafe, Optional, OrEmpty;
    match route
    case Workflow(project, wf, tab) =>
      ComponentRoundTrip(project);
      ComponentRoundTrip(wf);
    case Attempt(project, attemptId, step, q) =>
      ComponentRoundTrip(project);
      ComponentRoundTrip(attemptId);
      AttemptParams(route);
    case Decisions(tab, _, _, _) =>
      DecisionsParams(route);
    case Analytics(project) =>
      AnalyticsParams(project);
    case Overview =>
    case System(tab) =>
    case Logs(_) =>
    case Kit =>
  }

  /** A route with three segments of which one names nothing is never read back as itself. */
  lemma UnsafeIsLost(first: string, a: string, b: string)
    requires !PathSafe(a) || !PathSafe(b)
    ensures |Present(RemoveDots([first, EncodeComponent(a), EncodeComponent(b)], []))| < 3
  {
    hide SingleDot, DoubleDot, RemoveDots, EncodeComponent, PathSafe;
    var segments := [first, EncodeComponent(a), EncodeComponent(b)];
    SafeIsNamed(a);
    SafeIsNamed(b);
    NoMoreThanNamed(segments, []);
    assert segments[1..] == [segments[1], segments[2]] && segments[1..][1..] == [segments[2]];
    assert [segments[2]][1..] == [] && CountNamed([segments[2]]) <= 1;
    assert CountNamed([segments[1], segments[2]]) == (if Named(segments[1]) then 1 else 0) + CountNamed([segments[2]]);
    assert CountNamed(segments) <= 2;
  }

  /**
   The link of a route is read back as exactly that route if and only if the route is not the unknown page and its path
   parameters are neither empty nor `.` nor `..`, whatever the texts and however other references are resolved. The characters of
   a link are ones that a browser keeps as they are.
  */
  lemma RouteRoundTrip(route: Route, elsewhere: string -> Option<Url>)
    ensures ParseRoute(RouteHref(route), elsewhere) == route <==> Printable(route)
    ensures forall c <- RouteHref(route)[1..] :: LinkChar(c)
  {
    hide ParseRoute, RouteHref, PathSafe, EncodeComponent, RemoveDots, Present, Optional, LinkChar, DecodeComponent;
    HrefIsRead(route, elsewhere);
    if Printable(route) {
      SegmentsSurvive(route);
      SegmentsAreRead(route);
    } else {
      match route
      case Workflow(project, wf, _) => UnsafeIsLost("w", project, wf);
      case Attempt(project, attemptId, _, _) => UnsafeIsLost("a", project, attemptId);
      case NotFound => PlainOverview();
    }
  }

  // ---- Links written by hand ----

  lemma NoBytesNoText(s: string)
    requires ComponentBytes(s) == Some([])
    ensures s == ""
  {
    if s != "" && s[0] != '%' {
      assert ComponentBytes(s[1..]).Some?;
    }
  }

  /** A component whose bytes start with a dot starts with a dot, plain or percent-encoded. */
  lemma FirstDot(s: string) returns (u: string, rest: string)
    requires ComponentBytes(s).Some? && ComponentBytes(s).value != [] && ComponentBytes(s).value[0] == 0x2e
    ensures SingleDot(u) && s == u + rest && ComponentBytes(rest) == Some(ComponentBytes(s).value[1..])
  {
    if s[0] == '%' {
      u, rest := s[..3], s[3..];
      assert DigitValue(s[1]).value == 2 && DigitValue(s[2]).value == 14;
      assert u == ['%', s[1], s[2]] && s[1] == '2' && (s[2] == 'e' || s[2] == 'E');
      assert u == DOTS[1] || u == DOTS[2];
    } else {
      u, rest := s[..1], s[1..];
      assert ComponentBytes(s).value == EncodeChar(s[0]) + ComponentBytes(rest).value;
      assert EncodeChar(s[0])[0] == 0x2e && s[0] == '.';
      assert u == DOTS[0];
    }
  }

  /** A segment that decodes to a dot or two is a dot segment. */
  lemma DecodedDots(s: string)
    requires DecodeComponent(s) == Some(".") || DecodeComponent(s) == Some("..")
    ensures SingleDot(s) || DoubleDot(s)
  {
    var bytes := ComponentBytes(s).value;
    StrictlyUtf8(bytes);
    assert Utf8(".") == [0x2e] && Utf8("..") == [0x2e, 0x2e] by {
      assert ".."[1..] == "." && "."[1..] == "";
    }
    var u, rest := FirstDot(s);
    if |bytes| == 1 {
      NoBytesNoText(rest);
      assert s == u;
    } else {
      var v, end := FirstDot(rest);
      NoBytesNoText(end);
      var i :| 0 <= i < 3 && u == DOTS[i];
      var j :| 0 <= j < 3 && v == DOTS[j];
      assert s == DOTS[i] + DOTS[j];
    }
  }

  /** No dot segment is left. */
  lemma {:induction false} DotsAreGone(segments: seq<string>, out: seq<string>)
    requires forall s <- out :: s == "" || Named(s)
    ensures forall s <- RemoveDots(segments, out) :: s == "" || Named(s)
    decreases |segments|
  {
    hide SingleDot, DoubleDot;
    if segments != [] {
      var end := if |segments| == 1 then [""] else [];
      if DoubleDot(segments[0]) {
        DotsAreGone(segments[1..], (if out == [] then [] else out[..|out| - 1]) + end);
      } else if SingleDot(segments[0]) {
        DotsAreGone(segments[1..], out + end);
      } else {
        DotsAreGone(segments[1..], out + [segments[0]]);
      }
    }
  }

  lemma {:induction false} PresentIn(parts: seq<string>)
    ensures forall p <- Present(parts) :: p in parts && p != ""
  {
    if parts != [] {
      PresentIn(parts[1..]);
    }
  }

  /** The path parameters of a route. */
  function PathParams(route: Route): seq<string> {
    match route
    case Workflow(project, wf, _) => [project, wf]
    case Attempt(project, attemptId, _, _) => [project, attemptId]
    case _ => []
  }

  lemma ParsedParams(parts: seq<string>, params: Params)
    requires forall p <- parts :: Named(p)
    ensures forall s <- PathParams(ParseSegments(parts, params)) :: s != "" ==> PathSafe(s)
  {
    hide SingleDot, DoubleDot, DecodeComponent, Get;
    forall p | p in parts ensures Decode(p) != "" ==> PathSafe(Decode(p)) {
      if Decode(p) == "." || Decode(p) == ".." {
        DecodedDots(p);
      }
    }
    if |parts| == 3 {
      assert parts[1] in parts && parts[2] in parts;
    }
  }

  /**
   Any hash that is an absolute path, written by hand or not: if a page is found and every path parameter could be decoded to
   some text, then the link of that page leads to the same page again.
  */
  lemma ParsedIsStable(hash: string, elsewhere: string -> Option<Url>)
    requires hash != "" && hash[0] == '#' && PathAbsolute(hash[1..])
    ensures var route := ParseRoute(hash, elsewhere);
            !route.NotFound? && "" !in PathParams(route) ==> ParseRoute(RouteHref(route), elsewhere) == route
  {
    assert hash[1..] != "";
    hide PathAbsolute, RemoveDots, Present, FormParse, Before, After, Split, RouteHref, ParseSegments, PathSafe;
    var route := ParseRoute(hash, elsewhere);
    var url := ParseUrl(hash[1..], elsewhere).value;
    var link := Before(hash[1..], '#');
    var path := Before(link, '?');
    DotsAreGone(Split(if path == "" then "" else path[1..], {'/', '\\'}), []);
    PresentIn(url.segments);
    ParsedParams(Present(url.segments), FormParse(url.query));
    if !route.NotFound? && "" !in PathParams(route) {
      forall s | s in PathParams(route) ensures PathSafe(s) {
        assert s != "";
      }
      PrintableByParams(route);
      RouteRoundTrip(route, elsewhere);
    }
  }

  lemma PrintableByParams(route: Route)
    requires !route.NotFound? && forall s <- PathParams(route) :: PathSafe(s)
    ensures Printable(route)
  {
    hide PathSafe;
    if PathParams(route) != [] {
      assert PathParams(route)[0] in PathParams(route) && PathParams(route)[1] in PathParams(route);
    }
  }

  // ---- Links as they come ----

  /** A parameter is the first of its name. */
  lemma {:induction false} FirstOfItsName(before: Params, name: string, value: string, after: Params)
    requires forall p <- before :: p.0 != name
    ensures Get(before + [(name, value)] + after, name) == Some(value)
  {
    var all := before + [(name, value)] + after;
    if before == [] {
      assert all[0] == (name, value);
    } else {
      assert before[0] in before && all[0] == before[0] && all[1..] == before[1..] + [(name, value)] + after;
      FirstOfItsName(before[1..], name, value, after);
    }
  }

  /** A path shows a page exactly when it has that page's first segment and number of segments; every other path shows none. */
  lemma PagesByTheirPath(parts: seq<string>, params: Params)
    ensures var r := ParseSegments(parts, params);
            && (r.Overview? <==> parts == [])
            && (r.Kit? <==> parts == ["_kit"])
            && (r.Workflow? <==> |parts| == 3 && parts[0] == "w")
            && (r.Attempt? <==> |parts| == 3 && parts[0] == "a")
            && (r.Decisions? <==> parts == ["decisions"])
            && (r.System? <==> (|parts| == 1 || |parts| == 2) && parts[0] == "system")
            && (r.Logs? <==> parts == ["logs"])
            && (r.Analytics? <==> parts == ["analytics"])
  {
  }

  /** The text of a path parameter: nothing when it cannot be decoded. */
  predicate Reads(segment: string, text: string) {
    match DecodeComponent(segment)
    case Some(t) => text == t
    case None => text == ""
  }

  /** A tab is what the link says if there is such a tab, and the page's first choice otherwise. */
  predicate Chosen(value: Option<string>, tabs: seq<string>, usual: string, tab: string) {
    if value.Some? && value.value in tabs then tab == value.value else tab == usual
  }

  /** What a page takes from its link: the path parameters decoded, a tab that exists, and the others or nothing. */
  lemma PagesReadTheirLink(parts: seq<string>, params: Params)
    ensures match ParseSegments(parts, params)
            case Workflow(project, wf, tab) =>
              Reads(parts[1], project) && Reads(parts[2], wf) && Chosen(Get(params, "tab"), WORKFLOW_TABS, "units", tab)
            case Attempt(project, attemptId, step, q) =>
              && Reads(parts[1], project) && Reads(parts[2], attemptId) && Chosen(Get(params, "step"), ATTEMPT_STEPS, "run", step)
              && (if Get(params, "q").Some? then Get(params, "q") == Some(q) else q == "")
            case Decisions(tab, decider, status, kind) =>
              && Chosen(Get(params, "tab"), DECISION_TABS, "di", tab)
              && (if Get(params, "decider").Some? then Get(params, "decider") == Some(decider) else decider == "")
              && (if Get(params, "status").Some? then Get(params, "status") == Some(status) else status == "")
              && (if Get(params, "kind").Some? then Get(params, "kind") == Some(kind) else kind == "")
            case System(tab) => Chosen(if |parts| == 2 then Some(parts[1]) else None, SYSTEM_TABS, "engine", tab)
            case Logs(filters) => filters == params
            case Analytics(project) => if Get(params, "project").Some? then Get(params, "project") == Some(project) else project == ""
            case _ => true
  {
    hide DecodeComponent, Get;
  }

  /** A dot segment vanishes, and two dots take the segment before them along, wherever they stand before the last one. */
  lemma {:induction false} DotsClimb(before: seq<string>, name: string, dots: string, after: seq<string>, out: seq<string>)
    requires after != []
    ensures SingleDot(dots) ==> RemoveDots(before + [dots] + after, out) == RemoveDots(before + after, out)
    ensures Named(name) && DoubleDot(dots) ==> RemoveDots(before + [name, dots] + after, out) == RemoveDots(before + after, out)
    decreases |before|
  {
    if before == [] {
      DotsAreTwo(dots);
      var one, two := before + [dots] + after, before + [name, dots] + after;
      assert before + after == after && one[1..] == after && one[0] == dots && |one| > 1;
      assert out + [] == out;
      assert two[0] == name && two[1..] == [dots] + after && ([dots] + after)[1..] == after && |two| > 2;
      assert (out + [name])[..|out|] == out;
    } else {
      var head, rest := before[0], before[1..];
      assert (before + [dots] + after)[1..] == rest + [dots] + after && (before + after)[1..] == rest + after;
      assert (before + [name, dots] + after)[1..] == rest + [name, dots] + after;
      var up := if out == [] then [] else out[..|out| - 1];
      assert up + [] == up && out + [] == out;
      DotsClimb(rest, name, dots, after, if DoubleDot(head) then up else if SingleDot(head) then out else out + [head]);
    }
  }

  lemma DotsAreTwo(dots: string)
    ensures !(SingleDot(dots) && DoubleDot(dots))
  {
    if DoubleDot(dots) {
      var i, j :| 0 <= i < 3 && 0 <= j < 3 && dots == DOTS[i] + DOTS[j];
      assert SingleDot(dots) ==> |dots| == 1 || |dots| == 3;
      assert dots[0] == DOTS[i][0];
    }
  }

  /**
   No hash, a hash alone and `#/` show the overview; a link is read alike with its hash and without; and a hash that is no link
   shows no page.
  */
  lemma HashesAreRead(raw: string, elsewhere: string -> Option<Url>)
    ensures ParseRoute("", elsewhere) == ParseRoute("#", elsewhere) == ParseRoute("#/", elsewhere) == Overview
    ensures raw != "" && raw[0] != '#' ==> ParseRoute("#" + raw, elsewhere) == ParseRoute(raw, elsewhere)
    ensures raw != "" && !PathAbsolute(raw) && elsewhere(raw).None? ==> ParseRoute("#" + raw, elsewhere).NotFound?
  {
    hide ParseUrl, ParseSegments, PathAbsolute;
    assert ("#" + raw)[0] == '#' && ("#" + raw)[1..] == raw;
    assert "#"[1..] == "" && "#/"[1..] == "/" && RouteHref(Overview) == "#/";
    RouteRoundTrip(Overview, elsewhere);
    NoLink(raw, elsewhere);
  }

  lemma NoLink(raw: string, elsewhere: string -> Option<Url>)
    ensures !PathAbsolute(raw) && elsewhere(raw).None? ==> ParseUrl(raw, elsewhere).None?
  {
  }

  /** The fragment of a link is not read. */
  lemma FragmentIsNotRead(raw: string, fragment: string, elsewhere: string -> Option<Url>)
    requires PathAbsolute(raw) && PathAbsolute(raw + "#" + fragment) && '#' !in raw
    ensures ParseUrl(raw + "#" + fragment, elsewhere) == ParseUrl(raw, elsewhere)
  {
    assert "#" == ['#'];
    CutAt(raw, '#', fragment);
  }
}
