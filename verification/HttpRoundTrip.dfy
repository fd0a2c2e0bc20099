/** Printing a request and parsing it back (sections 3.1.1 and 3.2 of RFC 7230). */
module HttpRoundTrip {
  import opened Options
  import opened Text
  import opened HttpModel

  /** A header field with the optional whitespace around its value. */
  datatype Field = Field(name: string, lead: string, value: string, trail: string)

  datatype Message = Message(verb: Method, path: string, query: string, version: Version, fields: seq<Field>)

  function MethodString(m: Method): string {
    match m
    case Get => "GET" case Post => "POST" case Head => "HEAD" case Put => "PUT" case Delete => "DELETE"
    case Invalid => "UNKNOWN"
  }

  function VersionString(v: Version): string {
    match v case Http10 => "HTTP/1.0" case Http11 => "HTTP/1.1" case Unknown => ""
  }

  const CRLF: string := ['\r', '\n']

  function PrintField(f: Field): string {
    f.name + [':'] + (f.lead + f.value + f.trail)
  }

  function PrintFields(fields: seq<Field>): string {
    if fields == [] then CRLF else PrintField(fields[0]) + CRLF + PrintFields(fields[1..])
  }

  function FirstLine(m: Message): string {
    MethodString(m.verb) + [' '] + (m.path + m.query + [' '] + VersionString(m.version))
  }

  function Print(m: Message): string {
    FirstLine(m) + CRLF + PrintFields(m.fields)
  }

  // ---------------------------------------------------------------- well-formed messages

  predicate Without(s: string, c: char) {
    forall i :: 0 <= i < |s| ==> s[i] != c
  }

  predicate OneLine(s: string) {
    Without(s, '\r') && Without(s, '\n')
  }

  /** Section 3.2.3: optional whitespace is spaces and tabs. */
  predicate Blank(s: string) {
    forall i :: 0 <= i < |s| ==> s[i] == ' ' || s[i] == '\t'
  }

  predicate Trimmed(s: string) {
    s == [] || (!IsSpace(s[0]) && !IsSpace(s[|s| - 1]))
  }

  predicate GoodField(f: Field) {
    && Without(f.name, ':') && OneLine(f.name)
    && Blank(f.lead) && Blank(f.trail)
    && Trimmed(f.value) && OneLine(f.value)
  }

  predicate WellFormed(m: Message) {
    && !m.verb.Invalid? && !m.version.Unknown?
    && OneLine(m.path) && Without(m.path, ' ') && Without(m.path, '?')
    && OneLine(m.query) && Without(m.query, ' ') && (m.query != [] ==> m.query[0] == '?')
    && forall i :: 0 <= i < |m.fields| ==> GoodField(m.fields[i])
  }

  /** Later fields of the same name win. */
  function HeaderMap(start: map<string, string>, fields: seq<Field>): map<string, string>
    decreases |fields|
  {
    if fields == [] then start else HeaderMap(start[fields[0].name := fields[0].value], fields[1..])
  }

  function Denotes(m: Message): Request {
    Request(m.verb, m.version, m.path, m.query, HeaderMap(map[], m.fields))
  }

  // ---------------------------------------------------------------- trimming

  lemma {:induction false} TrimLeftSkips(lead: string, s: string)
    requires Blank(lead)
    ensures TrimLeft(lead + s) == TrimLeft(s)
  {
    if lead == [] {
      assert lead + s == s;
    } else {
      assert (lead + s)[1..] == lead[1..] + s;
      TrimLeftSkips(lead[1..], s);
    }
  }

  lemma {:induction false} TrimRightSkips(s: string, trail: string)
    requires Blank(trail)
    ensures TrimRight(s + trail) == TrimRight(s)
  {
    if trail == [] {
      assert s + trail == s;
    } else {
      assert (s + trail)[..|s + trail| - 1] == s + trail[..|trail| - 1];
      TrimRightSkips(s, trail[..|trail| - 1]);
    }
  }

  /** Trimming takes off the whitespace around a value and nothing of the value. */
  lemma TrimRestores(lead: string, value: string, trail: string)
    requires Blank(lead) && Blank(trail) && Trimmed(value)
    ensures Trim(lead + value + trail) == value
  {
    assert lead + value + trail == lead + (value + trail);
    TrimLeftSkips(lead, value + trail);
    if value == [] {
      assert value + trail == trail;
      TrimLeftSkips(trail, []);
      assert trail + [] == trail;
    } else {
      assert (value + trail)[0] == value[0];
      TrimRightSkips(value, trail);
    }
  }

  // ---------------------------------------------------------------- lines

  lemma WithoutConcat(s: string, t: string, c: char)
    ensures Without(s + t, c) <==> Without(s, c) && Without(t, c)
  {
    if Without(s + t, c) {
      forall i | 0 <= i < |s| ensures s[i] != c { assert (s + t)[i] == s[i]; }
      forall i | 0 <= i < |t| ensures t[i] != c { assert (s + t)[|s| + i] == t[i]; }
    }
  }

  lemma OneLineConcat(s: string, t: string)
    ensures OneLine(s + t) <==> OneLine(s) && OneLine(t)
  {
    WithoutConcat(s, t, '\r');
    WithoutConcat(s, t, '\n');
  }

  /** A line that has no line end of its own ends at the one printed behind it. */
  lemma LineEndsThere(line: string, rest: string)
    requires OneLine(line)
    ensures var s := line + CRLF + rest;
            FindCRLF(s) == Some(|line|) && s[..|line|] == line && s[|line| + 2..] == rest
  {
    var s := line + CRLF + rest;
    forall j | 0 <= j < |line|
      ensures !CRLFAt(s, j)
    {
      assert s[j] == line[j];
    }
    assert CRLFAt(s, |line|);
    FindCRLFIs(s, |line|);
  }

  lemma FindsSeparator(before: string, c: char, after: string)
    requires Without(before, c)
    ensures var s := before + [c] + after;
            FindChar(s, c) == |before| && s[..|before|] == before && s[|before| + 1..] == after
  {
    var s := before + [c] + after;
    FindCharIs(s, c, |before|);
  }

  lemma MethodReadsBack(m: Method)
    requires !m.Invalid?
    ensures MethodOf(MethodString(m)) == m && Without(MethodString(m), ' ') && OneLine(MethodString(m))
  {
  }

  lemma VersionReadsBack(v: Version)
    requires !v.Unknown?
    ensures VersionOf(VersionString(v)) == v && OneLine(VersionString(v)) && Without(VersionString(v), ' ')
  {
    assert VersionString(v)[..7] == "HTTP/1.";
  }

  lemma TargetReadsBack(r: Request, m: Message)
    requires WellFormed(m) && r.query == ""
    ensures SetTarget(r, m.path + m.query) == r.(path := m.path, query := m.query)
  {
    if m.query == [] {
      assert m.path + m.query == m.path;
      FindCharIs(m.path, '?', |m.path|);
    } else {
      assert m.query == ['?'] + m.query[1..];
      assert m.path + m.query == m.path + ['?'] + m.query[1..];
      FindsSeparator(m.path, '?', m.query[1..]);
      assert (m.path + m.query)[|m.path|..] == m.query;
    }
  }

  lemma FirstLineReadsBack(m: Message)
    requires WellFormed(m)
    ensures OneLine(FirstLine(m))
    ensures RequestLine(EMPTY, FirstLine(m)) == (true, EMPTY.(verb := m.verb, path := m.path, query := m.query, version := m.version))
  {
    var target, version := m.path + m.query, VersionString(m.version);
    var rest := target + [' '] + version;
    MethodReadsBack(m.verb);
    VersionReadsBack(m.version);
    FindsSeparator(MethodString(m.verb), ' ', rest);
    WithoutConcat(m.path, m.query, ' ');
    FindsSeparator(target, ' ', version);
    TargetReadsBack(EMPTY.(verb := m.verb), m);
    assert rest == m.path + m.query + [' '] + VersionString(m.version);
    FirstLineIsOneLine(m);
  }

  lemma FirstLineIsOneLine(m: Message)
    requires WellFormed(m)
    ensures OneLine(FirstLine(m))
  {
    MethodReadsBack(m.verb);
    VersionReadsBack(m.version);
    assert OneLine([' ']);
    OneLineConcat(m.path, m.query);
    OneLineConcat(m.path + m.query, [' ']);
    OneLineConcat(m.path + m.query + [' '], VersionString(m.version));
    OneLineConcat(MethodString(m.verb), [' ']);
    OneLineConcat(MethodString(m.verb) + [' '], m.path + m.query + [' '] + VersionString(m.version));
  }

  lemma BlankIsOneLine(s: string)
    requires Blank(s)
    ensures OneLine(s)
  {
  }

  lemma FieldReadsBack(r: Request, f: Field, rest: string)
    requires GoodField(f)
    ensures OneLine(PrintField(f))
    ensures HeaderLine(r, PrintField(f), rest) == Context(ExpectHeaders, r.(headers := r.headers[f.name := f.value]), rest)
  {
    var value := f.lead + f.value + f.trail;
    FindsSeparator(f.name, ':', value);
    TrimRestores(f.lead, f.value, f.trail);
    BlankIsOneLine(f.lead);
    BlankIsOneLine(f.trail);
    assert OneLine([':']);
    OneLineConcat(f.lead, f.value);
    OneLineConcat(f.lead + f.value, f.trail);
    OneLineConcat(f.name, [':']);
    OneLineConcat(f.name + [':'], value);
  }

  // ---------------------------------------------------------------- the round trip

  function AfterHead(r: Request, rest: string): Context {
    Context(if r.verb.Post? then ExpectBody else GotAll, r, rest)
  }

  lemma HeadersEnd(r: Request, rest: string)
    ensures Parse(Context(ExpectHeaders, r, CRLF + rest)) == AfterHead(r, rest)
  {
    assert [] + CRLF + rest == CRLF + rest;
    LineEndsThere([], rest);
  }

  lemma {:induction false} HeadersReadBack(r: Request, fields: seq<Field>, rest: string)
    requires forall i :: 0 <= i < |fields| ==> GoodField(fields[i])
    ensures Parse(Context(ExpectHeaders, r, PrintFields(fields) + rest)) ==
            AfterHead(r.(headers := HeaderMap(r.headers, fields)), rest)
    decreases |fields|
  {
    if fields == [] {
      HeadersEnd(r, rest);
    } else {
      var f, more := fields[0], PrintFields(fields[1..]) + rest;
      assert PrintFields(fields) + rest == PrintField(f) + CRLF + more;
      FieldReadsBack(r, f, more);
      LineEndsThere(PrintField(f), more);
      HeadersReadBack(r.(headers := r.headers[f.name := f.value]), fields[1..], rest);
    }
  }

  /** Parsing a printed message gives back its method, path, query, version and last-wins headers,
      and consumes exactly the printed bytes. A POST is left at the start of its body. */
  lemma PrintedMessageReadsBack(m: Message, rest: string)
    requires WellFormed(m)
    ensures Receive(FRESH, Print(m) + rest) == AfterHead(Denotes(m), rest)
  {
    var r := EMPTY.(verb := m.verb, path := m.path, query := m.query, version := m.version);
    var fields := PrintFields(m.fields) + rest;
    assert [] + (Print(m) + rest) == FirstLine(m) + CRLF + fields;
    FirstLineReadsBack(m);
    LineEndsThere(FirstLine(m), fields);
    HeadersReadBack(r, m.fields, rest);
  }

  /** And so does any way of cutting the printed bytes into chunks. */
  lemma AnyCutReadsBack(m: Message, chunks: seq<string>)
    requires WellFormed(m) && chunks != [] && Flatten(chunks) == Print(m)
    ensures Feed(FRESH, chunks) == AfterHead(Denotes(m), [])
  {
    AnySplitIsTheSame(FRESH, chunks);
    AloneItReadsBack(m);
  }

  lemma AloneItReadsBack(m: Message)
    requires WellFormed(m)
    ensures Receive(FRESH, Print(m)) == AfterHead(Denotes(m), [])
  {
    assert Print(m) + [] == Print(m);
    PrintedMessageReadsBack(m, []);
  }

  // ---------------------------------------------------------------- what the client gets

  /** A well-formed request without a body, cut in any way: it is served when its last byte is
      there, and answered 400 on the way exactly when it comes in more than one message. */
  lemma OnlyUncutIsAccepted(m: Message, chunks: seq<string>)
    requires WellFormed(m) && !m.verb.Post? && Flatten(chunks) == Print(m)
    requires forall i :: 0 <= i < |chunks| ==> chunks[i] != []
    ensures chunks != []
    ensures var n, outcomes := |chunks| - 1, Outcomes(FRESH, chunks);
            && outcomes[n].served == Some(Denotes(m)) && outcomes[n].context == FRESH
            && (forall i :: 0 <= i < n ==> outcomes[i].served.None?)
            && ((forall i :: 0 <= i <= n ==> !outcomes[i].badRequest) <==> |chunks| == 1)
  {
    AloneItReadsBack(m);
    ServedAtTheEnd(FRESH, chunks, Denotes(m));
    if |chunks| == 1 {
      assert chunks[0] + [] == chunks[0] == Print(m);
      UncutIsAccepted(m);
    } else {
      CutIsRefused(m, chunks);
    }
  }

  lemma CutIsRefused(m: Message, chunks: seq<string>)
    requires WellFormed(m) && |chunks| >= 2 && Flatten(chunks) == Print(m)
    requires chunks[1] != []
    ensures Outcomes(FRESH, chunks)[0].badRequest || Outcomes(FRESH, chunks)[1].badRequest
  {
    AloneItReadsBack(m);
    var rest := chunks[1..];
    assert Flatten(rest) == rest[0] + Flatten(rest[1..]);
    NotYetComplete(FRESH, chunks[0], Flatten(rest));
    OneOfTwoIsRefused(chunks);
  }

  /** Bytes behind a request in the same message stay for the next one. */
  lemma RestStaysForLater(m: Message, rest: string)
    requires WellFormed(m) && !m.verb.Post?
    ensures OnMessage(FRESH, Print(m) + rest).served == Some(Denotes(m))
    ensures OnMessage(FRESH, Print(m) + rest).context == Context(ExpectRequestLine, EMPTY, rest)
  {
    PrintedMessageReadsBack(m, rest);
  }

  lemma UncutIsAccepted(m: Message)
    requires WellFormed(m)
    ensures !OnMessage(FRESH, Print(m)).badRequest
  {
    FirstLineReadsBack(m);
    LineEndsThere(FirstLine(m), PrintFields(m.fields));
    assert [] + Print(m) == Print(m);
  }

  lemma FlattenTwo(a: string, b: string)
    ensures Flatten([a, b]) == a + b
  {
    assert [a, b][1..] == [b] && [b][1..] == [];
    assert Flatten([b]) == b + [] == b;
  }

  /** A good request that is answered 400 and served all the same: GET / HTTP/1.1 in two pieces. */
  lemma CutRequestIsRefusedAndServed() returns (m: Message, chunks: seq<string>)
    ensures WellFormed(m) && |chunks| == 2 && Flatten(chunks) == Print(m)
    ensures Outcomes(FRESH, chunks)[0].badRequest || Outcomes(FRESH, chunks)[1].badRequest
    ensures Outcomes(FRESH, chunks)[1].served == Some(Denotes(m))
  {
    m := Message(Get, "/", "", Http11, []);
    chunks := [FirstLine(m), CRLF + CRLF];
    FlattenTwo(FirstLine(m), CRLF + CRLF);
    assert Print(m) == FirstLine(m) + CRLF + CRLF == FirstLine(m) + (CRLF + CRLF);
    CutIsRefused(m, chunks);
    OnlyUncutIsAccepted(m, chunks);
  }
}
