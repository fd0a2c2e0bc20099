/** Exactly what the parser accepts. The other lemmas about the parser speak of messages that were
    printed; these speak of every sequence of bytes. */
module HttpGrammar {
  import opened Options
  import opened Text
  import opened HttpModel
  import opened HttpRoundTrip

  // ---------------------------------------------------------------- the request line

  /** A method, a target without spaces and a version, with one space in between. */
  predicate GoodLine(line: string, m: Method, target: string, v: Version) {
    && !m.Invalid? && !v.Unknown? && Without(target, ' ')
    && line == MethodString(m) + [' '] + (target + [' '] + VersionString(v))
  }

  lemma MethodOnly(s: string)
    ensures !MethodOf(s).Invalid? ==> s == MethodString(MethodOf(s))
  {
  }

  lemma VersionOnly(s: string)
    ensures !VersionOf(s).Unknown? ==> s == VersionString(VersionOf(s))
  {
    if !VersionOf(s).Unknown? {
      assert s == s[..7] + [s[7]];
      assert VersionString(Http11) == "HTTP/1." + ['1'] && VersionString(Http10) == "HTTP/1." + ['0'];
    }
  }

  lemma {:induction false} CutAt(s: string, c: char, k: nat)
    requires k == FindChar(s, c) && k < |s|
    ensures s == s[..k] + [c] + s[k + 1..] && Without(s[..k], c)
  {
    CutsInTwo(s, k);
  }

  lemma CutsInTwo(s: string, k: nat)
    requires k < |s|
    ensures s == s[..k] + [s[k]] + s[k + 1..]
  {
  }

  /** The line is split as it was put together. */
  lemma GoodLineIsAccepted(r: Request, line: string, m: Method, target: string, v: Version)
    requires GoodLine(line, m, target, v)
    ensures RequestLine(r, line) == (true, SetTarget(r.(verb := m), target).(version := v))
  {
    var version := VersionString(v);
    MethodReadsBack(m);
    VersionReadsBack(v);
    FindsSeparator(MethodString(m), ' ', target + [' '] + version);
    FindsSeparator(target, ' ', version);
  }

  lemma AcceptedLineIsGood(r: Request, line: string) returns (m: Method, target: string, v: Version)
    requires RequestLine(r, line).0
    ensures GoodLine(line, m, target, v)
  {
    var space := FindChar(line, ' ');
    var rest := line[space + 1..];
    var space2 := FindChar(rest, ' ');
    m, target, v := MethodOf(line[..space]), rest[..space2], VersionOf(rest[space2 + 1..]);
    CutAt(line, ' ', space);
    CutAt(rest, ' ', space2);
    MethodOnly(line[..space]);
    VersionOnly(rest[space2 + 1..]);
  }

  /** A request line is accepted exactly when it has this form. */
  lemma LineIsAcceptedIff(r: Request, line: string)
    ensures RequestLine(r, line).0 <==> exists m, target, v :: GoodLine(line, m, target, v)
  {
    if RequestLine(r, line).0 {
      var m, target, v := AcceptedLineIsGood(r, line);
    }
    if m, target, v :| GoodLine(line, m, target, v) {
      GoodLineIsAccepted(r, line, m, target, v);
    }
  }

  /** The target is the path up to the first question mark, and the query from there on; without one
      the query stays what it was. */
  lemma TargetIsSplit(r: Request, target: string)
    ensures var r' := SetTarget(r, target);
            && r' == r.(path := r'.path, query := r'.query)
            && Without(r'.path, '?')
            && if Without(target, '?') then r'.path == target && r'.query == r.query
               else target == r'.path + r'.query && r'.query != [] && r'.query[0] == '?'
  {
    var q := FindChar(target, '?');
    if q < |target| {
      CutAt(target, '?', q);
      assert target[q] == '?';
    }
  }

  /** What a line leaves in the request when it is not accepted: everything up to where it goes wrong,
      be it the missing space, the method, the second space or the version. */
  lemma BadLineFills(r: Request, word: string, target: string, version: string)
    requires Without(word, ' ') && Without(target, ' ')
    ensures RequestLine(r, word) == (false, r)
    ensures MethodOf(word).Invalid? ==>
              RequestLine(r, word + [' '] + (target + [' '] + version)) == (false, r.(verb := Invalid))
    ensures !MethodOf(word).Invalid? ==> RequestLine(r, word + [' '] + target) == (false, r.(verb := MethodOf(word)))
    ensures !MethodOf(word).Invalid? && VersionOf(version).Unknown? ==>
              RequestLine(r, word + [' '] + (target + [' '] + version)) == (false, SetTarget(r.(verb := MethodOf(word)), target))
  {
    FindCharIs(word, ' ', |word|);
    FindCharIs(target, ' ', |target|);
    FindsSeparator(word, ' ', target);
    FindsSeparator(word, ' ', target + [' '] + version);
    FindsSeparator(target, ' ', version);
  }

  /** What a first message is answered: no 400 exactly when it holds a whole line of this form. */
  lemma FirstMessageIsRefusedIff(chunk: string)
    ensures OnMessage(FRESH, chunk).badRequest <==>
              FindCRLF(chunk).None? || !exists m, target, v :: GoodLine(chunk[..FindCRLF(chunk).value], m, target, v)
    ensures OnMessage(FRESH, chunk).badRequest ==>
              && OnMessage(FRESH, chunk).served.None?
              && OnMessage(FRESH, chunk).context.state == ExpectRequestLine
              && OnMessage(FRESH, chunk).context.bytes == chunk
              && OnMessage(FRESH, chunk).context.request ==
                 if FindCRLF(chunk).None? then EMPTY else RequestLine(EMPTY, chunk[..FindCRLF(chunk).value]).1
  {
    assert [] + chunk == chunk;
    if FindCRLF(chunk).Some? {
      LineIsAcceptedIff(EMPTY, chunk[..FindCRLF(chunk).value]);
    }
  }

  // ---------------------------------------------------------------- header lines

  /** The characters of C's isspace: the space and the codes from tab to carriage return. */
  lemma SpaceIs(c: char)
    ensures IsSpace(c) <==> c == ' ' || 9 <= c as int <= 13
  {
  }

  predicate AllSpace(s: string) {
    forall i :: 0 <= i < |s| ==> IsSpace(s[i])
  }

  lemma {:induction false} TrimLeftIs(s: string) returns (lead: string)
    ensures s == lead + TrimLeft(s) && AllSpace(lead)
    ensures TrimLeft(s) != [] ==> !IsSpace(TrimLeft(s)[0])
  {
    if s != [] && IsSpace(s[0]) {
      lead := TrimLeftIs(s[1..]);
      lead := [s[0]] + lead;
    } else {
      lead := [];
    }
  }

  lemma {:induction false} TrimRightIs(s: string) returns (trail: string)
    ensures s == TrimRight(s) + trail && AllSpace(trail)
    ensures TrimRight(s) != [] ==> !IsSpace(TrimRight(s)[|TrimRight(s)| - 1])
  {
    if s != [] && IsSpace(s[|s| - 1]) {
      trail := TrimRightIs(s[..|s| - 1]);
      trail := trail + [s[|s| - 1]];
    } else {
      trail := [];
    }
  }

  /** Trimming takes off exactly the whitespace at the two ends. */
  lemma TrimIsExact(s: string) returns (lead: string, trail: string)
    ensures s == lead + Trim(s) + trail && AllSpace(lead) && AllSpace(trail) && Trimmed(Trim(s))
  {
    lead := TrimLeftIs(s);
    trail := TrimRightIs(TrimLeft(s));
    assert s == lead + (Trim(s) + trail);
    assert Trim(s) != [] ==> TrimLeft(s)[0] == Trim(s)[0];
  }

  /** A header line with a colon sets the field before the first one to the trimmed rest; a line
      without ends the headers, whether it is empty or not. */
  lemma HeaderLineIs(r: Request, line: string, rest: string)
    ensures Without(line, ':') ==> HeaderLine(r, line, rest) == Context(ExpectBody, r, rest)
    ensures forall name, value :: Without(name, ':') && line == name + [':'] + value ==>
              HeaderLine(r, line, rest) == Context(ExpectHeaders, r.(headers := r.headers[name := Trim(value)]), rest)
  {
    forall name, value | Without(name, ':') && line == name + [':'] + value
      ensures HeaderLine(r, line, rest) == Context(ExpectHeaders, r.(headers := r.headers[name := Trim(value)]), rest)
    {
      FindsSeparator(name, ':', value);
    }
  }

  // ---------------------------------------------------------------- the whole head

  /** A text that ends at the line end printed behind it. */
  predicate IsLine(line: string) {
    forall j :: 0 <= j < |line| ==> !CRLFAt(line + CRLF, j)
  }

  function Joined(lines: seq<string>): string {
    if lines == [] then [] else lines[0] + CRLF + Joined(lines[1..])
  }

  predicate FieldLines(lines: seq<string>) {
    forall i :: 0 <= i < |lines| ==> IsLine(lines[i]) && !Without(lines[i], ':')
  }

  /** The head of a request behind its first line: lines with a colon, and then one without. */
  predicate Head(s: string, lines: seq<string>, last: string, rest: string) {
    && FieldLines(lines) && IsLine(last) && Without(last, ':')
    && s == Joined(lines) + (last + CRLF + rest)
  }

  /** What the field lines say, each overriding the earlier ones. */
  function WithFields(r: Request, lines: seq<string>): Request
    decreases |lines|
  {
    if lines == [] then r
    else WithFields(HeaderLine(r, lines[0], []).request, lines[1..])
  }

  lemma LineStops(line: string, rest: string)
    requires IsLine(line)
    ensures var s := line + CRLF + rest;
            FindCRLF(s) == Some(|line|) && s[..|line|] == line && s[|line| + 2..] == rest
  {
    var s := line + CRLF + rest;
    forall j | 0 <= j < |line|
      ensures !CRLFAt(s, j)
    {
      assert !CRLFAt(line + CRLF, j);
      assert s[j] == (line + CRLF)[j] && s[j + 1] == (line + CRLF)[j + 1];
    }
    assert CRLFAt(s, |line|);
    FindCRLFIs(s, |line|);
  }

  lemma LineFound(s: string, k: nat)
    requires FindCRLF(s) == Some(k)
    ensures k + 2 <= |s| && IsLine(s[..k]) && s == s[..k] + CRLF + s[k + 2..]
  {
    var line := s[..k];
    forall j | 0 <= j < k
      ensures !CRLFAt(line + CRLF, j)
    {
      assert !CRLFAt(s, j);
      assert (line + CRLF)[j] == s[j] && (line + CRLF)[j + 1] == s[j + 1];
    }
  }

  lemma ColonLineGoesOn(r: Request, line: string, rest: string)
    ensures HeaderLine(r, line, rest).state == if Without(line, ':') then ExpectBody else ExpectHeaders
    ensures HeaderLine(r, line, rest).bytes == rest
    ensures HeaderLine(r, line, rest).request == HeaderLine(r, line, []).request
  {
    var colon := FindChar(line, ':');
    if colon < |line| {
      assert line[colon] == ':';
    }
  }

  /** A head of this form is accepted, with exactly the bytes behind it left over. */
  lemma {:induction false} HeadIsAccepted(r: Request, s: string, lines: seq<string>, last: string, rest: string)
    requires Head(s, lines, last, rest)
    ensures Parse(Context(ExpectHeaders, r, s)) == AfterHead(WithFields(r, lines), rest)
    decreases |lines|
  {
    if lines == [] {
      assert s == last + CRLF + rest;
      LineStops(last, rest);
      ColonLineGoesOn(r, last, rest);
    } else {
      var tail := Joined(lines[1..]) + (last + CRLF + rest);
      assert s == lines[0] + CRLF + tail;
      LineStops(lines[0], tail);
      ColonLineGoesOn(r, lines[0], tail);
      HeadIsAccepted(HeaderLine(r, lines[0], []).request, tail, lines[1..], last, rest);
    }
  }

  /** And nothing else is. */
  lemma {:induction false} AcceptedIsHead(r: Request, s: string) returns (lines: seq<string>, last: string, rest: string)
    requires Complete(Parse(Context(ExpectHeaders, r, s)))
    ensures Head(s, lines, last, rest)
    decreases |s|
  {
    var k := FindCRLF(s).value;
    var line, tail := s[..k], s[k + 2..];
    LineFound(s, k);
    ColonLineGoesOn(r, line, tail);
    if Without(line, ':') {
      lines, last, rest := [], line, tail;
    } else {
      lines, last, rest := AcceptedIsHead(HeaderLine(r, line, tail).request, tail);
      FieldLinesMore(line, lines);
      assert Joined([line] + lines) + (last + CRLF + rest) == line + CRLF + (Joined(lines) + (last + CRLF + rest)) by {
        assert ([line] + lines)[1..] == lines;
      }
      lines := [line] + lines;
    }
  }

  lemma FieldLinesMore(line: string, lines: seq<string>)
    requires IsLine(line) && !Without(line, ':') && FieldLines(lines)
    ensures FieldLines([line] + lines)
  {
  }

  /** The parts of a whole head, and the bytes behind it. */
  datatype Parts = Parts(m: Method, target: string, v: Version, lines: seq<string>, last: string, rest: string)

  predicate IsRequest(s: string, p: Parts) {
    var first := MethodString(p.m) + [' '] + (p.target + [' '] + VersionString(p.v));
    && GoodLine(first, p.m, p.target, p.v) && IsLine(first)
    && FieldLines(p.lines) && IsLine(p.last) && Without(p.last, ':')
    && s == first + CRLF + (Joined(p.lines) + (p.last + CRLF + p.rest))
  }

  lemma RequestIsAccepted(s: string, p: Parts)
    requires IsRequest(s, p)
    ensures Receive(FRESH, s) ==
            AfterHead(WithFields(SetTarget(EMPTY.(verb := p.m), p.target).(version := p.v), p.lines), p.rest)
  {
    var first := MethodString(p.m) + [' '] + (p.target + [' '] + VersionString(p.v));
    var tail := Joined(p.lines) + (p.last + CRLF + p.rest);
    assert [] + s == first + CRLF + tail;
    LineStops(first, tail);
    GoodLineIsAccepted(EMPTY, first, p.m, p.target, p.v);
    HeadIsAccepted(RequestLine(EMPTY, first).1, tail, p.lines, p.last, p.rest);
  }

  lemma AcceptedIsRequest(s: string) returns (p: Parts)
    requires Complete(Receive(FRESH, s))
    ensures IsRequest(s, p)
  {
    assert [] + s == s;
    var k := FindCRLF(s).value;
    LineFound(s, k);
    var m, target, v := AcceptedLineIsGood(EMPTY, s[..k]);
    var lines, last, rest := AcceptedIsHead(RequestLine(EMPTY, s[..k]).1, s[k + 2..]);
    p := Parts(m, target, v, lines, last, rest);
  }

  /** The parser takes bytes for a complete head exactly when they begin with a line of a known
      method, a target without spaces and a known version, any lines with a colon, and a line
      without. */
  lemma AcceptsExactly(s: string)
    ensures Complete(Receive(FRESH, s)) <==> exists p :: IsRequest(s, p)
  {
    if Complete(Receive(FRESH, s)) {
      var p := AcceptedIsRequest(s);
    }
    if p :| IsRequest(s, p) {
      RequestIsAccepted(s, p);
    }
  }
}
