/** The incremental HTTP request parser as a function on values (src/http/HttpContext.cc,
    src/http/HttpRequest.h): the parse state, the request so far, and the unread bytes. */
module HttpModel {
  import opened Options
  import opened Text

  datatype Method = Invalid | Get | Post | Head | Put | Delete
  datatype Version = Unknown | Http10 | Http11

  datatype Request = Request(verb: Method, version: Version, path: string, query: string, headers: map<string, string>)

  const EMPTY := Request(Invalid, Unknown, "", "", map[])

  datatype State = ExpectRequestLine | ExpectHeaders | ExpectBody | GotAll

  datatype Context = Context(state: State, request: Request, bytes: string)

  const FRESH := Context(ExpectRequestLine, EMPTY, [])

  // ---------------------------------------------------------------- one line

  function MethodOf(s: string): Method {
    if s == "GET" then Get
    else if s == "POST" then Post
    else if s == "HEAD" then Head
    else if s == "PUT" then Put
    else if s == "DELETE" then Delete
    else Invalid
  }

  function SetTarget(r: Request, target: string): Request {
    var q := FindChar(target, '?');
    if q < |target| then r.(path := target[..q], query := target[q..]) else r.(path := target)
  }

  function VersionOf(s: string): Version {
    if |s| == 8 && s[..7] == "HTTP/1." then
      if s[7] == '1' then Http11 else if s[7] == '0' then Http10 else Unknown
    else Unknown
  }

  /** processRequestLine: whether the line was good, and the request as far as it was filled. */
  function RequestLine(r: Request, line: string): (bool, Request) {
    var space := FindChar(line, ' ');
    if space == |line| then (false, r)
    else
      var r1 := r.(verb := MethodOf(line[..space]));
      if r1.verb.Invalid? then (false, r1)
      else
        var rest := line[space + 1..];
        var space2 := FindChar(rest, ' ');
        if space2 == |rest| then (false, r1)
        else
          var r2 := SetTarget(r1, rest[..space2]);
          var version := VersionOf(rest[space2 + 1..]);
          if version.Unknown? then (false, r2) else (true, r2.(version := version))
  }

  /** C's isspace in the default locale. */
  predicate IsSpace(c: char) {
    c == ' ' || c == '\t' || c == '\n' || c == '\r' || c == 11 as char || c == 12 as char
  }

  function TrimLeft(s: string): string {
    if s != [] && IsSpace(s[0]) then TrimLeft(s[1..]) else s
  }

  function TrimRight(s: string): string {
    if s != [] && IsSpace(s[|s| - 1]) then TrimRight(s[..|s| - 1]) else s
  }

  function Trim(s: string): string {
    TrimRight(TrimLeft(s))
  }

  function AddHeader(r: Request, line: string, colon: nat): Request
    requires colon < |line|
  {
    r.(headers := r.headers[line[..colon] := Trim(line[colon + 1..])])
  }

  // ---------------------------------------------------------------- the loop

  /** One round of parseRequest's loop, and whether there is another. A POST stops at its body,
      which belongs to the body parser. No branch is meant for a complete request: the round does
      nothing and does not end the loop. */
  function Round(c: Context): (r: (Context, bool))
    ensures r.1 && !c.state.GotAll? ==> |r.0.bytes| < |c.bytes| && !r.0.state.GotAll?
  {
    match c.state
    case ExpectRequestLine =>
      (match FindCRLF(c.bytes)
       case None => (c, false)
       case Some(k) =>
         var (ok, r) := RequestLine(c.request, c.bytes[..k]);
         if ok then (Context(ExpectHeaders, r, c.bytes[k + 2..]), true) else (c.(request := r), false))
    case ExpectHeaders =>
      (match FindCRLF(c.bytes)
       case None => (c, false)
       case Some(k) => (HeaderLine(c.request, c.bytes[..k], c.bytes[k + 2..]), true))
    case ExpectBody => (if c.request.verb.Post? then c else c.(state := GotAll), false)
    case GotAll => (c, true)
  }

  /** A line without a colon ends the headers. */
  function HeaderLine(r: Request, line: string, rest: string): Context {
    var colon := FindChar(line, ':');
    if colon < |line| then Context(ExpectHeaders, AddHeader(r, line, colon), rest)
    else Context(ExpectBody, r, rest)
  }

  /** What the loop leaves, unless it is entered with a complete request. */
  function Parse(c: Context): Context
    decreases |c.bytes|
  {
    if c.state.GotAll? then c
    else
      var (d, hasMore) := Round(c);
      if hasMore then Parse(d) else d
  }

  /** The result of the loop if it ends within n rounds. */
  function Loop(c: Context, n: nat): Option<Context>
    decreases n
  {
    if n == 0 then None
    else
      var (d, hasMore) := Round(c);
      if hasMore then Loop(d, n - 1) else Some(d)
  }

  lemma {:induction false} LoopIsParse(c: Context, n: nat)
    ensures if c.state.GotAll? then Loop(c, n).None?
            else Loop(c, n).Some? ==> Loop(c, n) == Some(Parse(c))
    decreases n
  {
    if n > 0 && Round(c).1 {
      LoopIsParse(Round(c).0, n - 1);
    }
  }

  lemma {:induction false} LoopEndsInTime(c: Context)
    requires !c.state.GotAll?
    ensures Loop(c, |c.bytes| + 1) == Some(Parse(c))
    decreases |c.bytes|
  {
    if Round(c).1 {
      LoopEndsInTime(Round(c).0);
      LoopGoesOn(Round(c).0, |Round(c).0.bytes| + 1, |c.bytes|);
    }
  }

  lemma {:induction false} LoopGoesOn(c: Context, n: nat, m: nat)
    requires n <= m && Loop(c, n).Some?
    ensures Loop(c, m) == Loop(c, n)
    decreases n
  {
    if Round(c).1 {
      LoopGoesOn(Round(c).0, n - 1, m - 1);
    }
  }

  /** The loop ends exactly when it is not entered with a complete request, and then it leaves what
      Parse says. */
  lemma LoopEndsIff(c: Context)
    ensures (exists n: nat :: Loop(c, n).Some?) <==> !c.state.GotAll?
    ensures forall n: nat :: Loop(c, n).Some? ==> Loop(c, n) == Some(Parse(c))
  {
    forall n: nat
      ensures if c.state.GotAll? then Loop(c, n).None? else Loop(c, n).Some? ==> Loop(c, n) == Some(Parse(c))
    {
      LoopIsParse(c, n);
    }
    if !c.state.GotAll? {
      LoopEndsInTime(c);
    }
  }

  /** The parser is done with the head of the request. */
  predicate Complete(c: Context) {
    c.state.GotAll? || c.state.ExpectBody?
  }

  /** Bytes arrive; a request that is complete is left alone. */
  function Receive(c: Context, chunk: string): Context {
    var d := c.(bytes := c.bytes + chunk);
    if Complete(c) then d else Parse(d)
  }

  function Feed(c: Context, chunks: seq<string>): Context
    decreases |chunks|
  {
    if chunks == [] then c else Feed(Receive(c, chunks[0]), chunks[1..])
  }

  function Flatten(chunks: seq<string>): string {
    if chunks == [] then [] else chunks[0] + Flatten(chunks[1..])
  }

  // ---------------------------------------------------------------- any split is the same

  /** Parsing a bad request line again changes nothing more. */
  lemma RequestLineIsIdempotent(r: Request, line: string)
    ensures RequestLine(RequestLine(r, line).1, line) == RequestLine(r, line)
  {
  }

  lemma LineIsStable(s: string, t: string)
    requires FindCRLF(s).Some?
    ensures var k := FindCRLF(s).value;
            && FindCRLF(s + t) == Some(k)
            && (s + t)[..k] == s[..k]
            && (s + t)[k + 2..] == s[k + 2..] + t
  {
    CRLFIsStable(s, t);
  }

  /** A round that goes on does not depend on the bytes behind the line it used. */
  lemma RoundIsStable(c: Context, more: string)
    requires Round(c).1
    ensures Round(c.(bytes := c.bytes + more)) ==
            (Round(c).0.(bytes := Round(c).0.bytes + more), true)
  {
    if !c.state.GotAll? {
      LineIsStable(c.bytes, more);
    }
  }

  /** A round that stops short of completing the request can be taken up again. */
  lemma StopCanResume(c: Context, more: string)
    requires !Round(c).1
    ensures var d := Round(c).0;
            if Complete(d) then Round(c.(bytes := c.bytes + more)) == (d.(bytes := d.bytes + more), false)
            else Round(d.(bytes := d.bytes + more)) == Round(c.(bytes := c.bytes + more))
  {
    if c.state.ExpectRequestLine? && FindCRLF(c.bytes).Some? {
      LineIsStable(c.bytes, more);
      RequestLineIsIdempotent(c.request, c.bytes[..FindCRLF(c.bytes).value]);
    }
  }

  /** Bytes that arrive after a parse lead to the same place as if they had been there before. */
  lemma {:induction false} ParseInTwo(c: Context, more: string)
    ensures var d := Parse(c);
            Parse(c.(bytes := c.bytes + more)) ==
            if Complete(d) then d.(bytes := d.bytes + more) else Parse(d.(bytes := d.bytes + more))
    decreases |c.bytes|
  {
    if c.state.GotAll? {
    } else if Round(c).1 {
      RoundIsStable(c, more);
      ParseInTwo(Round(c).0, more);
    } else {
      StopCanResume(c, more);
    }
  }

  lemma ReceiveInTwo(c: Context, chunk: string, more: string)
    ensures Receive(Receive(c, chunk), more) == Receive(c, chunk + more)
  {
    assert c.bytes + chunk + more == c.bytes + (chunk + more);
    if !Complete(c) {
      ParseInTwo(c.(bytes := c.bytes + chunk), more);
    }
  }

  /** Feeding the bytes in any non-empty split gives the same state, request and unread bytes as
      feeding them at once, up to the first complete request; a bad line is simply retried. */
  lemma {:induction false} AnySplitIsTheSame(c: Context, chunks: seq<string>)
    requires chunks != []
    ensures Feed(c, chunks) == Receive(c, Flatten(chunks))
    decreases |chunks|
  {
    var first, rest := chunks[0], chunks[1..];
    if rest == [] {
      assert Flatten(chunks) == first + [] == first;
    } else {
      AnySplitIsTheSame(Receive(c, first), rest);
      ReceiveInTwo(c, first, Flatten(rest));
    }
  }

  // ---------------------------------------------------------------- what parseRequest returns

  /** The returned flag starts at false and is set only by a request line of this very call. */
  predicate ReturnsOk(c: Context) {
    && c.state.ExpectRequestLine?
    && FindCRLF(c.bytes).Some?
    && RequestLine(c.request, c.bytes[..FindCRLF(c.bytes).value]).0
  }

  /** onMessage: whether it answers 400, the request it serves, and the context it leaves. */
  datatype Outcome = Outcome(badRequest: bool, served: Option<Request>, context: Context)

  function OnMessage(c: Context, chunk: string): Outcome {
    var c' := c.(bytes := c.bytes + chunk);
    var d := Parse(c');
    if d.state.GotAll? then Outcome(!ReturnsOk(c'), Some(d.request), Context(ExpectRequestLine, EMPTY, d.bytes))
    else Outcome(!ReturnsOk(c'), None, d)
  }

  /** The outcomes of a sequence of messages. */
  function Outcomes(c: Context, chunks: seq<string>): (r: seq<Outcome>)
    ensures |r| == |chunks|
    decreases |chunks|
  {
    if chunks == [] then []
    else [OnMessage(c, chunks[0])] + Outcomes(OnMessage(c, chunks[0]).context, chunks[1..])
  }

  function Serve(c: Context, chunks: seq<string>): Context
    decreases |chunks|
  {
    if chunks == [] then c else Serve(OnMessage(c, chunks[0]).context, chunks[1..])
  }

  lemma {:induction false} NeverEnteredComplete(c: Context, chunks: seq<string>)
    requires !c.state.GotAll?
    ensures !Serve(c, chunks).state.GotAll?
    decreases |chunks|
  {
    if chunks != [] {
      NeverEnteredComplete(OnMessage(c, chunks[0]).context, chunks[1..]);
    }
  }

  /** Whatever messages a connection has had, the loop over the next one ends. */
  lemma NeverSpins(chunks: seq<string>, chunk: string)
    ensures var c := Serve(FRESH, chunks);
            exists n: nat :: Loop(c.(bytes := c.bytes + chunk), n).Some?
  {
    NeverEnteredComplete(FRESH, chunks);
    var c := Serve(FRESH, chunks);
    LoopEndsIff(c.(bytes := c.bytes + chunk));
  }

  lemma {:induction false} NeverBackToTheLine(c: Context)
    requires !c.state.ExpectRequestLine?
    ensures !Parse(c).state.ExpectRequestLine?
    decreases |c.bytes|
  {
    if !c.state.GotAll? && Round(c).1 {
      NeverBackToTheLine(Round(c).0);
    }
  }

  /** Of two messages the second of which still belongs to the request of the first, one is answered
      400: the first if it does not hold a good request line, and the second if it does. */
  lemma OneOfTwoIsRefused(chunks: seq<string>)
    requires |chunks| >= 2 && !Complete(Receive(FRESH, chunks[0]))
    ensures Outcomes(FRESH, chunks)[0].badRequest || Outcomes(FRESH, chunks)[1].badRequest
  {
    var c := FRESH.(bytes := FRESH.bytes + chunks[0]);
    if ReturnsOk(c) {
      NeverBackToTheLine(Round(c).0);
      var d := OnMessage(FRESH, chunks[0]).context;
      assert Outcomes(FRESH, chunks)[1] == OnMessage(d, chunks[1]);
    }
  }

  /** A request that becomes complete with the last byte of the last message is served then, and
      not before. */
  lemma {:induction false} ServedAtTheEnd(c: Context, chunks: seq<string>, r: Request)
    requires !Complete(c) && chunks != [] && forall i :: 0 <= i < |chunks| ==> chunks[i] != []
    requires Receive(c, Flatten(chunks)) == Context(GotAll, r, [])
    ensures var n := |chunks| - 1;
            && Outcomes(c, chunks)[n].served == Some(r) && Outcomes(c, chunks)[n].context == FRESH
            && forall i :: 0 <= i < n ==> Outcomes(c, chunks)[i].served.None?
    decreases |chunks|
  {
    var first, rest := chunks[0], chunks[1..];
    if rest == [] {
      assert Flatten(chunks) == first + [] == first;
    } else {
      NotYetComplete(c, first, Flatten(rest));
      assert Flatten(rest) == rest[0] + Flatten(rest[1..]);
      ServedAtTheEnd(Receive(c, first), rest, r);
    }
  }

  /** While bytes of the request are missing it is not complete. */
  lemma NotYetComplete(c: Context, chunk: string, more: string)
    requires !Complete(c) && Receive(c, chunk + more).bytes == []
    ensures Receive(Receive(c, chunk), more) == Receive(c, chunk + more)
    ensures more != [] ==> !Complete(Receive(c, chunk))
  {
    ReceiveInTwo(c, chunk, more);
  }
}
