/** What a client is sent: the server's message handler (src/http/FileServer.cc) between the request
    parser and the connection. What a request is answered is a parameter. */
module ServerModel {
  import opened Options
  import opened HttpModel
  import HttpRoundTrip
  import ConnModel
  import Runs

  const BAD_REQUEST: string := "HTTP/1.1 400 Bad Request" + HttpRoundTrip.CRLF + HttpRoundTrip.CRLF

  /** The parser's context, the connection, the messages that have arrived, and whether the socket
      has answered a send that the connection is broken. */
  datatype Session = Session(context: Context, w: ConnModel.World, got: seq<string>, broken: bool)

  /** A session begins once the connection is established. */
  const BEGIN := Session(FRESH, ConnModel.Apply(ConnModel.START, ConnModel.Establish), [], false)

  function Header(r: Request, field: string): string {
    if field in r.headers then r.headers[field] else ""
  }

  /** Whether the response closes the connection. */
  predicate Closes(r: Request) {
    Header(r, "Connection") == "close" || (r.version.Http10? && Header(r, "Connection") != "Keep-Alive")
  }

  /** A message with write's answers to the two sends it can lead to, or an event of the socket. */
  datatype Event =
    | Message(chunk: string, refusal: ConnModel.WriteResult, reply: ConnModel.WriteResult)
    | WriteEvent(r: ConnModel.WriteResult)
    | CloseEvent

  /** Messages arrive as long as the connection reads. */
  predicate Enabled(answer: Request -> string, s: Session, e: Event) {
    match e
    case Message(chunk, refusal, reply) =>
      var o := OnMessage(s.context, chunk);
      && (s.w.conn.phase.Connected? || s.w.conn.phase.Disconnecting?)
      && ConnModel.Answers(refusal, |BAD_REQUEST|)
      && (o.served.Some? ==> ConnModel.Answers(reply, |answer(o.served.value)|))
    case WriteEvent(r) => ConnModel.Answers(r, |s.w.conn.out|)
    case CloseEvent => true
  }

  function Refuse(w: ConnModel.World, r: ConnModel.WriteResult): ConnModel.World
    requires ConnModel.Answers(r, |BAD_REQUEST|)
  {
    ConnModel.Apply(ConnModel.Apply(w, ConnModel.SendStep(BAD_REQUEST, r)), ConnModel.ShutdownStep)
  }

  function Respond(w: ConnModel.World, text: string, closes: bool, r: ConnModel.WriteResult): ConnModel.World
    requires ConnModel.Answers(r, |text|)
  {
    var w' := ConnModel.Apply(w, ConnModel.SendStep(text, r));
    if closes then ConnModel.Apply(w', ConnModel.ShutdownStep) else w'
  }

  /** onMessage: a refusal is sent and the connection shut down; a complete request is answered all
      the same. */
  function Advance(answer: Request -> string, s: Session, e: Event): Session
    requires Enabled(answer, s, e)
  {
    match e
    case Message(chunk, refusal, reply) =>
      var o := OnMessage(s.context, chunk);
      var w1 := if o.badRequest then Refuse(s.w, refusal) else s.w;
      var w2 := if o.served.Some? then Respond(w1, answer(o.served.value), Closes(o.served.value), reply) else w1;
      Session(o.context, w2, s.got + [chunk], s.broken || refusal.Broken? || reply.Broken?)
    case WriteEvent(r) => s.(w := ConnModel.Apply(s.w, ConnModel.WriteEvent(r)))
    case CloseEvent => s.(w := ConnModel.Apply(s.w, ConnModel.CloseEvent))
  }

  predicate Next(answer: Request -> string, s: Session, e: Event, s': Session) {
    Enabled(answer, s, e) && s' == Advance(answer, s, e)
  }

  ghost predicate IsRun(answer: Request -> string, events: seq<Event>, ss: seq<Session>) {
    Runs.IsRun(BEGIN, (s, e, s') => Next(answer, s, e, s'), events, ss)
  }

  // ---------------------------------------------------------------- what the client is sent

  /** After this outcome nothing more is sent. */
  predicate Final(o: Outcome) {
    o.badRequest || (o.served.Some? && Closes(o.served.value))
  }

  predicate Ended(outcomes: seq<Outcome>) {
    outcomes != [] && (Final(outcomes[0]) || Ended(outcomes[1..]))
  }

  function Reply(answer: Request -> string, o: Outcome): string {
    if o.badRequest then BAD_REQUEST else if o.served.Some? then answer(o.served.value) else []
  }

  /** The replies up to the first 400 or closing response. */
  function Replies(answer: Request -> string, outcomes: seq<Outcome>): string {
    if outcomes == [] then []
    else if Final(outcomes[0]) then Reply(answer, outcomes[0])
    else Reply(answer, outcomes[0]) + Replies(answer, outcomes[1..])
  }

  lemma {:induction false} ServeMore(c: Context, chunks: seq<string>, chunk: string)
    ensures Serve(c, chunks + [chunk]) == OnMessage(Serve(c, chunks), chunk).context
    decreases |chunks|
  {
    if chunks == [] {
      assert chunks + [chunk] == [chunk] && [chunk][1..] == [];
    } else {
      ServeMore(OnMessage(c, chunks[0]).context, chunks[1..], chunk);
      assert (chunks + [chunk])[1..] == chunks[1..] + [chunk];
    }
  }

  lemma {:induction false} OutcomesMore(c: Context, chunks: seq<string>, chunk: string)
    ensures Outcomes(c, chunks + [chunk]) == Outcomes(c, chunks) + [OnMessage(Serve(c, chunks), chunk)]
    decreases |chunks|
  {
    if chunks == [] {
      assert chunks + [chunk] == [chunk] && [chunk][1..] == [];
    } else {
      OutcomesMore(OnMessage(c, chunks[0]).context, chunks[1..], chunk);
      assert (chunks + [chunk])[1..] == chunks[1..] + [chunk];
    }
  }

  lemma {:induction false} OneMoreReply(answer: Request -> string, outcomes: seq<Outcome>, o: Outcome)
    ensures Replies(answer, outcomes + [o]) ==
            if Ended(outcomes) then Replies(answer, outcomes) else Replies(answer, outcomes) + Reply(answer, o)
    ensures Ended(outcomes + [o]) <==> Ended(outcomes) || Final(o)
    decreases |outcomes|
  {
    if outcomes == [] {
      FirstReply(answer, o);
      assert outcomes + [o] == [o];
    } else {
      OneMoreReply(answer, outcomes[1..], o);
      assert (outcomes + [o])[1..] == outcomes[1..] + [o];
    }
  }

  lemma FirstReply(answer: Request -> string, o: Outcome)
    ensures Replies(answer, [o]) == Reply(answer, o) && (Ended([o]) <==> Final(o))
  {
    assert [o][1..] == [];
    assert Reply(answer, o) + [] == Reply(answer, o);
  }

  /** What has been accepted for sending, and whether more can be. */
  predicate Sent(w: ConnModel.World, text: string, ended: bool, broken: bool) {
    && (broken || w.accepted == text)
    && (w.conn.phase.Connected? || w.conn.phase.Disconnecting? || w.conn.phase.Disconnected?)
    && (w.conn.phase.Connected? ==> !ended)
    && (w.conn.phase.Disconnecting? ==> ended)
  }

  ghost predicate Inv(answer: Request -> string, s: Session) {
    && s.context == Serve(FRESH, s.got)
    && Sent(s.w, Replies(answer, Outcomes(FRESH, s.got)), Ended(Outcomes(FRESH, s.got)), s.broken)
  }

  lemma RefuseSends(w: ConnModel.World, text: string, ended: bool, broken: bool, r: ConnModel.WriteResult)
    requires Sent(w, text, ended, broken) && ConnModel.Answers(r, |BAD_REQUEST|) && !w.conn.phase.Disconnected?
    ensures Sent(Refuse(w, r), if ended then text else text + BAD_REQUEST, true, broken || r.Broken?)
    ensures Refuse(w, r).conn.phase.Disconnecting?
  {
  }

  lemma RespondSends(w: ConnModel.World, sent: string, ended: bool, broken: bool, text: string, closes: bool, r: ConnModel.WriteResult)
    requires Sent(w, sent, ended, broken) && ConnModel.Answers(r, |text|) && !w.conn.phase.Disconnected?
    ensures Sent(Respond(w, text, closes, r), if ended then sent else sent + text, ended || closes, broken || r.Broken?)
  {
  }

  lemma MessageKeeps(answer: Request -> string, s: Session, e: Event)
    requires Inv(answer, s) && e.Message? && Enabled(answer, s, e)
    ensures Inv(answer, Advance(answer, s, e))
  {
    var outcomes, o := Outcomes(FRESH, s.got), OnMessage(s.context, e.chunk);
    ServeMore(FRESH, s.got, e.chunk);
    OutcomesMore(FRESH, s.got, e.chunk);
    OneMoreReply(answer, outcomes, o);
    var text, ended := Replies(answer, outcomes), Ended(outcomes);
    var w1 := if o.badRequest then Refuse(s.w, e.refusal) else s.w;
    var text1 := if o.badRequest && !ended then text + BAD_REQUEST else text;
    if o.badRequest {
      RefuseSends(s.w, text, ended, s.broken, e.refusal);
    }
    if o.served.Some? {
      var broken := s.broken || (o.badRequest && e.refusal.Broken?);
      RespondSends(w1, text1, ended || o.badRequest, broken, answer(o.served.value), Closes(o.served.value), e.reply);
    }
  }

  lemma SocketKeepsSent(w: ConnModel.World, text: string, ended: bool, broken: bool, r: ConnModel.WriteResult)
    requires Sent(w, text, ended, broken) && ConnModel.Answers(r, |w.conn.out|)
    ensures Sent(ConnModel.Apply(w, ConnModel.WriteEvent(r)), text, ended, broken)
    ensures Sent(ConnModel.Apply(w, ConnModel.CloseEvent), text, ended, broken)
  {
  }

  lemma SocketKeeps(answer: Request -> string, s: Session, e: Event)
    requires Inv(answer, s) && !e.Message? && Enabled(answer, s, e)
    ensures Inv(answer, Advance(answer, s, e))
  {
    var outcomes := Outcomes(FRESH, s.got);
    var r := if e.WriteEvent? then e.r else ConnModel.Refused;
    SocketKeepsSent(s.w, Replies(answer, outcomes), Ended(outcomes), s.broken, r);
  }

  lemma RunKeeps(answer: Request -> string, events: seq<Event>, ss: seq<Session>, n: nat)
    requires IsRun(answer, events, ss) && n < |ss|
    ensures Inv(answer, ss[n])
  {
    forall s, e, s' | Inv(answer, s) && Next(answer, s, e, s')
      ensures Inv(answer, s')
    {
      if e.Message? {
        MessageKeeps(answer, s, e);
      } else {
        SocketKeeps(answer, s, e);
      }
    }
    Runs.Invariant(BEGIN, (s, e, s') => Next(answer, s, e, s'), events, ss, (s: Session) => Inv(answer, s), n);
  }

  /** Over every run, unless the socket was broken: what has been accepted for sending is, for the
      messages so far, the replies up to the first 400 or closing response, and nothing of what is
      answered later. */
  lemma SendsUpToTheEnd(answer: Request -> string, events: seq<Event>, ss: seq<Session>, n: nat)
    requires IsRun(answer, events, ss) && n < |ss| && !ss[n].broken
    ensures ss[n].w.accepted == Replies(answer, Outcomes(FRESH, ss[n].got))
  {
    RunKeeps(answer, events, ss, n);
  }

  // ---------------------------------------------------------------- one good request

  lemma RefusedEarly(answer: Request -> string, outcomes: seq<Outcome>)
    requires |outcomes| >= 2 && outcomes[0].served.None? && (outcomes[0].badRequest || outcomes[1].badRequest)
    ensures Replies(answer, outcomes) == BAD_REQUEST
  {
    if !outcomes[0].badRequest {
      assert outcomes[1..][0] == outcomes[1];
    }
  }

  /** The client of a good request without a body is sent its answer exactly when the request came in
      one message. Cut in any way, it is sent the 400 and nothing else, although the request is
      completed and answered. */
  lemma CutRequestGetsOnlyTheRefusal(answer: Request -> string, events: seq<Event>, ss: seq<Session>, n: nat, m: HttpRoundTrip.Message)
    requires IsRun(answer, events, ss) && n < |ss| && !ss[n].broken
    requires HttpRoundTrip.WellFormed(m) && !m.verb.Post? && Flatten(ss[n].got) == HttpRoundTrip.Print(m)
    requires forall i :: 0 <= i < |ss[n].got| ==> ss[n].got[i] != []
    ensures ss[n].w.accepted == if |ss[n].got| == 1 then answer(HttpRoundTrip.Denotes(m)) else BAD_REQUEST
  {
    var got := ss[n].got;
    SendsUpToTheEnd(answer, events, ss, n);
    HttpRoundTrip.OnlyUncutIsAccepted(m, got);
    var outcomes := Outcomes(FRESH, got);
    if |got| == 1 {
      FirstReply(answer, outcomes[0]);
      assert outcomes == [outcomes[0]];
    } else {
      HttpRoundTrip.CutIsRefused(m, got);
      RefusedEarly(answer, outcomes);
    }
  }

  /** The connection of such a request is kept open exactly when it came in one message and does not
      ask for closing: HTTP/1.1 without `Connection: close`, or HTTP/1.0 with `Connection: Keep-Alive`. */
  lemma KeptOpenIff(answer: Request -> string, events: seq<Event>, ss: seq<Session>, n: nat, m: HttpRoundTrip.Message)
    requires IsRun(answer, events, ss) && n < |ss| && !ss[n].w.conn.phase.Disconnected?
    requires HttpRoundTrip.WellFormed(m) && !m.verb.Post? && Flatten(ss[n].got) == HttpRoundTrip.Print(m)
    requires forall i :: 0 <= i < |ss[n].got| ==> ss[n].got[i] != []
    ensures ss[n].w.conn.phase.Connected? <==>
              && |ss[n].got| == 1
              && var fields := HttpRoundTrip.HeaderMap(map[], m.fields);
                 if m.version.Http10? then "Connection" in fields && fields["Connection"] == "Keep-Alive"
                 else !("Connection" in fields && fields["Connection"] == "close")
  {
    var got := ss[n].got;
    RunKeeps(answer, events, ss, n);
    HttpRoundTrip.OnlyUncutIsAccepted(m, got);
    var outcomes := Outcomes(FRESH, got);
    if |got| == 1 {
      FirstReply(answer, outcomes[0]);
      assert outcomes == [outcomes[0]];
    } else {
      HttpRoundTrip.CutIsRefused(m, got);
      EndedEarly(outcomes);
    }
  }

  lemma EndedEarly(outcomes: seq<Outcome>)
    requires |outcomes| >= 2 && (outcomes[0].badRequest || outcomes[1].badRequest)
    ensures Ended(outcomes)
  {
    assert outcomes[1..][0] == outcomes[1];
  }

  predicate Open(s: Session) {
    !s.broken && (s.w.conn.phase.Connected? || s.w.conn.phase.Disconnecting?)
  }

  lemma MessageArrives(answer: Request -> string, s: Session, chunk: string)
    requires Open(s)
    ensures var e := Message(chunk, ConnModel.Refused, ConnModel.Refused);
            && Enabled(answer, s, e)
            && Open(Advance(answer, s, e)) && Advance(answer, s, e).got == s.got + [chunk]
  {
  }

  /** Any messages can arrive, even if the socket takes nothing. */
  lemma {:induction false} AnyMessagesArrive(answer: Request -> string, chunks: seq<string>) returns (events: seq<Event>, ss: seq<Session>)
    ensures IsRun(answer, events, ss) && ss[|ss| - 1].got == chunks && Open(ss[|ss| - 1])
    decreases |chunks|
  {
    if chunks == [] {
      events, ss := [], [BEGIN];
    } else {
      var n := |chunks| - 1;
      events, ss := AnyMessagesArrive(answer, chunks[..n]);
      var s, e := ss[|ss| - 1], Message(chunks[n], ConnModel.Refused, ConnModel.Refused);
      MessageArrives(answer, s, chunks[n]);
      var s' := Advance(answer, s, e);
      Runs.Extend(BEGIN, (s, e, s') => Next(answer, s, e, s'), events, ss, e, s');
      events, ss := events + [e], ss + [s'];
      assert chunks[..n] + [chunks[n]] == chunks;
    }
  }
}
