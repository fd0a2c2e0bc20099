/** The parser as the source has it: a loop over a Buffer that drives `state_` and fills
    `request_`. */
module HttpContextObject {
  import opened Options
  import opened Text
  import opened HttpModel
  import opened NetBuffer

  /** addHeader's two trimming loops. */
  method TrimValue(s: string) returns (value: string)
    ensures value == Trim(s)
  {
    var colon := 0;
    while colon < |s| && IsSpace(s[colon])
      invariant 0 <= colon <= |s|
      invariant TrimLeft(s) == TrimLeft(s[colon..])
    {
      assert s[colon..][1..] == s[colon + 1..];
      colon := colon + 1;
    }
    value := s[colon..];
    while value != [] && IsSpace(value[|value| - 1])
      invariant TrimRight(value) == Trim(s)
      decreases |value|
    {
      value := value[..|value| - 1];
    }
  }

  class HttpContext {
    var state: State
    var request: Request

    constructor ()
      ensures state == ExpectRequestLine && request == EMPTY
    {
      state, request := ExpectRequestLine, EMPTY;
    }

    ghost function View(buf: Buffer): Context
      requires buf.Valid()
      reads this, buf, buf.data
    {
      Context(state, request, buf.Contents())
    }

    method ProcessHeaderLine(buf: Buffer, k: nat)
      requires buf.Valid() && state == ExpectHeaders && FindCRLF(buf.Contents()) == Some(k)
      modifies this, buf
      ensures buf.Valid() && buf.data == old(buf.data)
      ensures View(buf) == HeaderLine(old(request), old(buf.Contents())[..k], old(buf.Contents())[k + 2..])
    {
      var line := buf.data[buf.reader..buf.reader + k];
      assert line == buf.Contents()[..k];
      var colon := FindChar(line, ':');
      if colon < |line| {
        var value := TrimValue(line[colon + 1..]);
        request := request.(headers := request.headers[line[..colon] := value]);
      } else {
        state := ExpectBody;
      }
      buf.Retrieve(k + 2);
    }

    /** Leaves state, request and unread bytes as Parse does; the flag says whether this call met a
        good request line, and nothing else. The loop would not end on a complete request. */
    method ParseRequest(buf: Buffer) returns (ok: bool)
      requires buf.Valid() && state != GotAll
      modifies this, buf
      ensures buf.Valid() && buf.data == old(buf.data)
      ensures View(buf) == Parse(old(View(buf)))
      ensures ok <==> ReturnsOk(old(View(buf)))
    {
      ok := false;
      var hasMore := true;
      while hasMore
        invariant buf.Valid() && buf.data == old(buf.data)
        invariant hasMore ==> state != GotAll && Parse(View(buf)) == Parse(old(View(buf)))
        invariant !hasMore ==> View(buf) == Parse(old(View(buf)))
        invariant state == ExpectRequestLine && hasMore ==> !ok && View(buf) == old(View(buf))
        invariant state != ExpectRequestLine || !hasMore ==> (ok <==> ReturnsOk(old(View(buf))))
        decreases hasMore, |buf.Contents()|
      {
        ok, hasMore := OneRound(buf, ok);
      }
    }

    method ProcessRequestLine(buf: Buffer, k: nat) returns (ok: bool)
      requires buf.Valid() && state == ExpectRequestLine && FindCRLF(buf.Contents()) == Some(k)
      modifies this, buf
      ensures buf.Valid() && buf.data == old(buf.data)
      ensures var (good, r) := RequestLine(old(request), old(buf.Contents())[..k]);
              && ok == good
              && View(buf) == if good then Context(ExpectHeaders, r, old(buf.Contents())[k + 2..])
                              else Context(ExpectRequestLine, r, old(buf.Contents()))
    {
      var line := buf.data[buf.reader..buf.reader + k];
      assert line == buf.Contents()[..k];
      var (good, r) := RequestLine(request, line);
      ok, request := good, r;
      if ok {
        buf.Retrieve(k + 2);
        state := ExpectHeaders;
      }
    }

    /** One turn of the loop. */
    method OneRound(buf: Buffer, okBefore: bool) returns (ok: bool, hasMore: bool)
      requires buf.Valid() && state != GotAll
      modifies this, buf
      ensures buf.Valid() && buf.data == old(buf.data)
      ensures (View(buf), hasMore) == Round(old(View(buf)))
      ensures hasMore ==> state != GotAll && state != ExpectRequestLine
      ensures if old(state) == ExpectRequestLine && FindCRLF(old(buf.Contents())).Some?
              then ok == ReturnsOk(old(View(buf))) else ok == okBefore
    {
      ok, hasMore := okBefore, false;
      if state == ExpectRequestLine {
        var crlf := buf.FindLineEnd();
        if crlf.Some? {
          ok := ProcessRequestLine(buf, crlf.value);
          hasMore := ok;
        }
      } else if state == ExpectHeaders {
        var crlf := buf.FindLineEnd();
        if crlf.Some? {
          ProcessHeaderLine(buf, crlf.value);
          hasMore := true;
        }
      } else if request.verb != Post {
        state := GotAll;
      }
    }

    method Reset()
      modifies this
      ensures state == ExpectRequestLine && request == EMPTY
    {
      state, request := ExpectRequestLine, EMPTY;
    }
  }
}
