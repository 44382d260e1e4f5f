/**
 * The request handler `Handler.do_ALL`: the method filter, then a 405, a bare `HEAD` answer,
 * or a 200 whose body reflects the request line, the header block and the request body.
 */
module Reflector {
  import opened Wrappers
  import opened Bytes
  import opened PyStr
  import opened Methods

  /** The two module-level policy sets, each `None` when unrestricted. */
  datatype Policy = Policy(allowed: Option<set<string>>, disallowed: Option<set<string>>)

  /**
   * What `do_ALL` reads from the parsed request: the command as received, the request line,
   * the header block as `bytes(self.headers)` renders it, the value of the Content-Length
   * header if there is one, and the bytes the peer sends after the headers.
   */
  datatype Request = Request(
    command: string,
    requestLine: string,
    headerBlock: seq<byte>,
    contentLength: Option<string>,
    stream: seq<byte>)

  type Header = (string, string)

  /** The status code, the headers `do_ALL` adds (in order) and the bytes written to `wfile`. */
  datatype Response = Response(status: int, headers: seq<Header>, body: seq<byte>)

  /**
   * Why the handler fails before any header is flushed: `int()` rejects the Content-Length
   * value (line 68), `rfile.read` refuses a length above `sys.maxsize` with `OverflowError`
   * (line 70), or `str` refuses to render a body length of more than `MaxStrDigits` digits
   * (line 74).
   */
  datatype Failure =
    | NotAnInteger(value: string)
    | ReadTooLarge(length: int)
    | LengthTooLong(length: int)

  /** The handler either answers or raises. */
  datatype Outcome = Sent(response: Response) | Raised(failure: Failure)

  const OK: int := 200
  const MethodNotAllowed: int := 405

  /** `sys.maxsize` on a 64-bit platform: the largest length `rfile.read` accepts. */
  const MaxSize: int := 0x7FFF_FFFF_FFFF_FFFF

  /** `b'Hello HTTP\n\n'`. */
  const Greeting: seq<byte> := [72, 101, 108, 108, 111, 32, 72, 84, 84, 80, 10, 10]

  const ContentType: Header := ("Content-Type", "text/plain")

  /** `int(self.headers.get('Content-Length', 0))`: the default `0` when the header is missing. */
  function DeclaredLength(contentLength: Option<string>): Option<int> {
    match contentLength
    case None => Some(0)
    case Some(v) => ParseInt(v)
  }

  /**
   * `self.rfile.read(n)` for a positive `n`: up to `n` bytes, fewer when the peer closes the
   * stream first; `None` for the `OverflowError` raised when `n` exceeds `sys.maxsize`.
   * A failure to allocate the `n`-byte result is not modelled.
   */
  function Read(stream: seq<byte>, n: int): (r: Option<seq<byte>>)
    requires n > 0
    ensures r.None? <==> n > MaxSize
    ensures r.Some? ==> |r.value| <= n && |r.value| <= |stream| && r.value == stream[..|r.value|]
    ensures r.Some? ==> |r.value| == n || r.value == stream
  {
    if n > MaxSize then None
    else if n <= |stream| then Some(stream[..n])
    else Some(stream)
  }

  /** The request body echoed back: read only when the declared length is positive. */
  function Echoed(stream: seq<byte>, n: int): Option<seq<byte>> {
    if n > 0 then Read(stream, n) else Some([])
  }

  /** What is written before the request body: greeting, encoded request line, newline, header block. */
  function Prologue(req: Request): seq<byte> {
    Greeting + Utf8Encode(req.requestLine) + [10] + req.headerBlock
  }

  /**
   * The request stays within the limits of the builtins the handler calls: the Content-Length
   * is an integer `int()` accepts, it is not above `sys.maxsize` when positive, and the body
   * length has a decimal form `str` accepts.
   */
  predicate WithinLimits(req: Request) {
    match DeclaredLength(req.contentLength)
    case None => false
    case Some(n) =>
      match Echoed(req.stream, n)
      case None => false
      case Some(echo) => StrFits(|Prologue(req) + echo|)
  }

  /** The outcome of `do_ALL` for a request under a policy. */
  function Reflect(policy: Policy, req: Request): Outcome {
    if Rejected(req.command, policy.allowed, policy.disallowed) then
      Sent(Response(MethodNotAllowed, [], []))
    else if req.command == "HEAD" then
      Sent(Response(OK, [ContentType], []))
    else
      match DeclaredLength(req.contentLength)
      case None => Raised(NotAnInteger(req.contentLength.value))
      case Some(n) =>
        match Echoed(req.stream, n)
        case None => Raised(ReadTooLarge(n))
        case Some(echo) =>
          var body := Prologue(req) + echo;
          if !StrFits(|body|) then Raised(LengthTooLong(|body|))
          else Sent(Response(OK, [ContentType, ("Content-Length", Decimal(|body|))], body))
  }

  /** `io.BytesIO`: a byte buffer that only grows by writes. */
  class BytesIO {
    var contents: seq<byte>

    constructor ()
      ensures contents == []
    {
      contents := [];
    }

    method Write(b: seq<byte>)
      modifies this
      ensures contents == old(contents) + b
    {
      contents := contents + b;
    }

    function GetValue(): seq<byte>
      reads this
    {
      contents
    }
  }

  /** `do_ALL`: the filter, then the response built by appending to a byte buffer. */
  method DoAll(policy: Policy, req: Request) returns (outcome: Outcome)
    ensures outcome == Reflect(policy, req)
  {
    if Rejected(req.command, policy.allowed, policy.disallowed) {
      return Sent(Response(MethodNotAllowed, [], []));
    }
    var headers := [ContentType];
    if req.command == "HEAD" {
      return Sent(Response(OK, headers, []));
    }
    var out := new BytesIO();
    out.Write(Greeting);
    out.Write(Utf8Encode(req.requestLine));
    out.Write([10]);
    out.Write(req.headerBlock);
    ghost var prologue := out.contents;
    assert prologue == Prologue(req);
    var length := DeclaredLength(req.contentLength);
    if length.None? {
      return Raised(NotAnInteger(req.contentLength.value));
    }
    if length.value > 0 {
      var chunk := Read(req.stream, length.value);
      if chunk.None? {
        return Raised(ReadTooLarge(length.value));
      }
      out.Write(chunk.value);
    }
    var body := out.GetValue();
    assert body == prologue + Echoed(req.stream, length.value).value;
    if !StrFits(|body|) {
      return Raised(LengthTooLong(|body|));
    }
    headers := headers + [("Content-Length", Decimal(|body|))];
    return Sent(Response(OK, headers, body));
  }

  /** A request is answered with a bare 405 exactly when the filter rejects it. */
  lemma RejectedIs405(policy: Policy, req: Request)
    ensures Rejected(req.command, policy.allowed, policy.disallowed)
        <==> Reflect(policy, req) == Sent(Response(MethodNotAllowed, [], []))
  {
  }

  /** An admitted `HEAD` gets 200 with only Content-Type: no Content-Length, no body. */
  lemma HeadHasNoBody(policy: Policy, req: Request)
    requires !Rejected(req.command, policy.allowed, policy.disallowed) && req.command == "HEAD"
    ensures Reflect(policy, req) == Sent(Response(OK, [ContentType], []))
    ensures forall h :: h in Reflect(policy, req).response.headers ==> h.0 != "Content-Length"
  {
  }

  /**
   * The handler fails exactly for an admitted non-`HEAD` request outside the limits, and each
   * failure has its own cause: a Content-Length `int()` rejects, a length above `sys.maxsize`,
   * or a body length too long for `str`.
   */
  lemma RaisedCases(policy: Policy, req: Request)
    ensures Reflect(policy, req).Raised? <==>
      && !Rejected(req.command, policy.allowed, policy.disallowed)
      && req.command != "HEAD"
      && !WithinLimits(req)
    ensures (Reflect(policy, req).Raised? && Reflect(policy, req).failure.NotAnInteger?) <==>
      && !Rejected(req.command, policy.allowed, policy.disallowed)
      && req.command != "HEAD"
      && req.contentLength.Some?
      && ParseInt(req.contentLength.value).None?
    ensures (Reflect(policy, req).Raised? && Reflect(policy, req).failure.ReadTooLarge?) <==>
      && !Rejected(req.command, policy.allowed, policy.disallowed)
      && req.command != "HEAD"
      && DeclaredLength(req.contentLength).Some?
      && DeclaredLength(req.contentLength).value > MaxSize
  {
  }

  /** An admitted non-`HEAD` request is answered, always with 200, exactly when it is within the limits. */
  lemma AdmittedIsOk(policy: Policy, req: Request)
    requires !Rejected(req.command, policy.allowed, policy.disallowed) && req.command != "HEAD"
    ensures Reflect(policy, req).Sent? <==> WithinLimits(req)
    ensures Reflect(policy, req).Sent? ==> Reflect(policy, req).response.status == OK
  {
  }

  /** The Content-Length header sent reads back, with `int()`, as the exact number of body bytes. */
  lemma ContentLengthIsBodyLength(policy: Policy, req: Request)
    requires Reflect(policy, req).Sent? && Reflect(policy, req).response.status == OK
    requires req.command != "HEAD"
    ensures var r := Reflect(policy, req).response;
      && |r.headers| == 2 && r.headers[0] == ContentType && r.headers[1].0 == "Content-Length"
      && ParseInt(r.headers[1].1) == Some(|r.body|)
  {
    var r := Reflect(policy, req).response;
    DecimalRoundTrip(|r.body|);
  }

  /**
   * The body of an admitted non-`HEAD` request starts with the greeting, then the encoded
   * request line, a newline and the header block; the rest is a prefix of the request body,
   * exactly as long as the declared length when that many bytes arrive and empty when the
   * declared length is not positive.
   */
  lemma BodyReflectsRequest(policy: Policy, req: Request)
    requires Reflect(policy, req).Sent? && Reflect(policy, req).response.status == OK
    requires req.command != "HEAD"
    ensures var body := Reflect(policy, req).response.body;
      var n := DeclaredLength(req.contentLength).value;
      var head := Greeting + Utf8Encode(req.requestLine) + [10] + req.headerBlock;
      && n <= MaxSize
      && |head| <= |body| && body[..|head|] == head
      && body[..|Greeting|] == Greeting
      && var rest := body[|head|..];
      && rest == req.stream[..|rest|]
      && (n <= 0 ==> rest == [])
      && (n > 0 ==> |rest| <= n && (|rest| == n || rest == req.stream))
      && (0 < n <= |req.stream| ==> rest == req.stream[..n])
  {
    var body := Reflect(policy, req).response.body;
    var n := DeclaredLength(req.contentLength).value;
    var head := Prologue(req);
    assert body == head + Echoed(req.stream, n).value;
    assert body[..|head|] == head;
    assert body[|head|..] == Echoed(req.stream, n).value;
    assert head[..|Greeting|] == Greeting;
  }

  /** The `HEAD` test is case-sensitive like the filter: an admitted `head` is answered with a body. */
  lemma LowerCaseHeadGetsBody(policy: Policy, req: Request)
    requires req.command == "head" && !Rejected(req.command, policy.allowed, policy.disallowed)
    requires WithinLimits(req)
    ensures Reflect(policy, req).Sent? && |Reflect(policy, req).response.headers| == 2
    ensures |Reflect(policy, req).response.body| >= |Greeting|
  {
    assert req.command[0] != "HEAD"[0];
  }

  /** A body that small (below 10000 bytes) has a decimal length `str` accepts. */
  lemma SmallBodyFits(req: Request, echo: seq<byte>)
    requires 4 * |req.requestLine| + |req.headerBlock| + |echo| < 9000
    ensures StrFits(|Prologue(req) + echo|)
  {
    assert Pow10(4) == 10000;
    StrFitsBelow(|Prologue(req) + echo|, 4);
  }

  /** A `GET` without restrictions or body: 200, text/plain, and the greeting followed by the request line. */
  lemma GetExample(req: Request)
    requires req.command == "GET" && req.contentLength == None
    requires |req.requestLine| + |req.headerBlock| < 2000
    ensures Reflect(Policy(None, None), req).Sent?
    ensures Reflect(Policy(None, None), req).response.status == OK
    ensures Reflect(Policy(None, None), req).response.headers[0] == ContentType
    ensures Reflect(Policy(None, None), req).response.body
        == Greeting + Utf8Encode(req.requestLine) + [10] + req.headerBlock
  {
    assert req.command[0] != "HEAD"[0];
    SmallBodyFits(req, []);
    assert Prologue(req) + [] == Prologue(req);
  }

  /** When the whole declared body arrives within the limits, the response body ends with exactly that body. */
  lemma BodyEndsWithRequestBody(policy: Policy, req: Request)
    requires !Rejected(req.command, policy.allowed, policy.disallowed) && req.command != "HEAD"
    requires DeclaredLength(req.contentLength) == Some(|req.stream|) && WithinLimits(req)
    ensures var o := Reflect(policy, req);
      && o.Sent? && o.response.status == OK
      && |o.response.body| >= |req.stream|
      && o.response.body[|o.response.body| - |req.stream|..] == req.stream
  {
    AdmittedIsOk(policy, req);
    BodyReflectsRequest(policy, req);
    assert req.stream[..|req.stream|] == req.stream;
  }

  /** A `POST` with a three-byte body and `Content-Length: 3` is answered with 200. */
  lemma PostThreeBytes(req: Request)
    requires req.command == "POST" && req.contentLength == Some("3") && |req.stream| == 3
    requires |req.requestLine| + |req.headerBlock| < 2000
    ensures var o := Reflect(Policy(None, None), req);
      && o.Sent? && o.response.status == OK
      && |o.response.body| >= 3 && o.response.body[|o.response.body| - 3..] == req.stream
  {
    assert DeclaredLength(req.contentLength) == Some(|req.stream|) by { ParseIntThree(); }
    assert Echoed(req.stream, 3) == Some(req.stream) by { assert req.stream[..3] == req.stream; }
    SmallBodyFits(req, req.stream);
    assert !Rejected(req.command, None, None) && req.command != "HEAD" by {
      assert req.command[0] != "HEAD"[0];
    }
    BodyEndsWithRequestBody(Policy(None, None), req);
  }

  /** A `POST` with body `abc` and `Content-Length: 3`: the response body ends with exactly `abc`. */
  lemma PostExample(req: Request)
    requires req.command == "POST" && req.contentLength == Some("3") && req.stream == [97, 98, 99]
    requires |req.requestLine| + |req.headerBlock| < 2000
    ensures var o := Reflect(Policy(None, None), req);
      && o.Sent? && o.response.status == OK
      && |o.response.body| >= 3 && o.response.body[|o.response.body| - 3..] == [97, 98, 99]
  {
    PostThreeBytes(req);
  }

  /** `Content-Length: 9223372036854775808` (`sys.maxsize + 1`) is an integer, but too large to read. */
  lemma ReadOverflowExample(req: Request)
    requires req.command == "POST" && req.contentLength == Some(Decimal(MaxSize + 1))
    ensures Reflect(Policy(None, None), req) == Raised(ReadTooLarge(MaxSize + 1))
  {
    assert StrFits(MaxSize + 1) by {
      assert Pow10(10) == 10_000_000_000;
      assert Pow10(19) == 10_000_000_000_000_000_000;
      StrFitsBelow(MaxSize + 1, 19);
    }
    DecimalRoundTrip(MaxSize + 1);
    assert req.command[0] != "HEAD"[0];
  }

  /** A Content-Length whose decimal form is longer than `int()`'s digit limit is rejected like a non-number. */
  lemma TooManyDigitsRaises(policy: Policy, req: Request, n: int)
    requires !Rejected(req.command, policy.allowed, policy.disallowed) && req.command != "HEAD"
    requires req.contentLength == Some(Decimal(n)) && !StrFits(n)
    ensures Reflect(policy, req) == Raised(NotAnInteger(Decimal(n)))
  {
    DecimalRoundTrip(n);
  }

  /** With the deny set `-d POST` yields, a `POST` gets a bare 405 while a `GET` is answered with 200. */
  lemma DenyPostExample(policy: Policy, post: Request, get: Request)
    requires policy == Policy(None, Some({"POST"}))
    requires post.command == "POST" && get.command == "GET"
    requires WithinLimits(get)
    ensures Reflect(policy, post) == Sent(Response(MethodNotAllowed, [], []))
    ensures Reflect(policy, get).Sent? && Reflect(policy, get).response.status == OK
  {
    assert get.command[0] != "POST"[0] && get.command[0] != "HEAD"[0];
  }
}
