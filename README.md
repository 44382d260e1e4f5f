# hello-http, modelled in Dafny

`hello-http` is a small diagnostic HTTP server. Every request is passed through an allow/deny
method filter. A rejected request gets a bare 405. An admitted `HEAD` gets 200 with
`Content-Type` only and no body. Any other admitted request is answered with `Hello HTTP\n\n`,
then the request line, a newline, the header block as `bytes(self.headers)` renders it, and the
request body as far as the declared `Content-Length`.
The server listens on IPv4 or IPv6, chosen from the host string. Only for the wildcard host `::`
does it turn `IPV6_V6ONLY` off, so that one socket serves both families.

This project models that core of `hello-http.py` and proves properties of the model:

- `bytes.dfy` (module `Bytes`): bytes and the UTF-8 encoding done by `str.encode()`.
- `pystr.dfy` (module `PyStr`): the Python builtins the server depends on.
  - `str.isspace` and `str.strip`.
  - `str.upper`, ASCII only.
  - `str.split` and `sep.join`.
  - `str(int)` and `int(str)` in base 10, including Python's whitespace and underscore rules and its 4300-digit limit.
- `methods.dfy` (module `Methods`): `parse_methods` and the rejection test at the top of `do_ALL`.
  - `ParsedMethods` is the specification function.
  - `ParseMethods` and its loop `CollectMethods` are methods proved against it.
- `address.dfy` (module `Address`): `get_address_string`, the address-family choice of
  `Server.__init__`, and a `Server` class that records that choice.
- `reflector.dfy` (module `Reflector`): `do_ALL`.
  - `Reflect` is the specification of the outcome.
  - `DoAll` is a method that builds the body in a `BytesIO` buffer, write by write as the handler
    does. It is proved to produce `Reflect`'s outcome.
- `wrappers.dfy` (module `Wrappers`): `Option`.

What the handler receives is taken as given inputs:

- the command;
- the request line;
- the header block as `bytes(self.headers)` renders it;
- the `Content-Length` header value, if present;
- the bytes the peer sends after the headers.

`rfile.read(n)` returns a prefix of that byte stream: `n` bytes, or fewer when the peer closes first. It raises `OverflowError` when `n` is above `sys.maxsize`.

The code behaves as follows in the cases that are easy to get wrong:

- `int()` raises `ValueError` on a `Content-Length` that is not a base-10 integer; it is not read
  as 0. The handler then fails before the response is flushed.
- `int()` also raises on a `Content-Length` of more than 4300 digits, CPython's default
  int/str conversion limit (leading zeros count, underscores do not).
- `rfile.read` raises `OverflowError` for a positive length above `sys.maxsize`
  (`0x7FFF_FFFF_FFFF_FFFF` on a 64-bit platform).
- `str(len(out))` raises `ValueError` for a body length of more than 4300 digits.
- `Outcome.Raised` models all of these failures, one `Failure` kind each. `RaisedCases`
  characterises when each happens, and `WithinLimits` says when none does.
- An admitted `HEAD` gets no `Content-Length`. `end_headers` is called before any
  `Content-Length` could be added (`HeadHasNoBody`).
- The method filter compares the command exactly as received and case-sensitively, while the
  policy sets hold upper-cased names. A lower-case `head` is therefore never denied. When it is
  admitted it is answered with a body (`NonUpperCommand`, `LowerCaseHeadGetsBody`).

## Model

| member | source | states |
|---|---|---|
| Methods.TokenMethod | hello-http.py:93-96 | a token names its stripped, upper-cased form, or nothing when it is blank |
| Methods.TokenMethods | hello-http.py:91-96 | the set of names a list of tokens contributes |
| Methods.ParsedMethods | hello-http.py:88-99 | no restriction for a missing argument or one with only blank tokens, else the set the tokens name |
| Methods.Rejected | hello-http.py:51-52 | a command is rejected when it is in the deny set or outside the allow set |
| Methods.ParseMethods | hello-http.py:88-99 | returns no restriction for a missing argument; otherwise returns the set the specification `ParsedMethods` gives; never returns an empty set; every element is a non-empty, stripped, upper-case method name |
| Methods.CollectMethods | hello-http.py:91-96 | the loop over the comma-separated tokens collects exactly the upper-cased stripped form of every non-blank token |
| Methods.TokenMethodsMembers | hello-http.py:92-96 | a name is collected if and only if some non-blank token strips and upper-cases to it |
| Methods.TokenMethodsSnoc | hello-http.py:92-96 | handling one more token adds exactly the method that token names to what was collected before |
| Methods.TokenMethodsNormalized | hello-http.py:93-96 | every collected name is non-empty, has no surrounding whitespace and is upper case |
| Methods.ParsedMethodsNormalized | hello-http.py:88-99 | every element of a parsed policy set is a proper method name |
| Methods.TokenMethodsEmpty | hello-http.py:94-98 | nothing is collected if and only if every token consists of whitespace only |
| Methods.ParsedMethodsNone | hello-http.py:88-99 | `parse_methods` gives no restriction if and only if the argument is missing or every comma-separated token is blank |
| Methods.TokenMethodPadded | hello-http.py:93-96 | a word padded with whitespace on both sides names its upper-cased self |
| Methods.TokenMethodsPair | hello-http.py:92-96 | a list of two tokens names the union of what each names |
| Methods.ParsedMethodsEmpty | hello-http.py:97-98 | an empty argument gives no restriction |
| Methods.ParsedMethodsBlankTokens | hello-http.py:94-98 | the argument `" , ,"` has only blank tokens and gives no restriction |
| Methods.SplitBlankTokens | hello-http.py:92 | `" , ,"` splits into two one-space tokens and one empty token |
| Methods.SplitMethodList | hello-http.py:92 | `"get, POST"` splits into `"get"` and `" POST"` |
| Methods.TokenMethodGet | hello-http.py:93-96 | the token `get` names `GET` |
| Methods.TokenMethodPost | hello-http.py:93-96 | the token ` POST` names `POST` |
| Methods.TokenMethodsOfList | hello-http.py:92-96 | the tokens `get` and ` POST` name exactly `GET` and `POST` |
| Methods.DenyPostSet | hello-http.py:88-99 | the deny argument `POST` parses to the set `{POST}` |
| Methods.ParsedMethodsList | hello-http.py:88-99 | the argument `"get, POST"` allows exactly `GET` and `POST` |
| Methods.RejectedCases | hello-http.py:51-52 | with neither set every command passes; a command in the deny set is rejected even when allowed; a command outside a given allow set is rejected; a command in the allow set (or with no allow set) and outside the deny set (or with no deny set) passes |
| Methods.NonUpperCommand | hello-http.py:51-52 | a command that is not upper case is never denied by a parsed deny set, and it is rejected if and only if an allow set was given |
| Reflector.DoAll | hello-http.py:47-76 | the handler, building the body by successive writes to a buffer, produces exactly the outcome `Reflect` specifies |
| Reflector.BytesIO.Write | hello-http.py:64-70 | a write appends its bytes to the buffer and changes nothing else |
| Reflector.BytesIO.constructor | hello-http.py:63 | a new buffer is empty |
| Reflector.DeclaredLength | hello-http.py:68 | the declared length is 0 without a `Content-Length` header, else what `int()` makes of its value |
| Reflector.Read | hello-http.py:69-70 | the read fails when the length is above `sys.maxsize`; otherwise the bytes read are a prefix of the incoming stream of at most the requested length, shorter only when the stream ends first |
| Reflector.Echoed | hello-http.py:69-70 | the request body is read only for a positive declared length; otherwise nothing is appended |
| Reflector.Prologue | hello-http.py:64-67 | what is written before the request body: the greeting, the encoded request line, a newline and the header block |
| Reflector.WithinLimits | hello-http.py:68-74 | `int()` accepts the `Content-Length`, `rfile.read` accepts the length, and `str` accepts the body length |
| Reflector.Reflect | hello-http.py:47-76 | the outcome of the handler: 405, a bare `HEAD` answer, one of the three failures, or 200 with the reflected body and its length |
| Reflector.BytesIO.GetValue | hello-http.py:72 | the bytes written so far |
| Reflector.RejectedIs405 | hello-http.py:51-55 | a request gets a 405 with no headers and no body if and only if the filter rejects it |
| Reflector.HeadHasNoBody | hello-http.py:57-62 | an admitted `HEAD` gets 200 with only `Content-Type: text/plain`, no `Content-Length` header and an empty body |
| Reflector.RaisedCases | hello-http.py:57-76 | the handler fails if and only if the request is admitted, is not `HEAD`, and is outside the limits; it fails for the `Content-Length` value exactly when one is present and `int()` rejects it, and for the read exactly when the declared length is above `sys.maxsize` |
| Reflector.AdmittedIsOk | hello-http.py:57-76 | an admitted non-`HEAD` request is answered if and only if it is within the limits, and then with 200 |
| Reflector.ContentLengthIsBodyLength | hello-http.py:72-75 | a 200 answer to a non-`HEAD` request carries `Content-Type` then `Content-Length`, and the `Content-Length` value reads back with `int()` as the exact number of body bytes |
| Reflector.BodyReflectsRequest | hello-http.py:63-72 | the declared length of an answered request is at most `sys.maxsize`; the body is the greeting, the encoded request line, a newline and the header block, followed by a prefix of the request body. That prefix is empty when the declared length is not positive, is at most the declared length, and falls short of it only when the stream ends first |
| Reflector.BodyEndsWithRequestBody | hello-http.py:63-72 | when the declared length equals the number of bytes sent and the request is within the limits, the response body ends with exactly those bytes |
| Reflector.LowerCaseHeadGetsBody | hello-http.py:60-62 | the `HEAD` test is case-sensitive: an admitted `head` within the limits is answered with a `Content-Length` and a non-empty body |
| Reflector.SmallBodyFits | hello-http.py:74 | a body shorter than 10000 bytes has a length `str` accepts |
| Reflector.GetExample | hello-http.py:57-76 | an unrestricted `GET` without `Content-Length` and with a short request line and header block gets 200, `Content-Type` first, and a body of greeting, request line, newline and header block |
| Reflector.PostThreeBytes | hello-http.py:63-76 | an unrestricted `POST` with `Content-Length: 3`, three bytes sent and a short request line and header block gets 200 with a body ending in those three bytes |
| Reflector.PostExample | hello-http.py:63-76 | a `POST` with body `abc`, `Content-Length: 3` and a short request line and header block gets 200 with a body ending in exactly `abc` |
| Reflector.ReadOverflowExample | hello-http.py:68-70 | `Content-Length: 9223372036854775808` is read as an integer, and the read of that many bytes fails |
| Reflector.TooManyDigitsRaises | hello-http.py:68 | a `Content-Length` whose decimal form exceeds the digit limit fails like a non-number |
| Reflector.DenyPostExample | hello-http.py:51-76 | under the deny set `{POST}`, a `POST` gets a bare 405 while a `GET` within the limits gets 200 |
| Address.DisplayHost | hello-http.py:83-84 | a host with a colon that does not start with `[` is bracketed; any other host is kept |
| Address.AddressString | hello-http.py:81-85 | the display host, a colon and the decimal port |
| Address.FamilyFor | hello-http.py:20-23 | IPv6 for a host containing a colon, IPv4 otherwise |
| Address.DisablesV6Only | hello-http.py:19-26 | `IPV6_V6ONLY` is switched off only for the host `::` |
| Address.AddressRoundTrip | hello-http.py:81-85 | for every 16-bit port, splitting the display string at its last colon gives back the display host and, through `int()`, the port |
| Address.DisplayHostCases | hello-http.py:83-84 | the host is wrapped in brackets if and only if it contains a colon and does not start with `[`; otherwise it is shown unchanged |
| Address.DisplayHostIdempotent | hello-http.py:83-84 | formatting an already formatted host changes nothing |
| Address.ColonHostBracketed | hello-http.py:83-84 | every host containing a colon is shown starting with `[` |
| Address.ExtraFieldsIgnored | hello-http.py:82 | fields of the address tuple after host and port do not affect the string |
| Address.LastIndex | hello-http.py:81-85 | the index returned holds the character and is its last occurrence; none is returned only when the character does not occur |
| Address.AddressStringIPv6 | hello-http.py:81-85 | `("::1", 8080, 0, 0)` is shown as `[::1]:8080` |
| Address.AddressStringIPv4 | hello-http.py:81-85 | `("127.0.0.1", 80)` is shown as `127.0.0.1:80` |
| Address.AddressStringBracketed | hello-http.py:83-84 | the already bracketed `[::1]` is not bracketed again |
| Address.DualStackIsIPv6 | hello-http.py:19-26 | the dual-stack host is an IPv6 host; IPv6 is chosen if and only if the host contains a colon; every IPv6 host is shown in brackets |
| Address.FamilyExamples | hello-http.py:19-26 | `[::]` and `::1` are IPv6 and keep `IPV6_V6ONLY`; `::` is IPv6 with `IPV6_V6ONLY` switched off; `0.0.0.0` is IPv4 |
| Address.Server.constructor | hello-http.py:18-26 | the server records the family the host calls for, switches `IPV6_V6ONLY` off only for `::`, and keeps `(host, port)` as the address to bind |
| PyStr.IsSpace | hello-http.py:93 | the characters `str.isspace` accepts |
| PyStr.IsIntSpace | hello-http.py:68 | the characters `int()` skips around a number |
| PyStr.Strip | hello-http.py:93 | `str.strip()` with no argument |
| PyStr.Upper | hello-http.py:96 | `str.upper()` on ASCII letters |
| PyStr.Split | hello-http.py:92 | `str.split(sep)`: always at least one piece |
| PyStr.LStripSpec | hello-http.py:93 | left stripping keeps a suffix that is empty or starts with non-whitespace, and removes only whitespace |
| PyStr.RStripSpec | hello-http.py:93 | right stripping keeps a prefix that is empty or ends with non-whitespace, and removes only whitespace |
| PyStr.TrimmedFixed | hello-http.py:93 | stripping leaves a string that is already trimmed unchanged |
| PyStr.StripTrimmed | hello-http.py:93 | the result of stripping is empty or starts and ends with non-whitespace |
| PyStr.StripBlank | hello-http.py:93-94 | stripping gives the empty string if and only if the input is all whitespace |
| PyStr.StripSpec | hello-http.py:93 | stripping yields a trimmed string no longer than the input; the result is empty exactly for blank input; a trimmed input is left as it is |
| PyStr.StripIdempotent | hello-http.py:93 | stripping twice is stripping once |
| PyStr.LStripPadded | hello-http.py:93 | left stripping removes exactly a leading run of whitespace in front of a non-whitespace character |
| PyStr.RStripPadded | hello-http.py:93 | right stripping removes exactly a trailing run of whitespace after a non-whitespace character |
| PyStr.StripPadded | hello-http.py:93 | stripping a trimmed word padded with whitespace gives back the word |
| PyStr.StripSeparatorChar | hello-http.py:93 | `strip()` removes U+001C, which `int()` does not skip |
| PyStr.UpperSpec | hello-http.py:96 | upper-casing keeps the length, is idempotent, keeps whitespace and non-whitespace apart, and keeps a trimmed string trimmed |
| PyStr.SplitPieces | hello-http.py:92 | no piece of a split contains the separator |
| PyStr.JoinSplit | hello-http.py:92 | joining the pieces of a split with the separator gives back the string |
| PyStr.SplitNoSep | hello-http.py:92 | a string without the separator splits into itself alone |
| PyStr.SplitAtSep | hello-http.py:92 | the text before the first separator is the first piece; the rest splits on its own |
| PyStr.SplitJoin | hello-http.py:92 | splitting a join of separator-free pieces gives back the pieces |
| PyStr.NatDigits | hello-http.py:74 | the decimal form of a natural number is a non-empty run of digits |
| PyStr.NatDigitsValue | hello-http.py:74 | the digits of a natural number read back as that number |
| PyStr.Decimal | hello-http.py:74 | `str(n)` for an integer: a minus sign for a negative one, then its digits |
| PyStr.StrFits | hello-http.py:74 | `str(n)` succeeds when `n` has at most 4300 digits |
| PyStr.NatDigitsLength | hello-http.py:74 | a natural number has at most `k` digits if and only if it is below `10^k` |
| PyStr.StrFitsBelow | hello-http.py:74 | a number of absolute value below `10^k`, for `k` up to 4300, can be rendered |
| PyStr.DecimalRoundTrip | hello-http.py:68-74 | `int(str(n)) == n` for every integer that can be rendered, and `int()` rejects the decimal form of any other |
| PyStr.DigitCount | hello-http.py:68 | the number of digits in a string is at most its length, and equals it for a run of digits |
| PyStr.ParseIntTooManyDigits | hello-http.py:68 | `int()` rejects a run of more than 4300 digits |
| PyStr.ParseIntThree | hello-http.py:68 | `int("3")` is 3 |
| PyStr.DecimalChars | hello-http.py:74 | `str(n)` holds only digits and a leading minus sign |
| PyStr.ParseInt | hello-http.py:68 | `int()` rejects a string that is empty or all whitespace |
| PyStr.ParseIntPadded | hello-http.py:68 | `int(" 7\r\n")` is 7: surrounding whitespace is skipped |
| PyStr.ParseIntUnderscore | hello-http.py:68 | `int("+1_000")` is 1000: a sign and single underscores between digits are accepted |
| PyStr.ParseIntNegative | hello-http.py:68 | `int("-5")` is -5 |
| PyStr.ParseIntRejectsEmpty | hello-http.py:68 | `int("")` raises |
| PyStr.ParseIntRejectsLetters | hello-http.py:68 | `int("abc")` raises |
| PyStr.ParseIntRejectsDoubleUnderscore | hello-http.py:68 | `int("1__0")` raises |
| PyStr.ParseIntRejectsSeparatorChar | hello-http.py:68 | `int()` does not skip U+001C and raises on it |
| Bytes.EncodeChar | hello-http.py:65 | a character encodes to 1 to 4 bytes; to one byte if and only if it is ASCII, and then to its own code |
| Bytes.Utf8Encode | hello-http.py:65 | the encoding is at least as long as the string and at most four times as long |
| Bytes.Utf8EncodeAppend | hello-http.py:65 | encoding distributes over concatenation |
| Bytes.Utf8EncodeAscii | hello-http.py:65 | an ASCII request line encodes to exactly one byte per character, equal to its code |

## Left out

- Socket I/O is not modelled: binding, activating, closing the socket on failure, `serve_forever`,
  reading the request from the connection and writing to `wfile`. The model keeps what the server
  records and what the handler computes.
- The `setsockopt` call itself is not modelled, only the decision to make it (`v6OnlyDisabled`).
  For IPv6 hosts other than `::`, `IPV6_V6ONLY` keeps the operating system's default,
  which differs by platform.
- Logging is not modelled: the listening address, the request line, the client address and the
  debug dump of the body. With debug logging on, that dump calls `out.decode()`, which raises
  `UnicodeDecodeError` on a body that is not UTF-8 after the response has been written; this
  path is not modelled. `get_address_string` is modelled on its own because its only caller is a
  log line.
- `main` and argument parsing are not modelled: the `-h`/`-p`/`-m`/`-d` options, the module-level
  globals they set, and the `KeyboardInterrupt` handling. The policy is an explicit `Policy` argument.
- `Handler.__getattribute__` is not modelled. It routes every `do_*` attribute to `do_ALL`, so the
  model has a single handler that receives the command as a string.
- `log_request` is not modelled: it was overridden to do nothing.
- Request parsing by `http.server` is taken as given, as are malformed-request handling and how
  `bytes(self.headers)` renders the header block. The model receives these as inputs.
- The status line and the `Server` and `Date` headers that `send_response` adds are not modelled.
  `Response.headers` lists only the headers `do_ALL` itself adds, in order.
- Concurrency between connections is not modelled: each request is an independent call.
- PyStr.Upper: ASCII letters only. Python's `str.upper` also maps non-ASCII letters, and some
  change length (`ß` becomes `SS`).
- PyStr.ParseInt: ASCII digits only. Python's `int()` also accepts other Unicode decimal digits.
- The digit limit is fixed at CPython's default of 4300. `PYTHONINTMAXSTRDIGITS`, `-X int_max_str_digits`
  and `sys.set_int_max_str_digits` can change it and are not modelled.
- `MaxSize` is `sys.maxsize` on a 64-bit platform; a 32-bit build has a smaller limit.
- Reflector.Read: a failure to allocate the `n`-byte result buffer is not modelled. `rfile` is a
  `BufferedReader`, which allocates the result before reading. That raises `OverflowError` for a
  length at or just below `sys.maxsize`, where a bytes object of that size plus its header does
  not fit, and `MemoryError` for a length the machine cannot allocate. The model answers such
  requests with 200. `WithinLimits`, `RaisedCases` and `AdmittedIsOk` inherit this gap.
- Address.AddressRoundTrip: stated only for 16-bit ports. A socket address never carries another
  port, so the 4300-digit limit of formatting the port in the f-string `f'{host}:{port}'`
  (hello-http.py:85) never applies.
