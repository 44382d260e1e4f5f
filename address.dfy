/**
 * Listening addresses: the display form written by `get_address_string`, and the
 * address-family and dual-stack decision taken in `Server.__init__`.
 */
module Address {
  import opened Wrappers
  import opened PyStr

  /**
   * A socket address tuple as Python gives it: host and port first, then whatever else
   * the family carries (flowinfo and scope id for IPv6).
   */
  datatype SocketAddress = SocketAddress(host: string, port: int, extra: seq<int>)

  /** `s.startswith(c)` for a one-character prefix. */
  predicate StartsWith(s: string, c: char) {
    |s| > 0 && s[0] == c
  }

  /** The host as `get_address_string` shows it: an IPv6 literal not yet in brackets is wrapped in them. */
  function DisplayHost(host: string): string {
    if !StartsWith(host, '[') && ':' in host then "[" + host + "]" else host
  }

  /** `get_address_string(address)`: `host:port`, with the host in display form. */
  function AddressString(address: SocketAddress): string {
    DisplayHost(address.host) + ":" + Decimal(address.port)
  }

  /** The index of the last occurrence of `c` in `s`. */
  function LastIndex(s: string, c: char): (r: Option<nat>)
    ensures r.Some? ==> r.value < |s| && s[r.value] == c && c !in s[r.value + 1..]
    ensures r.None? ==> c !in s
  {
    if s == "" then None
    else if s[|s| - 1] == c then Some(|s| - 1)
    else
      assert s == s[..|s| - 1] + [s[|s| - 1]];
      LastIndex(s[..|s| - 1], c)
  }

  /** Reads a display string back: the text before the last colon, and the port after it. */
  function SplitHostPort(s: string): Option<(string, int)> {
    match LastIndex(s, ':')
    case None => None
    case Some(i) =>
      match ParseInt(s[i + 1..])
      case None => None
      case Some(port) => Some((s[..i], port))
  }

  /** The host is bracketed exactly when it contains a colon and does not start with `[`; otherwise it is unchanged. */
  lemma DisplayHostCases(host: string)
    ensures DisplayHost(host) == "[" + host + "]" <==> (':' in host && !StartsWith(host, '['))
    ensures DisplayHost(host) == host <==> !(':' in host && !StartsWith(host, '['))
  {
    assert |"[" + host + "]"| == |host| + 2;
  }

  /** Formatting an already formatted host changes nothing. */
  lemma DisplayHostIdempotent(host: string)
    ensures DisplayHost(DisplayHost(host)) == DisplayHost(host)
  {
  }

  /** Every host with a colon is shown starting with `[`. */
  lemma ColonHostBracketed(host: string)
    requires ':' in host
    ensures StartsWith(DisplayHost(host), '[')
  {
  }

  lemma {:induction false} LastIndexAfter(x: string, c: char, y: string)
    requires c !in y
    ensures LastIndex(x + [c] + y, c) == Some(|x|)
  {
    var s := x + [c] + y;
    if y != "" {
      assert s[..|s| - 1] == x + [c] + y[..|y| - 1];
      assert y[|y| - 1] in y;
      LastIndexAfter(x, c, y[..|y| - 1]);
    }
  }

  lemma SplitHostPortJoin(h: string, d: string, port: int)
    requires ':' !in d && ParseInt(d) == Some(port)
    ensures SplitHostPort(h + [':'] + d) == Some((h, port))
  {
    var s := h + [':'] + d;
    LastIndexAfter(h, ':', d);
    assert s[|h| + 1..] == d;
    assert s[..|h|] == h;
  }

  /**
   * The display string is the display host, a colon and the decimal port: reading it back at
   * the last colon gives exactly these two parts, for every 16-bit port a socket address carries.
   */
  lemma AddressRoundTrip(address: SocketAddress)
    requires 0 <= address.port <= 65535
    ensures SplitHostPort(AddressString(address)) == Some((DisplayHost(address.host), address.port))
  {
    var h, d := DisplayHost(address.host), Decimal(address.port);
    DecimalChars(address.port);
    assert Pow10(5) == 100000;
    StrFitsBelow(address.port, 5);
    DecimalRoundTrip(address.port);
    assert AddressString(address) == h + [':'] + d;
    SplitHostPortJoin(h, d, address.port);
  }

  /** Only the host and the port are used: the extra fields of an IPv6 address do not matter. */
  lemma ExtraFieldsIgnored(host: string, port: int, extra1: seq<int>, extra2: seq<int>)
    ensures AddressString(SocketAddress(host, port, extra1)) == AddressString(SocketAddress(host, port, extra2))
  {
  }

  lemma AddressStringIPv6()
    ensures AddressString(SocketAddress("::1", 8080, [0, 0])) == "[::1]:8080"
  {
    assert "::1"[0] == ':';
    assert NatDigits(8080) == "8080" by {
      assert NatDigits(8) == "8";
      assert NatDigits(80) == "80";
      assert NatDigits(808) == "808";
    }
  }

  lemma AddressStringIPv4()
    ensures AddressString(SocketAddress("127.0.0.1", 80, [])) == "127.0.0.1:80"
  {
    assert ':' !in "127.0.0.1" by {
      forall k | 0 <= k < |"127.0.0.1"| ensures "127.0.0.1"[k] != ':' { }
    }
    assert NatDigits(80) == "80" by { assert NatDigits(8) == "8"; }
  }

  lemma AddressStringBracketed()
    ensures AddressString(SocketAddress("[::1]", 80, [0, 0])) == "[::1]:80"
  {
    assert NatDigits(80) == "80" by { assert NatDigits(8) == "8"; }
  }

  /** The two socket families the server chooses between. */
  datatype AddressFamily = IPv4 | IPv6

  /** `Server.__init__`: IPv6 exactly when the host contains a colon. */
  function FamilyFor(host: string): AddressFamily {
    if ':' in host then IPv6 else IPv4
  }

  /** `Server.__init__` turns IPV6_V6ONLY off (serving both families) only for the wildcard `::`. */
  predicate DisablesV6Only(host: string) {
    host == "::"
  }

  /** The dual-stack host is an IPv6 host, and every IPv6 host is logged in brackets. */
  lemma DualStackIsIPv6(host: string)
    ensures DisablesV6Only(host) ==> FamilyFor(host) == IPv6
    ensures FamilyFor(host) == IPv6 <==> ':' in host
    ensures FamilyFor(host) == IPv6 ==> StartsWith(DisplayHost(host), '[')
  {
    if DisablesV6Only(host) {
      assert host[0] == ':';
    }
  }

  /** `[::]` and `::1` are IPv6 but keep IPV6_V6ONLY untouched; `0.0.0.0` is IPv4; only `::` is dual-stack. */
  lemma FamilyExamples()
    ensures FamilyFor("[::]") == IPv6 && !DisablesV6Only("[::]")
    ensures FamilyFor("::1") == IPv6 && !DisablesV6Only("::1")
    ensures FamilyFor("::") == IPv6 && DisablesV6Only("::")
    ensures FamilyFor("0.0.0.0") == IPv4 && !DisablesV6Only("0.0.0.0")
  {
    assert "[::]"[1] == ':' && "::1"[0] == ':' && "::"[0] == ':';
    assert ':' !in "0.0.0.0" by {
      forall k | 0 <= k < |"0.0.0.0"| ensures "0.0.0.0"[k] != ':' { }
    }
  }

  /**
   * The part of `Server.__init__` that is not socket I/O: it records the address family and
   * whether IPV6_V6ONLY is switched off on the listening socket.
   */
  class Server {
    var addressFamily: AddressFamily
    var v6OnlyDisabled: bool
    /** The address to bind, as recorded before `server_bind` replaces it with the bound one. */
    const serverAddress: (string, int)

    constructor (host: string, port: int)
      ensures addressFamily == FamilyFor(host)
      ensures v6OnlyDisabled == DisablesV6Only(host)
      ensures serverAddress == (host, port)
    {
      var isAll := host == "::";
      if ':' in host {
        addressFamily := IPv6;
      } else {
        addressFamily := IPv4;
      }
      serverAddress := (host, port);
      v6OnlyDisabled := false;
      if isAll {
        v6OnlyDisabled := true;
      }
    }
  }
}
