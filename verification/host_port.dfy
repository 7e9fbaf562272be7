/** Splitting a configured `host[:port]` string, in its three variants: the
    adapters' splitter (`split_ip_and_port` and its private twin
    `_split_ip_and_port`, identical code) that converts the embedded port
    with `int()`, the older `get_split` that hands the embedded port back as
    raw text, and the constructors built on them. */
module HostPort {
  import opened Text
  import opened Values
  import opened Maybe

  const Colon := ":"

  /** The text before the first colon (all of it when there is none). */
  function Host(ip: string): string {
    Split(ip, Colon)[0]
  }

  /** The text between the first and the second colon. */
  function PortSegment(ip: string): string
    requires Contains(ip, Colon)
  {
    SplitHasPieces(ip, Colon);
    Split(ip, Colon)[1]
  }

  /** A split has more than one piece exactly when the separator occurs. */
  lemma SplitHasPieces(s: string, sep: string)
    requires |sep| > 0
    ensures |Split(s, sep)| > 1 <==> Contains(s, sep)
  {
    match IndexOf(s, sep)
    case None =>
    case Some(i) =>
  }

  /** Neither the host nor the port segment holds a colon, and without a
      colon the host is the whole input. */
  lemma PiecesFree(ip: string)
    ensures !Contains(Host(ip), Colon)
    ensures Contains(ip, Colon) ==> !Contains(PortSegment(ip), Colon)
    ensures !Contains(ip, Colon) ==> Host(ip) == ip
  {
    SplitPartsFree(ip, Colon);
    SplitHasPieces(ip, Colon);
    var parts := Split(ip, Colon);
    assert !Contains(parts[0], Colon);
    if |parts| > 1 {
      assert !Contains(parts[1], Colon);
    } else {
      assert IndexOf(ip, Colon).None?;
    }
  }

  /** With a colon, the input is host, colon, port segment and a rest that
      is empty or starts at the second colon and is dropped. */
  lemma Layout(ip: string) returns (rest: string)
    requires Contains(ip, Colon)
    ensures ip == Host(ip) + Colon + PortSegment(ip) + rest
    ensures rest == [] || rest[0] == ':'
  {
    var i := FirstColon(ip);
    var host, after := ip[..i], ip[i + 1..];
    ColonAt(ip, i);
    rest := AfterFirstPiece(after);
    var port := Split(after, Colon)[0];
    assert ip == host + Colon + (port + rest);
    assert host + Colon + (port + rest) == host + Colon + port + rest;
  }

  /** The host and the port segment around the first colon. */
  lemma FirstColon(ip: string) returns (i: nat)
    requires Contains(ip, Colon)
    ensures OccursAt(ip, Colon, i)
    ensures Host(ip) == ip[..i] && PortSegment(ip) == Split(ip[i + 1..], Colon)[0]
  {
    SplitHasPieces(ip, Colon);
    i := IndexOf(ip, Colon).value;
    assert Split(ip, Colon) == [ip[..i]] + Split(ip[i + 1..], Colon);
  }

  /** Cutting the text around a colon at a known position. */
  lemma ColonAt(s: string, i: nat)
    requires OccursAt(s, Colon, i)
    ensures s == s[..i] + Colon + s[i + 1..]
  {
    assert s[i..i + 1] == Colon;
  }

  /** What follows the first piece of a split on the colon. */
  lemma AfterFirstPiece(s: string) returns (rest: string)
    ensures s == Split(s, Colon)[0] + rest && (rest == [] || rest[0] == ':')
  {
    match IndexOf(s, Colon)
    case None =>
      rest := [];
    case Some(j) =>
      ColonAt(s, j);
      rest := s[j..];
  }

  /** `split_ip_and_port(the_ip, port)`: host and `int()` of the port
      segment when the input has a colon, else the whole input and
      `int(port)`. A non-numeric port raises `ValueError`. */
  function SplitIpAndPort(ip: string, port: Attr): (r: Outcome<(string, int)>)
    ensures r.Ok? ==> r.value.0 == Host(ip)
    ensures !Contains(ip, Colon) ==> (r.Ok? <==> ToInt(port).Ok?)
    ensures !Contains(ip, Colon) && r.Ok? ==> r.value == (ip, ToInt(port).value)
    ensures Contains(ip, Colon) ==> (r.Ok? <==> ToInt(Str(PortSegment(ip))).Ok?)
    ensures Contains(ip, Colon) && r.Ok? ==> r.value.1 == ToInt(Str(PortSegment(ip))).value
    ensures r.Raised? ==> r.error == ValueError
  {
    var parts := Split(ip, Colon);
    SplitHasPieces(ip, Colon);
    PiecesFree(ip);
    if |parts| > 1 then
      var p :- ToInt(Str(parts[1]));
      Ok((parts[0], p))
    else
      var p :- ToInt(port);
      Ok((parts[0], p))
  }

  /** `get_split(the_ip, port)`: like the splitter, but the embedded port is
      returned as the raw text segment; only the fallback port is converted. */
  function GetSplit(ip: string, port: Attr): (r: Outcome<(string, Attr)>)
    ensures Contains(ip, Colon) ==> r == Ok((Host(ip), Str(PortSegment(ip))))
    ensures !Contains(ip, Colon) ==>
      r == (if ToInt(port).Ok? then Ok((ip, Whole(ToInt(port).value))) else Raised(ValueError))
  {
    var parts := Split(ip, Colon);
    SplitHasPieces(ip, Colon);
    PiecesFree(ip);
    if |parts| > 1 then
      Ok((parts[0], Str(parts[1])))
    else
      var p :- ToInt(port);
      Ok((parts[0], Whole(p)))
  }

  /** The address an adapter connects to. The port keeps whatever Python
      value it was given when it is not replaced. */
  datatype Endpoint = Endpoint(host: string, port: Attr)

  /** The adapters' constructor: the embedded (or converted fallback) port
      is used unless it is 0, in which case the `port` argument is kept
      unconverted. */
  function AdapterEndpoint(ip: string, port: Attr): (r: Outcome<Endpoint>)
    ensures r.Ok? <==> SplitIpAndPort(ip, port).Ok?
    ensures r.Ok? ==> r.value.host == Host(ip)
    ensures r.Ok? && SplitIpAndPort(ip, port).value.1 != 0 ==>
      r.value.port == Whole(SplitIpAndPort(ip, port).value.1)
    ensures r.Ok? && SplitIpAndPort(ip, port).value.1 == 0 ==> r.value.port == port
  {
    var (host, urlPort) :- SplitIpAndPort(ip, port);
    Ok(Endpoint(host, if urlPort != 0 then Whole(urlPort) else port))
  }

  /** The older API's constructor: `int()` of whatever `get_split` returned,
      so a non-numeric embedded port raises here, and port 0 is kept. */
  function ApiEndpoint(ip: string, port: Attr): (r: Outcome<(string, int)>)
    ensures Contains(ip, Colon) && ToInt(Str(PortSegment(ip))).Raised? ==> r == Raised(ValueError)
    ensures r.Ok? ==> r.value.0 == Host(ip)
  {
    var (host, raw) :- GetSplit(ip, port);
    var p :- ToInt(raw);
    Ok((host, p))
  }

  /** The two splitting revisions end in the same host and integer port,
      and fail on the same inputs. */
  lemma ApiAgreesWithSplitter(ip: string, port: Attr)
    ensures ApiEndpoint(ip, port) == SplitIpAndPort(ip, port)
  {
    SplitHasPieces(ip, Colon);
  }

  /** An address with an embedded port 0 falls back to the given port,
      which the older constructor does not do. */
  lemma ZeroPortFallsBack(port: Attr)
    ensures AdapterEndpoint("printer:0", port) == Ok(Endpoint("printer", port))
    ensures ApiEndpoint("printer:0", port) == Ok(("printer", 0))
  {
    SplitPrinterZero();
    ParseDigits("0");
    assert Host("printer:0") == "printer";
    assert PortSegment("printer:0") == "0";
    assert ToInt(Str("0")) == Ok(0);
    assert SplitIpAndPort("printer:0", port) == Ok(("printer", 0));
  }

  lemma SplitPrinterZero()
    ensures Split("printer:0", Colon) == ["printer", "0"]
    ensures Contains("printer:0", Colon)
  {
    var ip := "printer:0";
    assert OccursAt(ip, Colon, 7);
    assert IndexOf(ip, Colon) == Some(7) by {
      forall j | 0 <= j < 7
        ensures !OccursAt(ip, Colon, j)
      {
        assert ip[j..j + 1] == [ip[j]];
      }
    }
    assert Split("0", Colon) == ["0"] by {
      assert !OccursAt("0", Colon, 0);
      assert IndexOf("0", Colon) == None;
    }
    assert ip[8..] == "0";
    assert ip[..7] == "printer";
  }

}
