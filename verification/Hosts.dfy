/** Routing a request: the sandbox and port named by a host such as `49983-abc-00000000.example.org` or by
    request headers. */
module Hosts {
  import opened Text
  import opened Wrappers

  const TWO_TO_64 := 0x1_0000_0000_0000_0000

  datatype HostError = InvalidHost | InvalidPort(text: string) | MissingHeader(name: string) | InvalidSandboxId

  datatype Target = Target(sandboxId: string, port: nat)

  const HEADER_ID := "E2b-Sandbox-Id"
  const HEADER_PORT := "E2b-Sandbox-Port"

  /** `strconv.ParseUint` in base 10 with 64 bits. */
  function ParseUint(s: string): Option<nat> {
    if s == [] || !AllDigits(s) || Denotes(s) >= TWO_TO_64 then None else Some(Denotes(s))
  }

  predicate ValidSandboxId(s: string) {
    s != [] && forall i :: 0 <= i < |s| ==> 'a' <= s[i] <= 'z' || IsDigit(s[i])
  }

  function ParseHost(host: string): Result<Target, HostError> {
    var dot := IndexOf(host, '.');
    if dot == |host| then Err(InvalidHost)
    else
      var parts := Split(host[..dot], '-');
      if |parts| < 2 then Err(InvalidHost)
      else
        var port := ParseUint(parts[0]);
        if port.None? then Err(InvalidPort(parts[0])) else Ok(Target(parts[1], port.value))
  }

  /** The headers' answer: none, a target, or an error; an absent header reads as empty. */
  function ParseHeaders(id: string, port: string): Result<Option<Target>, HostError> {
    if id == "" && port == "" then Ok(None)
    else if id == "" then Err(MissingHeader(HEADER_ID))
    else if port == "" then Err(MissingHeader(HEADER_PORT))
    else
      var p := ParseUint(port);
      if p.None? then Err(InvalidPort(port)) else Ok(Some(Target(id, p.value)))
  }

  function Validated(t: Target): Result<Target, HostError> {
    if ValidSandboxId(t.sandboxId) then Ok(t) else Err(InvalidSandboxId)
  }

  function TargetFromRequest(processHeaders: bool, id: string, port: string, host: string): Result<Target, HostError> {
    var headers := if processHeaders then ParseHeaders(id, port) else Ok(None);
    if headers.Err? then Err(headers.error)
    else if headers.value.Some? then Validated(headers.value.value)
    else
      var parsed := ParseHost(host);
      if parsed.Err? then Err(parsed.error) else Validated(parsed.value)
  }

  /** The host printed for a sandbox. */
  function PrintHost(t: Target, domain: string): string {
    Utoa(t.port) + "-" + t.sandboxId + "-00000000." + domain
  }

  lemma ParseUintOfUtoa(n: nat)
    requires n < TWO_TO_64
    ensures ParseUint(Utoa(n)) == Some(n)
  {
    UtoaDenotes(n);
  }

  lemma FirstDot(left: string, domain: string)
    requires '.' !in left
    ensures var host := left + ['.'] + domain; IndexOf(host, '.') == |left| && host[..|left|] == left
  {
    var host := left + ['.'] + domain;
    assert host[|left|] == '.';
  }

  lemma LabelParts(port: string, id: string)
    requires '-' !in port && '-' !in id
    ensures Split(port + ['-'] + (id + ['-'] + "00000000"), '-') == [port, id, "00000000"]
  {
    SplitAt(id, "00000000", '-');
    OnePart("00000000", '-');
    SplitAt(port, id + ['-'] + "00000000", '-');
  }

  /** Parsing inverts the printer for every 64-bit port, every valid sandbox id and every domain. */
  lemma ParseHostInvertsPrint(t: Target, domain: string)
    requires t.port < TWO_TO_64 && ValidSandboxId(t.sandboxId)
    ensures ParseHost(PrintHost(t, domain)) == Ok(t)
    ensures TargetFromRequest(false, "", "", PrintHost(t, domain)) == Ok(t)
    ensures TargetFromRequest(true, "", "", PrintHost(t, domain)) == Ok(t)
  {
    var port, id := Utoa(t.port), t.sandboxId;
    var left := port + ['-'] + (id + ['-'] + "00000000");
    assert PrintHost(t, domain) == left + ['.'] + domain;
    FirstDot(left, domain);
    LabelParts(port, id);
    ParseUintOfUtoa(t.port);
  }

  /** Different targets are printed as different hosts. */
  lemma PrintHostIsInjective(a: Target, b: Target, domainA: string, domainB: string)
    requires a.port < TWO_TO_64 && ValidSandboxId(a.sandboxId) && b.port < TWO_TO_64 && ValidSandboxId(b.sandboxId)
    requires PrintHost(a, domainA) == PrintHost(b, domainB)
    ensures a == b
  {
    ParseHostInvertsPrint(a, domainA);
    ParseHostInvertsPrint(b, domainB);
  }

  /** The headers carry the same target, and win over any host. */
  lemma HeadersCarryTarget(t: Target, host: string)
    requires t.port < TWO_TO_64 && ValidSandboxId(t.sandboxId)
    ensures TargetFromRequest(true, t.sandboxId, Utoa(t.port), host) == Ok(t)
  {
    ParseUintOfUtoa(t.port);
  }

  /** The first label of a host: a port, an id, and whatever follows a second dash. */
  function Label(port: string, id: string, rest: Option<string>): string {
    port + ['-'] + if rest.Some? then id + ['-'] + rest.value else id
  }

  lemma LabelStart(port: string, id: string, rest: Option<string>)
    requires '-' !in port && '-' !in id
    ensures var parts := Split(Label(port, id, rest), '-'); 2 <= |parts| && parts[0] == port && parts[1] == id
  {
    var tail := if rest.Some? then id + ['-'] + rest.value else id;
    SplitAt(port, tail, '-');
    if rest.Some? { SplitAt(id, rest.value, '-'); } else { OnePart(id, '-'); }
  }

  /** What a host says, for every host with a domain and a dash in its first label. */
  lemma HostMeaning(port: string, id: string, rest: Option<string>, domain: string)
    requires '-' !in port && '-' !in id && '.' !in Label(port, id, rest)
    ensures ParseHost(Label(port, id, rest) + ['.'] + domain) ==
              if ParseUint(port).None? then Err(InvalidPort(port)) else Ok(Target(id, ParseUint(port).value))
  {
    var left := Label(port, id, rest);
    FirstDot(left, domain);
    LabelStart(port, id, rest);
  }

  /** A host without a domain, or without a dash before it, is refused. */
  lemma HostRefused(left: string, domain: string)
    requires '.' !in left
    ensures ParseHost(left) == Err(InvalidHost)
    ensures '-' !in left ==> ParseHost(left + ['.'] + domain) == Err(InvalidHost)
  {
    FirstDot(left, domain);
    if '-' !in left { OnePart(left, '-'); }
  }

  /** Headers count only when they are to be processed: then one alone is an error, a bad port or id is refused, and
      only without both does the host decide. */
  lemma HeadersMeaning(processHeaders: bool, id: string, port: string, host: string)
    ensures var r := TargetFromRequest(processHeaders, id, port, host);
            && (!processHeaders || (id == "" && port == "") ==> r == TargetFromRequest(false, "", "", host))
            && (processHeaders && id == "" && port != "" ==> r == Err(MissingHeader(HEADER_ID)))
            && (processHeaders && id != "" && port == "" ==> r == Err(MissingHeader(HEADER_PORT)))
            && (processHeaders && id != "" && port != "" && ParseUint(port).None? ==> r == Err(InvalidPort(port)))
            && (processHeaders && port != "" && ParseUint(port).Some? && id != "" && !ValidSandboxId(id) ==> r == Err(InvalidSandboxId))
            && (!processHeaders && ParseHost(host).Ok? && !ValidSandboxId(ParseHost(host).value.sandboxId) ==> r == Err(InvalidSandboxId))
  {
  }

  /** Whatever a request says, an accepted target has a valid sandbox id and a 64-bit port, and printing it
      gives a host that leads to the same target. */
  lemma TargetIsValid(processHeaders: bool, id: string, port: string, host: string, domain: string)
    requires TargetFromRequest(processHeaders, id, port, host).Ok?
    ensures var t := TargetFromRequest(processHeaders, id, port, host).value;
            t.port < TWO_TO_64 && ValidSandboxId(t.sandboxId) && ParseHost(PrintHost(t, domain)) == Ok(t)
  {
    ParseHostInvertsPrint(TargetFromRequest(processHeaders, id, port, host).value, domain);
  }
}
