/** The fields of a parsed `url::Url` that the handlers look at. The parser
    itself is not modelled: callers pass it in as a function from the raw text
    to `Some(url)` or `None`. */
module Url {
  import opened Wrappers

  /** The host of a URL: a registered domain name or an IP address literal. */
  datatype Host = Domain(name: string) | Ipv4(address: string) | Ipv6(address: string)

  /** A parsed URL: its scheme, its host if any, whether it "cannot be a base"
      (e.g. `mailto:x`, `data:...`), its path segments, and its serialisation
      (what `as_str` returns). */
  datatype Url = Url(
    scheme: string,
    host: Option<Host>,
    cannotBeABase: bool,
    segments: seq<string>,
    serialization: string)

  /** An opaque URL parser. */
  type Parser = string -> Option<Url>

  /** `Url::domain`: the host when it is a domain name, `None` when there is no
      host or the host is an IP address. */
  function DomainOf(u: Url): (d: Option<string>)
    ensures d.Some? <==> u.host.Some? && u.host.value.Domain?
    ensures d.Some? ==> d.value == u.host.value.name
  {
    match u.host
    case Some(Domain(name)) => Some(name)
    case _ => None
  }

  /** `Url::path_segments`: absent exactly for cannot-be-a-base URLs. */
  function PathSegments(u: Url): (p: Option<seq<string>>)
    ensures p.None? <==> u.cannotBeABase
    ensures p.Some? ==> p.value == u.segments
  {
    if u.cannotBeABase then None else Some(u.segments)
  }
}
