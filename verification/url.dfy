/**
 * Host names of addresses. Parsing an address (`new URL(address)`) is the
 * platform's job; the model receives the parser as a function that returns
 * `None` where the platform would throw.
 */
module Url {
  import opened Wrappers
  import opened Text

  /** The parts of a parsed address that the extension reads. */
  datatype UrlParts = UrlParts(protocol: string, hostname: string)

  /** `new URL(address)`, with `None` for a thrown `TypeError`. */
  type UrlParser = string -> Option<UrlParts>

  /** `getDomainFromUrl(url)`: the host name without one leading "www.", or
      "unknown" when the address does not parse. */
  function DomainFromUrl(url: string, parse: UrlParser): (r: string)
    ensures parse(url).None? ==> r == "unknown"
    ensures parse(url).Some? && StartsWith(parse(url).value.hostname, "www.") ==>
              parse(url).value.hostname == "www." + r
    ensures parse(url).Some? && !StartsWith(parse(url).value.hostname, "www.") ==>
              r == parse(url).value.hostname
  {
    match parse(url)
    case None => "unknown"
    case Some(parts) =>
      var host := parts.hostname;
      if StartsWith(host, "www.") then host[4..] else host
  }

  /** Only one "www." is removed: "www.www.example.com" becomes "www.example.com". */
  lemma {:induction false} DomainStripsOneWww(url: string, parse: UrlParser, rest: string)
    requires parse(url).Some? && parse(url).value.hostname == "www." + rest
    ensures DomainFromUrl(url, parse) == rest
  {
    assert StartsWith("www." + rest, "www.");
  }
}
