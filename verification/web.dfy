/** The outside world as the extraction engine sees it: parsed pages and
    redirect probes, supplied by oracle functions instead of HTTP and HTML
    parsing. */
module Web {
  import opened Wrappers

  /** One `div.card-body h2 a.btn` anchor: its `href` attribute (absent when
      not set) and its text before trimming. */
  datatype Button = Button(href: Option<string>, text: string)

  /** What the engine reads from a fetched page: the `#download` href, the
      `.btn.btn-primary.btn-user.btn-success1.m-1` href, the `i#size` text,
      the `div.card-header` text and the download buttons in page order. */
  datatype Document = Document(
    downloadHref: Option<string>,
    primaryHref: Option<string>,
    size: string,
    header: string,
    buttons: seq<Button>)

  /** The headers of a response to a GET sent with redirects disabled. */
  datatype Reply = Reply(location: Option<string>, hxRedirect: Option<string>)

  /** The network and the URL parser:
      - `fetch(url)`: a GET that follows redirects, the parsed page or the
        error message of the exception it threw;
      - `probe(url)`: a GET with redirects disabled and every status accepted,
        its headers or `None` when the request threw;
      - `baseOf(url)`: `getBaseUrl`, the URL's `protocol//host` or "". */
  datatype Net = Net(
    fetch: string -> Result<Document, string>,
    probe: string -> Option<Reply>,
    baseOf: string -> string)

  /** A request the engine sent, for stating which calls it makes. */
  datatype Request = Fetch(url: string) | Probe(url: string)
}
