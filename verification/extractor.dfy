/** The two extractors: `HubCloudExtractor.getUrl`, which resolves the
    file-information page and turns its buttons into download candidates,
    and `HubdriveExtractor.getUrl`, which finds the HubCloud link on a
    Hubdrive page and hands it on. */
module Extractor {
  import opened Wrappers
  import opened Text
  import opened Title
  import opened Links
  import opened Providers
  import opened Web
  import opened Redirects

  /** One entry of the result's `data` list (`labelText` is its `label`). */
  datatype Candidate = Candidate(name: string, url: string, quality: int, labelText: string, kind: ProviderType)

  /** The result's `metadata`: the page quality, the cleaned title and the size text. */
  datatype Metadata = Metadata(quality: int, title: string, size: string)

  datatype Extraction = Extraction(candidates: seq<Candidate>, metadata: Metadata)

  /** The hard-stop failures; `Message` is the `error` string returned. */
  datatype ExtractError =
    | InvalidUrl
    | LandingFetchFailed
    | NoDownloadLink
    | InfoFetchFailed
    | NoDownloadButton
    | HubdriveFailed(reason: string)
  {
    function Message(): string {
      match this
      case InvalidUrl => "Invalid URL provided"
      case LandingFetchFailed => "Failed to fetch download page"
      case NoDownloadLink => "No download link found"
      case InfoFetchFailed => "Failed to fetch download information"
      case NoDownloadButton => "No download button found on page"
      case HubdriveFailed(reason) => "Hubdrive extraction failed: " + reason
    }
  }

  /** The value an extractor returns together with every request it sent. */
  datatype Outcome = Outcome(result: Result<Extraction, ExtractError>, requests: seq<Request>)

  /** What all buttons of one page share. */
  datatype PageContext = PageContext(referer: string, quality: int, labelString: string)

  // ---------------------------------------------------------------------
  // One button
  // ---------------------------------------------------------------------

  /** The `name` of a candidate of provider `kind`; a 10Gbps name tells
      whether the marker was found. */
  function CandidateName(kind: ProviderType, referer: string, text: string, resolved: bool): (name: string)
    ensures kind != Pixeldrain ==> referer <= name
    ensures kind == Pixeldrain ==> name == "Pixeldrain"
    ensures kind == TenGbps ==> (resolved <==> name == referer + " 10Gbps [Download]")
    ensures kind == Other ==> name == referer + " [" + text + "]"
  {
    match kind
    case Fsl => referer + " [FSL Server]"
    case Direct => referer
    case Buzz => referer + " [BuzzServer]"
    case Pixeldrain => "Pixeldrain"
    case S3 => referer + " S3 Server"
    case TenGbps => if resolved then referer + " 10Gbps [Download]" else referer + " 10Gbps"
    case Other => referer + " [" + text + "]"
  }

  /** The URL strategy of each provider: the two redirect protocols, or the
      href unchanged and no request. */
  function ResolveFor(net: Net, kind: ProviderType, link: string): (res: Resolution)
    ensures kind != Buzz && kind != TenGbps ==> res == Resolution(link, false, [])
    ensures kind == Buzz ==> res == BuzzResolve(net, link)
    ensures kind == TenGbps ==> res == TenGbpsResolve(net, link)
  {
    match kind
    case Buzz => BuzzResolve(net, link)
    case TenGbps => TenGbpsResolve(net, link)
    case _ => Resolution(link, false, [])
  }

  /** A candidate and the requests spent on it. */
  datatype Built = Built(candidate: Candidate, requests: seq<Request>)

  /** The candidate of a button with a non-empty href `link` and raw text
      `rawText`: its provider is the classification of the trimmed text, its
      name follows the provider table, its label is the trimmed
      `name + " " + labelString`, its quality is the page quality, and its URL
      is the href except where a redirect protocol resolved one. */
  function BuildCandidate(net: Net, ctx: PageContext, link: string, rawText: string): (b: Built)
    ensures b.candidate.kind == Classify(Trim(rawText))
    ensures b.candidate.quality == ctx.quality
    ensures b.candidate.labelText == Trim(b.candidate.name + " " + ctx.labelString)
    ensures b.candidate.kind == Fsl ==> b.candidate.name == ctx.referer + " [FSL Server]"
    ensures b.candidate.kind == Direct ==> b.candidate.name == ctx.referer
    ensures b.candidate.kind == Buzz ==> b.candidate.name == ctx.referer + " [BuzzServer]"
    ensures b.candidate.kind == Pixeldrain ==> b.candidate.name == "Pixeldrain"
    ensures b.candidate.kind == S3 ==> b.candidate.name == ctx.referer + " S3 Server"
    ensures b.candidate.kind == Other ==> b.candidate.name == ctx.referer + " [" + Trim(rawText) + "]"
    ensures b.candidate.kind == TenGbps ==>
              b.candidate.name == (if TenGbpsResolve(net, link).resolved then ctx.referer + " 10Gbps [Download]"
                                   else ctx.referer + " 10Gbps")
    ensures b.candidate.kind == Buzz ==> b.candidate.url == BuzzResolve(net, link).url
    ensures b.candidate.kind == TenGbps ==>
              b.candidate.url == TenGbpsResolve(net, link).url && b.requests == TenGbpsResolve(net, link).requests
    ensures b.candidate.kind != Buzz && b.candidate.kind != TenGbps ==> b.candidate.url == link && b.requests == []
    ensures b.candidate.kind == Buzz ==> b.requests == [Probe(link + BuzzSuffix)]
    ensures b.candidate.kind == TenGbps ==> 1 <= |b.requests| <= MaxRedirects && b.requests[0] == Probe(link)
    ensures forall k :: 0 <= k < |b.requests| ==> b.requests[k].Probe?
  {
    var text := Trim(rawText);
    var kind := Classify(text);
    var res := ResolveFor(net, kind, link);
    var name := CandidateName(kind, ctx.referer, text, res.resolved);
    Built(Candidate(name, res.url, ctx.quality, Trim(name + " " + ctx.labelString), kind), res.requests)
  }

  /** A candidate's label has nothing left to trim. */
  lemma CandidateLabelTrimmed(net: Net, ctx: PageContext, link: string, rawText: string)
    ensures var c := BuildCandidate(net, ctx, link, rawText).candidate;
            Trim(c.labelText) == c.labelText
  {
    var c := BuildCandidate(net, ctx, link, rawText).candidate;
    TrimIdempotent(c.name + " " + ctx.labelString);
  }

  // ---------------------------------------------------------------------
  // The button loop
  // ---------------------------------------------------------------------

  /** `if (!link) continue;`: buttons without an href, or with an empty one,
      are skipped. */
  predicate HasLink(b: Button) {
    b.href.Some? && b.href.value != ""
  }

  /** The buttons that are not skipped, in page order; `KeptAppend` and
      `KeptOne` pin it down. */
  function Kept(buttons: seq<Button>): (r: seq<Button>)
    ensures |r| <= |buttons|
    ensures forall k :: 0 <= k < |r| ==> HasLink(r[k])
    ensures forall b :: b in buttons && HasLink(b) ==> b in r
  {
    if buttons == [] then []
    else if HasLink(buttons[0]) then [buttons[0]] + Kept(buttons[1..])
    else Kept(buttons[1..])
  }

  /** The filter keeps page order: the kept buttons of two runs of buttons
      are those of the first run followed by those of the second. */
  lemma {:induction false} KeptAppend(a: seq<Button>, b: seq<Button>)
    ensures Kept(a + b) == Kept(a) + Kept(b)
    decreases |a|
  {
    if a != [] {
      assert (a + b)[0] == a[0];
      assert (a + b)[1..] == a[1..] + b;
      KeptAppend(a[1..], b);
    } else {
      assert a + b == b;
    }
  }

  /** A single button is kept, once, exactly when it has an href. */
  lemma KeptOne(b: Button)
    ensures Kept([b]) == (if HasLink(b) then [b] else [])
  {
    assert [b][1..] == [];
  }

  /** The candidates of a page and the requests made for them. */
  datatype Batch = Batch(candidates: seq<Candidate>, requests: seq<Request>)

  predicate OnlyProbes(requests: seq<Request>) {
    forall k :: 0 <= k < |requests| ==> requests[k].Probe?
  }

  /** The requests `step` sends for each of `bs`, one button after another. */
  function StepRequests(step: Button -> Built, bs: seq<Button>): seq<Request> {
    if bs == [] then [] else step(bs[0]).requests + StepRequests(step, bs[1..])
  }

  /** The loop over the buttons for any per-button step: one candidate per
      kept button, in button order, the k-th made from the k-th kept button;
      the requests are those of the kept buttons' steps, in the same order. */
  function CollectWith(step: Button -> Built, buttons: seq<Button>): (r: Batch)
    ensures |r.candidates| == |Kept(buttons)|
    ensures forall k :: 0 <= k < |r.candidates| ==> r.candidates[k] == step(Kept(buttons)[k]).candidate
    ensures r.requests == StepRequests(step, Kept(buttons))
  {
    if buttons == [] then Batch([], [])
    else
      var rest := CollectWith(step, buttons[1..]);
      if HasLink(buttons[0]) then
        var b := step(buttons[0]);
        var kept := Kept(buttons);
        assert kept == [buttons[0]] + Kept(buttons[1..]);
        assert kept[0] == buttons[0] && kept[1..] == Kept(buttons[1..]);
        var cs := [b.candidate] + rest.candidates;
        assert forall k :: 1 <= k < |cs| ==> cs[k] == rest.candidates[k - 1] && kept[k] == Kept(buttons[1..])[k - 1];
        Batch(cs, b.requests + rest.requests)
      else rest
  }

  /** What `getUrl` does with one button, given the page it is on. */
  function BuildStep(net: Net, ctx: PageContext): Button -> Built {
    (b: Button) => BuildCandidate(net, ctx, b.href.GetOr(""), b.text)
  }

  /** The probes the buttons `bs` cost, button after button: each one's
      redirect protocol, if any. */
  function ButtonProbes(net: Net, ctx: PageContext, bs: seq<Button>): seq<Request> {
    if bs == [] then []
    else BuildCandidate(net, ctx, bs[0].href.GetOr(""), bs[0].text).requests + ButtonProbes(net, ctx, bs[1..])
  }

  /** The step's requests are the buttons' probes. */
  lemma {:induction false} StepRequestsAreProbes(net: Net, ctx: PageContext, bs: seq<Button>)
    ensures StepRequests(BuildStep(net, ctx), bs) == ButtonProbes(net, ctx, bs)
    decreases |bs|
  {
    if bs != [] {
      StepRequestsAreProbes(net, ctx, bs[1..]);
    }
  }

  /** The buttons cost redirect probes and no page fetch. */
  lemma {:induction false} ButtonProbesOnlyProbe(net: Net, ctx: PageContext, bs: seq<Button>)
    ensures OnlyProbes(ButtonProbes(net, ctx, bs))
    decreases |bs|
  {
    if bs != [] {
      ButtonProbesOnlyProbe(net, ctx, bs[1..]);
      var b := BuildCandidate(net, ctx, bs[0].href.GetOr(""), bs[0].text);
      OnlyProbesConcat(b.requests, ButtonProbes(net, ctx, bs[1..]));
    }
  }

  /** Two probe-only logs one after the other are probe-only. */
  lemma OnlyProbesConcat(a: seq<Request>, b: seq<Request>)
    requires OnlyProbes(a) && OnlyProbes(b)
    ensures OnlyProbes(a + b)
  {
    assert forall k :: |a| <= k < |a + b| ==> (a + b)[k] == b[k - |a|];
  }

  /** The button loop of `getUrl`: each kept button's candidate from
      `BuildCandidate`, in button order; the requests are the kept buttons'
      redirect probes, in the same order, and nothing else. */
  function Collect(net: Net, ctx: PageContext, buttons: seq<Button>): (r: Batch)
    ensures |r.candidates| == |Kept(buttons)|
    ensures forall k :: 0 <= k < |r.candidates| ==>
              r.candidates[k] == BuildCandidate(net, ctx, Kept(buttons)[k].href.value, Kept(buttons)[k].text).candidate
    ensures r.requests == ButtonProbes(net, ctx, Kept(buttons))
    ensures OnlyProbes(r.requests)
  {
    StepRequestsAreProbes(net, ctx, Kept(buttons));
    ButtonProbesOnlyProbe(net, ctx, Kept(buttons));
    CollectWith(BuildStep(net, ctx), buttons)
  }

  // ---------------------------------------------------------------------
  // HubCloudExtractor.getUrl
  // ---------------------------------------------------------------------

  /** Stage one: the address of the file-information page. A URL containing
      "hubcloud.php" is that page already; otherwise the landing page is
      fetched and its `#download` href resolved against the URL's base. The
      address may come out empty. */
  function InfoPageUrl(net: Net, url: string): (r: Result<string, ExtractError>)
    ensures Contains(url, HubcloudMarker) ==> r == Success(url)
    ensures !Contains(url, HubcloudMarker) && net.fetch(url).Failure? ==> r == Failure(LandingFetchFailed)
    ensures !Contains(url, HubcloudMarker) && net.fetch(url).Success? ==>
              r == Success(ResolveHref(net.fetch(url).value.downloadHref.GetOr(""), net.baseOf(url)))
  {
    if Contains(url, HubcloudMarker) then Success(url)
    else
      match net.fetch(url)
      case Failure(_) => Failure(LandingFetchFailed)
      case Success(doc) => Success(ResolveHref(doc.downloadHref.GetOr(""), net.baseOf(url)))
  }

  /** The requests stage one sends. */
  function StageOneRequests(url: string): seq<Request> {
    if Contains(url, HubcloudMarker) then [] else [Fetch(url)]
  }

  /** Stage two: the file-information page and its candidates. */
  function InfoPage(net: Net, href: string, referer: string): (r: Result<Batch, ExtractError>)
    ensures net.fetch(href).Failure? ==> r == Failure(InfoFetchFailed)
    ensures net.fetch(href).Success? ==>
              var page := net.fetch(href).value;
              r == Success(Collect(net, PageContext(referer, IndexQuality(page.header), LabelString(CleanTitle(page.header), page.size)), page.buttons))
  {
    match net.fetch(href)
    case Failure(_) => Failure(InfoFetchFailed)
    case Success(page) =>
      var title := CleanTitle(page.header);
      var quality := IndexQuality(page.header);
      Success(Collect(net, PageContext(referer, quality, LabelString(title, page.size)), page.buttons))
  }

  /** Stage two from the address of the file-information page: its fetch,
      then the button loop with the page's quality and label. */
  function StageTwo(net: Net, href: string, referer: string): (o: Outcome)
    ensures net.fetch(href).Failure? ==> o == Outcome(Failure(InfoFetchFailed), [Fetch(href)])
    ensures o.result.Success? <==> net.fetch(href).Success?
    ensures net.fetch(href).Success? ==>
              var page := net.fetch(href).value;
              var ctx := PageContext(referer, IndexQuality(page.header), LabelString(CleanTitle(page.header), page.size));
              && o.result == Success(Extraction(Collect(net, ctx, page.buttons).candidates,
                                                Metadata(IndexQuality(page.header), CleanTitle(page.header), page.size)))
              && o.requests == [Fetch(href)] + ButtonProbes(net, ctx, Kept(page.buttons))
              && OnlyProbes(o.requests[1..])
              && |o.result.value.candidates| == |Kept(page.buttons)|
              && (forall k :: 0 <= k < |o.result.value.candidates| ==>
                    o.result.value.candidates[k].quality == IndexQuality(page.header)
                    && o.result.value.candidates[k].kind == Classify(Trim(Kept(page.buttons)[k].text))
                    && (o.result.value.candidates[k].kind in {Buzz, TenGbps}
                        || o.result.value.candidates[k].url == Kept(page.buttons)[k].href.value))
  {
    match InfoPage(net, href, referer)
    case Failure(e) => Outcome(Failure(e), [Fetch(href)])
    case Success(batch) =>
      var page := net.fetch(href).value;
      var metadata := Metadata(IndexQuality(page.header), CleanTitle(page.header), page.size);
      assert ([Fetch(href)] + batch.requests)[1..] == batch.requests;
      Outcome(Success(Extraction(batch.candidates, metadata)), [Fetch(href)] + batch.requests)
  }

  /** `HubCloudExtractor.getUrl(url, referer)`: stage one, then stage two
      on the address it yields. */
  function HubCloudGetUrl(net: Net, url: string, referer: string): (o: Outcome)
    // an empty URL is refused before any request
    ensures url == "" ==> o == Outcome(Failure(InvalidUrl), [])
    // stage one's failure is the result, after stage one's requests only
    ensures url != "" && InfoPageUrl(net, url).Failure? ==>
              o == Outcome(Failure(InfoPageUrl(net, url).error), StageOneRequests(url))
    // "No download link found" only when both the href and the base are
    // empty, and then after stage one's requests only
    ensures o.result == Failure(NoDownloadLink) <==>
              url != "" && !Contains(url, HubcloudMarker) && net.fetch(url).Success?
              && net.fetch(url).value.downloadHref.GetOr("") == "" && net.baseOf(url) == ""
    ensures o.result == Failure(NoDownloadLink) ==> o.requests == StageOneRequests(url)
    // the two fetch failures and their messages
    ensures url != "" && !Contains(url, HubcloudMarker) && net.fetch(url).Failure? ==>
              o == Outcome(Failure(LandingFetchFailed), [Fetch(url)])
    ensures url != "" && InfoPageUrl(net, url).Success? && InfoPageUrl(net, url).value != ""
            && net.fetch(InfoPageUrl(net, url).value).Failure? ==>
              o == Outcome(Failure(InfoFetchFailed), StageOneRequests(url) + [Fetch(InfoPageUrl(net, url).value)])
    // with an address, stage two decides the result and adds its requests
    ensures url != "" && InfoPageUrl(net, url).Success? && InfoPageUrl(net, url).value != "" ==>
              var second := StageTwo(net, InfoPageUrl(net, url).value, referer);
              o == Outcome(second.result, StageOneRequests(url) + second.requests)
    // the extraction succeeds exactly when the file-information page is reached
    ensures o.result.Success? <==>
              url != "" && InfoPageUrl(net, url).Success? && InfoPageUrl(net, url).value != ""
              && net.fetch(InfoPageUrl(net, url).value).Success?
    // a hard stop sends no probe and at most the two page fetches
    ensures o.result.Failure? ==> |o.requests| <= 2 && forall k :: 0 <= k < |o.requests| ==> o.requests[k].Fetch?
  {
    if url == "" then Outcome(Failure(InvalidUrl), [])
    else
      var first := StageOneRequests(url);
      match InfoPageUrl(net, url)
      case Failure(e) => Outcome(Failure(e), first)
      case Success(href) =>
        if href == "" then Outcome(Failure(NoDownloadLink), first)
        else
          var second := StageTwo(net, href, referer);
          Outcome(second.result, first + second.requests)
  }

  // ---------------------------------------------------------------------
  // HubdriveExtractor.getUrl
  // ---------------------------------------------------------------------

  /** `HubdriveExtractor.getUrl(url, referer)`: fetch the Hubdrive page and
      hand its primary button's href to the HubCloud extractor, whatever
      host that href names. */
  function HubdriveGetUrl(net: Net, url: string, referer: string): (o: Outcome)
    ensures url == "" ==> o == Outcome(Failure(InvalidUrl), [])
    ensures url != "" ==> o.result != Failure(InvalidUrl) && |o.requests| >= 1 && o.requests[0] == Fetch(url)
    ensures url != "" && net.fetch(url).Failure? ==>
              o == Outcome(Failure(HubdriveFailed(net.fetch(url).error)), [Fetch(url)])
    ensures url != "" && net.fetch(url).Success? && net.fetch(url).value.primaryHref.GetOr("") == "" ==>
              o == Outcome(Failure(NoDownloadButton), [Fetch(url)])
    ensures url != "" && net.fetch(url).Success? && net.fetch(url).value.primaryHref.GetOr("") != "" ==>
              var inner := HubCloudGetUrl(net, net.fetch(url).value.primaryHref.value, referer);
              o.result == inner.result && o.requests == [Fetch(url)] + inner.requests
  {
    if url == "" then Outcome(Failure(InvalidUrl), [])
    else
      match net.fetch(url)
      case Failure(reason) => Outcome(Failure(HubdriveFailed(reason)), [Fetch(url)])
      case Success(doc) =>
        var href := doc.primaryHref.GetOr("");
        if href == "" then Outcome(Failure(NoDownloadButton), [Fetch(url)])
        else
          var inner := HubCloudGetUrl(net, href, referer);
          Outcome(inner.result, [Fetch(url)] + inner.requests)
  }
}
