/** The two redirect protocols run for BuzzServer and 10Gbps buttons. Both
    degrade to the button's own href instead of failing. */
module Redirects {
  import opened Wrappers
  import opened Text
  import opened Web

  /** Appended to a BuzzServer href to ask for its redirect. */
  const BuzzSuffix := "/download"

  /** The text that marks the final 10Gbps redirect. */
  const LinkMarker := "link="

  /** The 10Gbps loop sends at most this many requests. */
  const MaxRedirects := 3

  /** The URL a button ends up with, whether the protocol resolved it, and
      the requests the protocol sent. */
  datatype Resolution = Resolution(url: string, resolved: bool, requests: seq<Request>)

  // ---------------------------------------------------------------------
  // BuzzServer
  // ---------------------------------------------------------------------

  /** `headers.location || headers['hx-redirect'] || ''`: a missing header
      and an empty one are alike. */
  function BuzzTarget(reply: Reply): (v: string)
    ensures reply.location.GetOr("") != "" ==> v == reply.location.value
    ensures reply.location.GetOr("") == "" ==> v == reply.hxRedirect.GetOr("")
  {
    var location := reply.location.GetOr("");
    if location != "" then location else reply.hxRedirect.GetOr("")
  }

  /** A header value as the final URL: kept when it starts with "http",
      otherwise appended to the button's base origin with no slash handling. */
  function Absolute(value: string, base: string): (u: string)
    ensures "http" <= value ==> u == value
    ensures !("http" <= value) ==> u == base + value
  {
    if "http" <= value then value else base + value
  }

  /** The BuzzServer protocol: exactly one probe, of `link + "/download"`;
      the redirect header it returns, made absolute, when there is one;
      otherwise, and when the request throws, the button's own href. */
  function BuzzResolve(net: Net, link: string): (res: Resolution)
    ensures res.requests == [Probe(link + BuzzSuffix)]
    ensures res.resolved <==> net.probe(link + BuzzSuffix).Some? && BuzzTarget(net.probe(link + BuzzSuffix).value) != ""
    ensures res.resolved ==> res.url == Absolute(BuzzTarget(net.probe(link + BuzzSuffix).value), net.baseOf(link))
    ensures !res.resolved ==> res.url == link
  {
    var target := link + BuzzSuffix;
    match net.probe(target)
    case None => Resolution(link, false, [Probe(target)])
    case Some(reply) =>
      var value := BuzzTarget(reply);
      if value != "" then Resolution(Absolute(value, net.baseOf(link)), true, [Probe(target)])
      else Resolution(link, false, [Probe(target)])
  }

  /** A non-empty `location` decides the BuzzServer URL whatever
      `hx-redirect` says. */
  lemma BuzzLocationWins(net: Net, net': Net, link: string, location: string, hx: Option<string>, hx': Option<string>)
    requires location != ""
    requires net.probe(link + BuzzSuffix) == Some(Reply(Some(location), hx))
    requires net'.probe(link + BuzzSuffix) == Some(Reply(Some(location), hx'))
    requires net.baseOf(link) == net'.baseOf(link)
    ensures BuzzResolve(net, link) == BuzzResolve(net', link)
  {
  }

  // ---------------------------------------------------------------------
  // 10Gbps
  // ---------------------------------------------------------------------

  /** What one iteration of the 10Gbps loop sees at `url`. */
  datatype Hop = Threw | NoLocation | Marked(location: string) | Next(location: string)

  function HopOf(net: Net, url: string): (h: Hop)
    ensures h == Threw <==> net.probe(url).None?
    ensures h == NoLocation <==> net.probe(url).Some? && net.probe(url).value.location.GetOr("") == ""
    ensures h.Marked? || h.Next? ==> net.probe(url).Some? && net.probe(url).value.location == Some(h.location)
    ensures h.Marked? <==> net.probe(url).Some? && net.probe(url).value.location.GetOr("") != ""
                           && Contains(net.probe(url).value.location.value, LinkMarker)
    ensures h.Next? ==> h.location != "" && !Contains(h.location, LinkMarker)
  {
    match net.probe(url)
    case None => Threw
    case Some(reply) =>
      var location := reply.location.GetOr("");
      if location == "" then NoLocation
      else if Contains(location, LinkMarker) then Marked(location)
      else Next(location)
  }

  /** `urls` is a run of the loop from `start`: each URL is the `location`
      returned for the one before it, which carried no marker. */
  ghost predicate IsChain(net: Net, start: string, urls: seq<string>) {
    |urls| > 0 && urls[0] == start
    && forall k :: 0 <= k < |urls| - 1 ==> HopOf(net, urls[k]) == Next(urls[k + 1])
  }

  /** The URLs the loop requests and what the last request saw. */
  datatype Walk = Walk(visited: seq<string>, last: Hop)

  /** The loop started at `current` with `budget` iterations left: it stops
      at a failure, a missing `location`, a marked one, or when the budget is
      spent. */
  function Follow(net: Net, current: string, budget: nat): (w: Walk)
    requires budget > 0
    ensures 1 <= |w.visited| <= budget
    ensures IsChain(net, current, w.visited)
    ensures w.last == HopOf(net, w.visited[|w.visited| - 1])
    ensures w.last.Next? ==> |w.visited| == budget
    decreases budget
  {
    var hop := HopOf(net, current);
    if hop.Next? && budget > 1 then
      var rest := Follow(net, hop.location, budget - 1);
      Walk([current] + rest.visited, rest.last)
    else Walk([current], hop)
  }

  /** The 10Gbps protocol: at most three probes, the first of the button's
      href and each later one of the `location` the previous returned; when
      the last `location` seen carries "link=", the text after the first
      "link=" (up to any second one); in every other case, the button's own
      href, not the last hop followed. */
  function TenGbpsResolve(net: Net, link: string): (res: Resolution)
    ensures 1 <= |res.requests| <= MaxRedirects
    ensures res.requests[0] == Probe(link)
    ensures forall k :: 0 <= k < |res.requests| ==> res.requests[k].Probe?
    ensures forall k :: 0 <= k < |res.requests| - 1 ==>
              HopOf(net, res.requests[k].url) == Next(res.requests[k + 1].url)
    ensures res.resolved <==> HopOf(net, res.requests[|res.requests| - 1].url).Marked?
    ensures HopOf(net, res.requests[|res.requests| - 1].url).Next? ==> |res.requests| == MaxRedirects
    ensures res.resolved ==>
              var location := HopOf(net, res.requests[|res.requests| - 1].url).location;
              exists pre, post :: location == pre + LinkMarker + res.url + post && !Contains(pre, LinkMarker)
                && !Contains(res.url, LinkMarker) && (post == [] || LinkMarker <= post)
    ensures !res.resolved ==> res.url == link
  {
    var w := Follow(net, link, MaxRedirects);
    var requests := seq(|w.visited|, k requires 0 <= k < |w.visited| => Probe(w.visited[k]));
    match w.last
    case Marked(location) => Resolution(SecondField(location, LinkMarker), true, requests)
    case _ => Resolution(link, false, requests)
  }

  /** A walk along a chain that ends at a hop the loop cannot continue from
      visits exactly that chain. */
  lemma {:induction false} FollowAlongChain(net: Net, current: string, budget: nat, urls: seq<string>)
    requires budget > 0 && |urls| <= budget
    requires IsChain(net, current, urls)
    requires !HopOf(net, urls[|urls| - 1]).Next?
    ensures Follow(net, current, budget).visited == urls
    decreases budget
  {
    if |urls| > 1 {
      assert HopOf(net, urls[0]) == Next(urls[1]);
      var tail := urls[1..];
      assert IsChain(net, urls[1], tail) by {
        forall k | 0 <= k < |tail| - 1
          ensures HopOf(net, tail[k]) == Next(tail[k + 1])
        {
          assert HopOf(net, urls[k + 1]) == Next(urls[k + 2]);
        }
      }
      FollowAlongChain(net, urls[1], budget - 1, tail);
      assert urls == [current] + tail;
    }
  }

  /** Completeness of the 10Gbps protocol: whenever the redirects from the
      button's href reach a `location` with "link=" within three requests,
      the protocol resolves to the text after the marker. */
  lemma TenGbpsFindsMarker(net: Net, link: string, urls: seq<string>)
    requires |urls| <= MaxRedirects && IsChain(net, link, urls)
    requires HopOf(net, urls[|urls| - 1]).Marked?
    ensures TenGbpsResolve(net, link).resolved
    ensures TenGbpsResolve(net, link).url == SecondField(HopOf(net, urls[|urls| - 1]).location, LinkMarker)
  {
    FollowAlongChain(net, link, MaxRedirects, urls);
  }

  /** A redirect chain whose second hop sets no `location` falls back to
      the button's own href after two requests. */
  lemma TenGbpsMissingLocationFallsBack(net: Net, link: string, a: string)
    requires HopOf(net, link) == Next(a) && HopOf(net, a) == NoLocation
    ensures TenGbpsResolve(net, link).url == link
    ensures TenGbpsResolve(net, link).requests == [Probe(link), Probe(a)]
  {
    FollowAlongChain(net, link, MaxRedirects, [link, a]);
  }

  /** Three redirects without the marker fall back to the button's own
      href, not to the last `location` followed. */
  lemma TenGbpsBoundFallsBack(net: Net, link: string, a: string, b: string, c: string)
    requires HopOf(net, link) == Next(a) && HopOf(net, a) == Next(b) && HopOf(net, b) == Next(c)
    ensures TenGbpsResolve(net, link).url == link
    ensures TenGbpsResolve(net, link).requests == [Probe(link), Probe(a), Probe(b)]
  {
    assert Follow(net, b, 1) == Walk([b], Next(c));
    assert Follow(net, a, 2) == Walk([a, b], Next(c));
    assert Follow(net, link, 3) == Walk([link, a, b], Next(c));
  }
}
